/** Exactly which complete calls come out right: an empty chunk after the first leaves a stray quote behind. */
module CallChunks {
  import opened Messages
  import opened JsonText
  import opened Quotes
  import opened PythonValues
  import opened ToolCalls
  import opened CallText

  // ---------------------------------------------------------------- counting quotes

  function QuoteCount(s: string): nat {
    multiset(s)['"']
  }

  lemma QuotesAdd(s: string, t: string)
    ensures QuoteCount(s + t) == QuoteCount(s) + QuoteCount(t)
  {
  }

  lemma {:induction false} BracesHaveNone(n: int)
    ensures QuoteCount(Braces(n)) == 0
    decreases n
  {
    if n > 0 {
      BracesHaveNone(n - 1);
      QuotesAdd("}", Braces(n - 1));
    }
  }

  // ---------------------------------------------------------------- stray quotes

  /** A string has at least one chunk; values can be rendered. */
  predicate Written(a: Arg) {
    match a
    case StringArg(_, chunks) => chunks != []
    case ValueArg(_, value) => Valid(value)
  }

  function Empties(chunks: seq<string>): nat {
    if chunks == [] then 0 else (if chunks[0] == "" then 1 else 0) + Empties(chunks[1..])
  }

  /** The empty chunks of a string, but for its first. */
  function StrayOf(a: Arg): nat
    requires Written(a)
  {
    match a
    case StringArg(_, chunks) => Empties(chunks[1..])
    case ValueArg(_, _) => 0
  }

  function Stray(args: seq<Arg>): nat
    requires forall i | 0 <= i < |args| :: Written(args[i])
  {
    if args == [] then 0 else StrayOf(args[0]) + Stray(args[1..])
  }

  lemma {:induction false} NoEmpties(chunks: seq<string>)
    ensures Empties(chunks) == 0 <==> forall i | 0 <= i < |chunks| :: chunks[i] != ""
  {
    if chunks != [] {
      NoEmpties(chunks[1..]);
      assert forall i | 0 < i < |chunks| :: chunks[i] == chunks[1..][i - 1];
    }
  }

  lemma NoStrayOf(a: Arg)
    requires Written(a)
    ensures StrayOf(a) == 0 <==> ArgOk(a)
  {
    if a.StringArg? {
      NoEmpties(a.chunks[1..]);
      assert forall i | 0 < i < |a.chunks| :: a.chunks[i] == a.chunks[1..][i - 1];
    }
  }

  lemma {:induction false} NoStray(args: seq<Arg>)
    requires forall i | 0 <= i < |args| :: Written(args[i])
    ensures Stray(args) == 0 <==> forall i | 0 <= i < |args| :: ArgOk(args[i])
  {
    if args != [] {
      NoStrayOf(args[0]);
      NoStray(args[1..]);
      assert forall i | 0 < i < |args| :: args[i] == args[1..][i - 1];
    }
  }

  // ---------------------------------------------------------------- every empty chunk adds a quote

  lemma {:induction false} ChunksCount(d: Draft, chunks: seq<string>)
    requires d.open && d.text != ""
    ensures var e := Assemble(d, ChunkEvents(chunks));
      && e.open && e.count == d.count && e.text != ""
      && QuoteCount(e.text) == QuoteCount(d.text) + QuoteCount(EscapeInner(Concat(chunks))) + Empties(chunks)
    ensures InOrder(d, ChunkEvents(chunks))
    decreases chunks
  {
    hide EscapeInner, QuoteCount;
    if chunks == [] {
      NothingEscaped("");
      QuotesAdd("", "");
    } else {
      var c := chunks[0];
      var e := Extend(d, Event(ArgStringValue, c));
      assert "" + EscapeInner(c) == EscapeInner(c);
      var piece := if c == "" then "\"" else EscapeInner(c);
      assert e == d.(text := d.text + piece);
      QuotesAdd(d.text, piece);
      ChunksCount(e, chunks[1..]);
      EscapeInnerConcat(c, Concat(chunks[1..]));
      QuotesAdd(EscapeInner(c), EscapeInner(Concat(chunks[1..])));
      OneQuote();
    }
  }

  lemma OneQuote()
    ensures QuoteCount("\"") == 1 && EscapeInner("") == "" && QuoteCount("") == 0
  {
    assert multiset("\"") == multiset{'"'};
  }

  lemma StringCount(d: Draft, chunks: seq<string>)
    requires !d.open && d.text != "" && chunks != []
    ensures var events := ChunkEvents(chunks) + [Event(ArgClose, "")];
      var e := Assemble(d, events);
      && !e.open && e.count == d.count && e.text != "" && InOrder(d, events)
      && QuoteCount(e.text) == QuoteCount(d.text) + QuoteCount(Dump(Concat(chunks))) + Empties(chunks[1..])
  {
    hide EscapeInner, ValueText, QuoteCount;
    var close := [Event(ArgClose, "")];
    assert close[1..] == [] && close[0] == Event(ArgClose, "");
    FirstChunk(d, chunks[0]);
    var d1 := Extend(d, Event(ArgStringValue, chunks[0]));
    ChunksCount(d1, chunks[1..]);
    AssembleConcat(d, ChunkEvents(chunks), close);
    var d2 := Assemble(d1, ChunkEvents(chunks[1..]));
    assert Assemble(d2, close) == Extend(d2, close[0]);
    var a, b := EscapeInner(chunks[0]), EscapeInner(Concat(chunks[1..]));
    EscapeInnerConcat(chunks[0], Concat(chunks[1..]));
    DumpCount(Concat(chunks));
    QuotesAdd(a, b);
    QuotesAdd("\"", a);
    QuotesAdd(d.text, "\"" + a);
    QuotesAdd(d2.text, "\"");
    OneQuote();
  }

  lemma DumpCount(s: string)
    ensures QuoteCount(Dump(s)) == QuoteCount(EscapeInner(s)) + 2
  {
    hide EscapeInner, QuoteCount;
    var inner := EscapeInner(s);
    QuotesAdd("\"", inner);
    QuotesAdd("\"" + inner, "\"");
    OneQuote();
  }

  lemma ValueCount(d: Draft, a: Arg)
    requires !d.open && d.text != "" && Written(a)
    ensures var v := match a case StringArg(_, chunks) => Dump(Concat(chunks)) case ValueArg(_, value) => Render(Json, value);
      var e := Assemble(d, ValueEvents(a));
      && !e.open && e.count == d.count && e.text != "" && InOrder(d, ValueEvents(a))
      && QuoteCount(e.text) == QuoteCount(d.text) + QuoteCount(v) + StrayOf(a)
  {
    hide Assemble, InOrder, Dump, QuoteCount;
    match a
    case StringArg(_, chunks) =>
      assert ValueEvents(a) == ChunkEvents(chunks) + [Event(ArgClose, "")];
      StringCount(d, chunks);
    case ValueArg(_, value) =>
      assert ValueEvents(a) == [Event(ArgValue, Render(Python, value))] + [Event(ArgClose, "")];
      ValueAssembles(d, value);
      QuotesAdd(d.text, Render(Json, value));
  }

  lemma ArgCount(d: Draft, a: Arg)
    requires !d.open && Written(a)
    ensures var e := Assemble(d, ArgEvents(a));
      && !e.open && e.count == d.count + 1 && e.text != "" && InOrder(d, ArgEvents(a))
      && QuoteCount(e.text) ==
         QuoteCount(Shown(d.text)) + QuoteCount((if d.count > 0 then "," else "") + Member(a)) + StrayOf(a)
  {
    hide Assemble, InOrder, ArgEvents, ValueEvents, Dump, Render, Written, QuoteCount, StrayOf;
    HeaderAssembles(d, a);
    var sep, key := if d.count > 0 then "," else "", Dump(Trim(a.name));
    var v := match a case StringArg(_, chunks) => Dump(Concat(chunks)) case ValueArg(_, value) => Render(Json, value);
    var head := Shown(d.text) + (sep + (key + ":"));
    ValueCount(Draft(head, d.count + 1, false), a);
    Appended(Shown(d.text), sep, key, v);
    QuotesAdd(head, v);
    QuotesAdd(Shown(d.text), sep + (key + (":" + v)));
  }

  lemma {:induction false} ArgsCount(d: Draft, args: seq<Arg>)
    requires !d.open && (d.text == "" <==> d.count == 0) && forall i | 0 <= i < |args| :: Written(args[i])
    ensures var e := Assemble(d, AllEvents(args));
      && !e.open && InOrder(d, AllEvents(args))
      && QuoteCount(Shown(e.text)) == QuoteCount(Shown(d.text)) + QuoteCount(Members(args, d.count == 0)) + Stray(args)
    decreases args
  {
    hide ArgEvents, Member, Written, Extend, QuoteCount, StrayOf;
    if args == [] {
      OneQuote();
    } else {
      ArgCount(d, args[0]);
      AssembleConcat(d, ArgEvents(args[0]), AllEvents(args[1..]));
      var sep, m, ms := if d.count > 0 then "," else "", Member(args[0]), Members(args[1..], false);
      ArgsCount(Assemble(d, ArgEvents(args[0])), args[1..]);
      QuotesAdd(sep + m, ms);
      assert (sep + m) + ms == sep + (m + ms);
    }
  }

  // ---------------------------------------------------------------- closing

  lemma ObjectCount(args: seq<Arg>)
    ensures QuoteCount(ObjectText(args)) == QuoteCount(Members(args, true))
  {
    hide Members;
    var ms := Members(args, true);
    assert ObjectText(args) == "{" + ms + "}";
    QuotesAdd("{", ms);
    QuotesAdd("{" + ms, "}");
    assert multiset("{") == multiset{'{'} && multiset("}") == multiset{'}'};
  }

  /**
   A complete call, read from any state, ends as the JSON object of its arguments exactly when no
   string has an empty chunk after its first; otherwise the assembled text has a quote too many.
   */
  lemma CompleteCallExactly(s: State, open: Node, body: seq<Node>, close: Node, args: seq<Arg>)
    requires Sound(s) && open.tag == ToolOpen && close.tag == ToolClose
    requires Inside(body) && NameAfter("", body) != ""
    requires Events(body) == AllEvents(args) && forall i | 0 <= i < |args| :: Written(args[i])
    ensures Run(s, [open] + body + [close]).toolCalls
      == s.toolCalls + [ToolCall(NameAfter("", body), ObjectText(args), IdAfter("", body))]
      <==> forall i | 0 <= i < |args| :: ArgOk(args[i])
  {
    hide Step, ArgOk, QuoteCount, Written;
    NoStray(args);
    if Stray(args) == 0 {
      CompleteCall(s, open, body, close, args);
    } else {
      ArgsCount(BLANK, args);
      CallRun(s, open, body, close);
      var d := Assemble(BLANK, AllEvents(args));
      var n := ScanFrom(START, Shown(d.text)).depth;
      var text := Shown(d.text) + Braces(n);
      assert Closing(d) == text by { NothingAdded(Shown(d.text)); }
      CountTells(text, d, args, n);
      LastDiffers(s.toolCalls, NameAfter("", body), text, ObjectText(args), IdAfter("", body));
    }
  }

  lemma NothingAdded(text: string)
    ensures text + "" == text
  {
  }

  lemma CountTells(text: string, d: Draft, args: seq<Arg>, n: int)
    requires forall i | 0 <= i < |args| :: Written(args[i])
    requires text == Shown(d.text) + Braces(n) && Stray(args) > 0
    requires QuoteCount(Shown(d.text)) == QuoteCount(Shown("")) + QuoteCount(Members(args, true)) + Stray(args)
    ensures text != ObjectText(args)
  {
    hide QuoteCount, Members, Braces, ObjectText;
    QuotesAdd(Shown(d.text), Braces(n));
    BracesHaveNone(n);
    ObjectCount(args);
  }

  lemma LastDiffers(base: seq<ToolCall>, name: string, a: string, b: string, id: string)
    requires a != b
    ensures base + [ToolCall(name, a, id)] != base + [ToolCall(name, b, id)]
  {
    assert (base + [ToolCall(name, a, id)])[|base|] != (base + [ToolCall(name, b, id)])[|base|];
  }

  // ---------------------------------------------------------------- a call that comes out wrong

  /** The name f and one argument x, the text "a", whose second chunk is empty. */
  const STRAY_BODY: seq<Node> := [
    Node(ToolName, "f", "f", []), Node(ArgOpen, "", "", []), Node(ArgName, "x", "x", []),
    Node(ArgStringValue, "a", "a", []), Node(ArgStringValue, "", "", []), Node(ArgClose, "", "", [])]

  const STRAY_EVENTS: seq<Event> := [
    Event(ArgOpen, ""), Event(ArgName, "x"), Event(ArgStringValue, "a"), Event(ArgStringValue, ""), Event(ArgClose, "")]

  const STRAY_TEXT: string := "{\"x\":\"a\"\""

  lemma EventsCons(n: Node, rest: seq<Node>)
    ensures Events([n] + rest) ==
      (if IsEvent(n) then [EventOf(n)] else []) + Events(rest)
  {
    assert ([n] + rest)[1..] == rest;
    assert [] + Events(rest) == Events(rest);
  }

  lemma {:induction false} NoneNamed(name: string, id: string, nodes: seq<Node>)
    requires forall i | 0 <= i < |nodes| :: nodes[i].tag != ToolName && nodes[i].tag != ToolId
    ensures NameAfter(name, nodes) == name && IdAfter(id, nodes) == id
    decreases nodes
  {
    if nodes != [] { NoneNamed(name, id, nodes[1..]); }
  }

  lemma StrayEvents()
    ensures Events(STRAY_BODY) == STRAY_EVENTS
  {
    hide Events;
    var b := STRAY_BODY;
    assert b == [b[0]] + ([b[1]] + ([b[2]] + ([b[3]] + ([b[4]] + ([b[5]] + [])))));
    EventsCons(b[5], []);
    EventsCons(b[4], [b[5]] + []);
    EventsCons(b[3], [b[4]] + ([b[5]] + []));
    EventsCons(b[2], [b[3]] + ([b[4]] + ([b[5]] + [])));
    EventsCons(b[1], [b[2]] + ([b[3]] + ([b[4]] + ([b[5]] + []))));
    EventsCons(b[0], [b[1]] + ([b[2]] + ([b[3]] + ([b[4]] + ([b[5]] + [])))));
    assert Events([]) == [] by { NoEvents(); }
  }

  lemma NoEvents()
    ensures Events([]) == []
  {
  }

  /** The name comes first, and there is no other and no id. */
  lemma NamedFirst(n: Node, rest: seq<Node>)
    requires n.tag == ToolName && forall i | 0 <= i < |rest| :: rest[i].tag != ToolName && rest[i].tag != ToolId
    ensures NameAfter("", [n] + rest) == TrimTrailing(n.text) && IdAfter("", [n] + rest) == ""
  {
    hide TrimTrailing;
    assert ([n] + rest)[0] == n && ([n] + rest)[1..] == rest;
    NoneNamed(TrimTrailing(n.text), "", rest);
  }

  lemma StrayNamed()
    ensures Inside(STRAY_BODY) && NameAfter("", STRAY_BODY) == "f" && IdAfter("", STRAY_BODY) == ""
  {
    hide NameAfter, IdAfter, TrimTrailing;
    TrimmedName();
    var b := STRAY_BODY;
    assert b == [b[0]] + [b[1], b[2], b[3], b[4], b[5]];
    NamedFirst(b[0], [b[1], b[2], b[3], b[4], b[5]]);
  }

  lemma TrimmedName()
    ensures TrimTrailing("f") == "f"
  {
  }

  lemma OneEscaped(c: char)
    requires ' ' <= c && c != '"' && c != '\\'
    ensures EscapeInner([c]) == [c] && Dump([c]) == ['"', c, '"']
  {
    assert [c][1..] == [] && [c] + [] == [c];
  }

  lemma StrayDraft()
    ensures Assemble(BLANK, STRAY_EVENTS) == Draft(STRAY_TEXT, 1, false) && InOrder(BLANK, STRAY_EVENTS)
  {
    hide Dump, EscapeInner, Trim;
    var e := STRAY_EVENTS;
    OneEscaped('x');
    OneEscaped('a');
    assert Trim("x") == "x" by { TrimmedOne(); }
    var named := Draft("{\"x\":", 1, false);
    assert Extend(Extend(BLANK, e[0]), e[1]) == named;
    var open := Draft("{\"x\":\"a", 1, true);
    assert Extend(named, e[2]) == open;
    var closed := Draft("{\"x\":\"a\"", 1, true);
    assert Extend(open, e[3]) == closed;
    assert Extend(closed, e[4]) == Draft(STRAY_TEXT, 1, false);
    var last, tail, more := [e[4]], [e[3], e[4]], [e[2], e[3], e[4]];
    assert e == [e[0]] + ([e[1]] + more) && more == [e[2]] + tail && tail == [e[3]] + last && last == [e[4]] + [];
    hide Extend, Assemble, InOrder;
    AssembleCons(BLANK, e[0], [e[1]] + more);
    AssembleCons(BLANK, e[1], more);
    AssembleCons(named, e[2], tail);
    AssembleCons(open, e[3], last);
    AssembleCons(closed, e[4], []);
    NothingAssembled(Draft(STRAY_TEXT, 1, false));
  }

  lemma AssembleCons(d: Draft, e: Event, rest: seq<Event>)
    ensures Assemble(d, [e] + rest) == Assemble(Extend(d, e), rest)
    ensures InOrder(d, [e] + rest) <==>
      (d.text != "" || e.tag in {ArgOpen, ArgName, ToolArgs}) && InOrder(Extend(d, e), rest)
  {
    assert ([e] + rest)[1..] == rest;
  }

  lemma NothingAssembled(d: Draft)
    ensures Assemble(d, []) == d && InOrder(d, [])
  {
  }

  lemma TrimmedOne()
    ensures Trim("x") == "x"
  {
  }

  lemma ScanCons(st: Scan, c: char, rest: string)
    ensures ScanFrom(st, [c] + rest) == ScanFrom(ScanStep(st, c), rest)
  {
    assert ([c] + rest)[1..] == rest;
  }

  lemma StrayScan()
    ensures ScanFrom(START, STRAY_TEXT).depth == 1
  {
    hide ScanFrom;
    assert STRAY_TEXT == ['{'] + (['"', 'x', '"'] + ([':'] + (['"', 'a', '"'] + ['"'])));
    DumpBalanced("x");
    DumpBalanced("a");
    OneEscaped('x');
    OneEscaped('a');
    ScanCons(START, '{', ['"', 'x', '"'] + ([':'] + (['"', 'a', '"'] + ['"'])));
    BalancedFirst(['"', 'x', '"'], [':'] + (['"', 'a', '"'] + ['"']));
    ScanCons(Scan(1, false, false), ':', ['"', 'a', '"'] + ['"']);
    BalancedFirst(['"', 'a', '"'], ['"']);
    assert ['"'] == ['"'] + [];
    ScanCons(Scan(1, false, false), '"', []);
    NothingScanned(Scan(1, true, false));
  }

  lemma BalancedFirst(s: string, rest: string)
    requires Balanced(s)
    ensures ScanFrom(Scan(1, false, false), s + rest) == ScanFrom(Scan(1, false, false), rest)
  {
    BalancedAnywhere(1, s);
    ScanConcat(Scan(1, false, false), s, rest);
  }

  lemma NothingScanned(st: Scan)
    ensures ScanFrom(st, "") == st
  {
  }

  lemma TwoChunks(x: string, y: string)
    ensures Concat([x, y]) == x + y
    ensures ChunkEvents([x, y]) == [Event(ArgStringValue, x), Event(ArgStringValue, y)]
  {
    assert [x, y][1..] == [y] && [y][1..] == [];
    assert Concat([y]) == y && ChunkEvents([y]) == [Event(ArgStringValue, y)];
  }

  lemma StrayArg()
    ensures ArgEvents(StringArg("x", ["a", ""])) == STRAY_EVENTS
  {
    hide ChunkEvents;
    TwoChunks("a", "");
  }

  lemma StrayMember()
    ensures Member(StringArg("x", ["a", ""])) == "\"x\":\"a\""
  {
    hide Concat, Dump, Trim, ChunkEvents;
    TwoChunks("a", "");
    OneEscaped('x');
    OneEscaped('a');
    TrimmedOne();
    assert "a" + "" == "a";
  }

  lemma OneArg(a: Arg)
    ensures AllEvents([a]) == ArgEvents(a) && Members([a], true) == Member(a)
  {
    hide ArgEvents, Member;
    assert [a][1..] == [];
    assert ArgEvents(a) + [] == ArgEvents(a);
    assert "" + (Member(a) + "") == Member(a);
  }

  /** What is meant is the object with the text "a". */
  lemma StrayMeant()
    ensures AllEvents([StringArg("x", ["a", ""])]) == STRAY_EVENTS
    ensures ObjectText([StringArg("x", ["a", ""])]) == "{\"x\":\"a\"}"
  {
    hide ArgEvents, AllEvents, Member, Members;
    var a := StringArg("x", ["a", ""]);
    OneArg(a);
    StrayArg();
    StrayMember();
    assert ObjectText([a]) == "{" + "\"x\":\"a\"" + "}";
  }

  /** From every state, the call ends with a quote too many. */
  lemma StrayQuote(s: State, open: Node, close: Node)
    requires Sound(s) && open.tag == ToolOpen && close.tag == ToolClose
    ensures Events(STRAY_BODY) == AllEvents([StringArg("x", ["a", ""])])
    ensures ObjectText([StringArg("x", ["a", ""])]) == "{\"x\":\"a\"}"
    ensures Run(s, [open] + STRAY_BODY + [close]).toolCalls == s.toolCalls + [ToolCall("f", "{\"x\":\"a\"\"}", "")]
  {
    hide Events, AllEvents, ObjectText, Run, Assemble, InOrder, Inside, NameAfter, IdAfter, ScanFrom;
    StrayEvents();
    StrayNamed();
    StrayMeant();
    StrayDraft();
    StrayScan();
    CallRun(s, open, STRAY_BODY, close);
    assert Shown(STRAY_TEXT) == STRAY_TEXT && STRAY_TEXT + "" == STRAY_TEXT && STRAY_TEXT + "}" == "{\"x\":\"a\"\"}";
    assert Braces(0) == "" && Braces(1) == "}";
  }
}
