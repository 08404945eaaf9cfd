/** What a complete tool call comes to: the JSON object of its arguments, wherever its name appears. */
module CallText {
  import opened Wrappers
  import opened Messages
  import opened JsonText
  import opened Quotes
  import opened PythonValues
  import opened ToolCalls

  /** An argument as it is written: a string in chunks, or a value in Python's spelling. */
  datatype Arg = StringArg(name: string, chunks: seq<string>) | ValueArg(name: string, value: Value)

  /** An event that concerns arguments. */
  datatype Event = Event(tag: Tag, text: string)

  predicate IsArgTag(t: Tag) {
    t == ArgOpen || t == ArgName || t == ArgValue || t == ArgStringValue || t == ArgClose
  }

  /** A node around all arguments only matters if its text is a JSON object. */
  predicate IsEvent(n: Node) {
    IsArgTag(n.tag) || (n.tag == ToolArgs && StartsObject(n.text))
  }

  /** The texts of the brackets around an argument do not matter. */
  function EventOf(n: Node): Event {
    Event(n.tag, if n.tag == ArgOpen || n.tag == ArgClose then "" else n.text)
  }

  /** The events among the nodes. */
  function Events(nodes: seq<Node>): seq<Event> {
    if nodes == [] then [] else (if IsEvent(nodes[0]) then [EventOf(nodes[0])] else []) + Events(nodes[1..])
  }

  function ChunkEvents(chunks: seq<string>): seq<Event> {
    if chunks == [] then [] else [Event(ArgStringValue, chunks[0])] + ChunkEvents(chunks[1..])
  }

  function ArgEvents(a: Arg): seq<Event> {
    var values := match a
      case StringArg(_, chunks) => ChunkEvents(chunks)
      case ValueArg(_, value) => [Event(ArgValue, Render(Python, value))];
    [Event(ArgOpen, ""), Event(ArgName, a.name)] + (values + [Event(ArgClose, "")])
  }

  function AllEvents(args: seq<Arg>): seq<Event> {
    if args == [] then [] else ArgEvents(args[0]) + AllEvents(args[1..])
  }

  // ---------------------------------------------------------------- the JSON text that is meant

  function Concat(chunks: seq<string>): string {
    if chunks == [] then "" else chunks[0] + Concat(chunks[1..])
  }

  function Member(a: Arg): string {
    Dump(Trim(a.name)) + (":" + (match a
      case StringArg(_, chunks) => Dump(Concat(chunks))
      case ValueArg(_, value) => Render(Json, value)))
  }

  function Members(args: seq<Arg>, first: bool): string {
    if args == [] then "" else (if first then "" else ",") + (Member(args[0]) + Members(args[1..], false))
  }

  /** The object of all arguments, in order. */
  function ObjectText(args: seq<Arg>): string {
    "{" + Members(args, true) + "}"
  }

  /** A string has at least one chunk and no empty chunk after its first; values can be rendered. */
  predicate ArgOk(a: Arg) {
    match a
    case StringArg(_, chunks) => chunks != [] && forall i | 0 < i < |chunks| :: chunks[i] != ""
    case ValueArg(_, value) => Valid(value)
  }

  // ---------------------------------------------------------------- assembling

  /** The arguments so far, apart from where they are kept. */
  datatype Draft = Draft(text: string, count: nat, open: bool)

  const BLANK := Draft("", 0, false)

  function Extend(d: Draft, e: Event): Draft {
    if e.tag == ArgOpen then d.(open := false)
    else if e.tag == ToolArgs then d.(text := TrimTrailing(e.text))
    else if e.tag == ArgName then
      Draft((if d.text == "" then "{" else d.text) + ((if d.count > 0 then "," else "") + (Dump(Trim(e.text)) + ":")), d.count + 1, d.open)
    else if e.tag == ArgClose then (if d.open then d.(text := d.text + "\"", open := false) else d)
    else d.(text := d.text + ValueText(e.tag == ArgStringValue, e.text, d.open), open := d.open || e.tag == ArgStringValue)
  }

  function Assemble(d: Draft, events: seq<Event>): Draft
    decreases events
  {
    if events == [] then d else Assemble(Extend(d, events[0]), events[1..])
  }

  /** No value and no closing before the first name or the ready object. */
  predicate InOrder(d: Draft, events: seq<Event>)
    decreases events
  {
    events == [] || ((d.text != "" || events[0].tag in {ArgOpen, ArgName, ToolArgs})
                     && InOrder(Extend(d, events[0]), events[1..]))
  }

  lemma {:induction false} AssembleConcat(d: Draft, a: seq<Event>, b: seq<Event>)
    ensures Assemble(d, a + b) == Assemble(Assemble(d, a), b)
    ensures InOrder(d, a + b) == (InOrder(d, a) && InOrder(Assemble(d, a), b))
    decreases a
  {
    if a == [] {
      assert a + b == b;
    } else {
      assert (a + b)[1..] == a[1..] + b;
      AssembleConcat(Extend(d, a[0]), a[1..], b);
    }
  }

  /** The text as the named call shows it: an object that is open from the start. */
  function Shown(text: string): string {
    if text == "" then "{" else text
  }

  // ---------------------------------------------------------------- the mapper assembles the draft

  /** The mapper inside a call, before or after its name is known. */
  predicate Holds(s: State, base: seq<ToolCall>, d: Draft, name: string, id: string) {
    && s.argCount == d.count && s.closingQuotePending == d.open
    && if name == "" then
         s.current == InPending && s.pending == Some(ToolCall("", "", id)) && s.toolCalls == base && s.argsBuffer == d.text
       else
         s.current == InResult && s.pending == None && s.toolCalls == base + [ToolCall(name, Shown(d.text), id)] && s.argsBuffer == ""
  }

  /** The last name, and the last id, among the nodes. */
  function NameAfter(name: string, nodes: seq<Node>): string
    decreases nodes
  {
    if nodes == [] then name
    else NameAfter(if nodes[0].tag == ToolName then TrimTrailing(nodes[0].text) else name, nodes[1..])
  }

  function IdAfter(id: string, nodes: seq<Node>): string
    decreases nodes
  {
    if nodes == [] then id
    else IdAfter(if nodes[0].tag == ToolId then IdText(nodes[0].text) else id, nodes[1..])
  }

  /** Between the opening and the closing of one call; no name is blank. */
  predicate Inside(nodes: seq<Node>) {
    forall i | 0 <= i < |nodes| ::
      && nodes[i].tag != ToolOpen && nodes[i].tag != ToolClose
      && (nodes[i].tag == ToolName ==> TrimTrailing(nodes[i].text) != "")
  }

  lemma HoldsTarget(s: State, base: seq<ToolCall>, d: Draft, name: string, id: string)
    requires Sound(s) && Holds(s, base, d, name, id)
    ensures s.current != Nobody && Current(s) == ToolCall(name, if name == "" then "" else Shown(d.text), id)
    ensures Target(s) == if name == "" then d.text else Shown(d.text)
    ensures forall text :: WithTarget(s, text) == if name == "" then s.(argsBuffer := text) else s.(toolCalls := base + [ToolCall(name, text, id)])
  {
    if name != "" {
      assert s.toolCalls[..|s.toolCalls| - 1] == base;
    }
  }

  lemma ArgumentStep(s: State, base: seq<ToolCall>, d: Draft, name: string, id: string, n: Node)
    requires Sound(s) && Holds(s, base, d, name, id)
    requires IsArgTag(n.tag) && (d.text != "" || n.tag == ArgOpen || n.tag == ArgName)
    ensures Holds(Step(s, n), base, Extend(d, EventOf(n)), name, id)
  {
    hide Named, Closed, Opened, Dump, Trim, ValueText, IdText, TrimTrailing, WithTarget, WithCurrent, Target, Current;
    HoldsTarget(s, base, d, name, id);
    var more := (if d.count > 0 then "," else "") + (Dump(Trim(n.text)) + ":");
    assert (if d.text == "" then "{" else d.text) + more != "";
  }

  /** Arguments that come as one object replace whatever was assembled. */
  lemma ReadyStep(s: State, base: seq<ToolCall>, d: Draft, name: string, id: string, n: Node)
    requires Sound(s) && Holds(s, base, d, name, id) && n.tag == ToolArgs
    ensures Holds(Step(s, n), base, if StartsObject(n.text) then Extend(d, EventOf(n)) else d, name, id)
  {
    hide TrimTrailing, WithTarget, WithCurrent, Target, Current;
    ObjectTrimmed(n.text);
    HoldsTarget(s, base, d, name, id);
  }

  lemma NamedStep(s: State, base: seq<ToolCall>, d: Draft, name: string, id: string, newName: string)
    requires Sound(s) && Holds(s, base, d, name, id) && newName != ""
    ensures Holds(Named(s, newName), base, d, newName, id)
  {
    HoldsTarget(s, base, d, name, id);
    if name != "" {
      assert s.toolCalls[..|s.toolCalls| - 1] == base;
    }
  }

  lemma IdStep(s: State, base: seq<ToolCall>, d: Draft, name: string, id: string, newId: string)
    requires Sound(s) && Holds(s, base, d, name, id)
    ensures Holds(WithCurrent(s, Current(s).(id := newId)), base, d, name, newId)
  {
    HoldsTarget(s, base, d, name, id);
    if name != "" {
      assert s.toolCalls[..|s.toolCalls| - 1] == base;
    }
  }

  lemma OtherStep(s: State, base: seq<ToolCall>, d: Draft, name: string, id: string, n: Node)
    requires Sound(s) && Holds(s, base, d, name, id) && Inside([n]) && !IsEvent(n)
    ensures Holds(Step(s, n), base, d, NameAfter(name, [n]), IdAfter(id, [n]))
  {
    assert [n][0] == n && [n][1..] == [];
    assert NameAfter(name, [n]) == if n.tag == ToolName then TrimTrailing(n.text) else name;
    assert IdAfter(id, [n]) == if n.tag == ToolId then IdText(n.text) else id;
    hide Closed, Opened, Named, Dump, Trim, ValueText, IdText, TrimTrailing, ArgumentNamed, Valued, WithCurrent, NameAfter, IdAfter;
    if n.tag == ToolArgs {
      ReadyStep(s, base, d, name, id, n);
    } else if n.tag == ToolName {
      NamedStep(s, base, d, name, id, TrimTrailing(n.text));
    } else if n.tag == ToolId {
      IdStep(s, base, d, name, id, IdText(n.text));
    }
  }

  /** The draft after one node. */
  function ExtendBy(d: Draft, n: Node): Draft {
    if IsEvent(n) then Extend(d, EventOf(n)) else d
  }

  lemma InsideStep(s: State, base: seq<ToolCall>, d: Draft, name: string, id: string, n: Node)
    requires Sound(s) && Holds(s, base, d, name, id) && Inside([n])
    requires IsArgTag(n.tag) ==> d.text != "" || n.tag == ArgOpen || n.tag == ArgName
    ensures Holds(Step(s, n), base, ExtendBy(d, n), NameAfter(name, [n]), IdAfter(id, [n]))
  {
    hide Holds, Extend, Step, StartsObject, Inside, NameAfter, IdAfter;
    if IsEvent(n) {
      NeitherNameNorId(name, id, n);
      if n.tag == ToolArgs {
        ReadyStep(s, base, d, name, id, n);
      } else {
        ArgumentStep(s, base, d, name, id, n);
      }
    } else {
      OtherStep(s, base, d, name, id, n);
    }
  }

  lemma NeitherNameNorId(name: string, id: string, n: Node)
    requires n.tag != ToolName && n.tag != ToolId
    ensures NameAfter(name, [n]) == name && IdAfter(id, [n]) == id
  {
    assert [n][1..] == [];
  }

  /** One node, and then the others. */
  lemma InsideFirst(name: string, id: string, nodes: seq<Node>)
    requires nodes != []
    ensures NameAfter(name, nodes) == NameAfter(NameAfter(name, [nodes[0]]), nodes[1..])
    ensures IdAfter(id, nodes) == IdAfter(IdAfter(id, [nodes[0]]), nodes[1..])
    ensures Inside(nodes) ==> Inside([nodes[0]]) && Inside(nodes[1..])
  {
    hide TrimTrailing, IdText;
    assert [nodes[0]][1..] == [];
  }

  lemma EventsFirst(d: Draft, nodes: seq<Node>)
    requires nodes != []
    ensures Assemble(d, Events(nodes)) == Assemble(ExtendBy(d, nodes[0]), Events(nodes[1..]))
    ensures InOrder(d, Events(nodes)) ==>
      && InOrder(ExtendBy(d, nodes[0]), Events(nodes[1..]))
      && (IsArgTag(nodes[0].tag) ==> d.text != "" || nodes[0].tag == ArgOpen || nodes[0].tag == ArgName)
  {
    hide Extend, StartsObject;
    var n, rest := nodes[0], Events(nodes[1..]);
    if IsEvent(n) {
      assert Events(nodes)[0] == EventOf(n) && Events(nodes)[1..] == rest;
    } else {
      assert Events(nodes) == rest;
    }
  }

  lemma {:induction false} InsideRun(s: State, base: seq<ToolCall>, d: Draft, name: string, id: string, nodes: seq<Node>)
    requires Sound(s) && Holds(s, base, d, name, id) && Inside(nodes)
    requires InOrder(d, Events(nodes))
    ensures Holds(Run(s, nodes), base, Assemble(d, Events(nodes)), NameAfter(name, nodes), IdAfter(id, nodes))
    decreases nodes
  {
    hide Holds, Extend, ExtendBy, Step, IsArgTag, Inside;
    if nodes != [] {
      hide Assemble, InOrder, Events, NameAfter, IdAfter;
      var n := nodes[0];
      InsideFirst(name, id, nodes);
      EventsFirst(d, nodes);
      InsideStep(s, base, d, name, id, n);
      InsideRun(Step(s, n), base, ExtendBy(d, n), NameAfter(name, [n]), IdAfter(id, [n]), nodes[1..]);
    }
  }

  // ---------------------------------------------------------------- the draft is the object

  lemma LaterChunk(d: Draft, chunk: string)
    requires d.open && chunk != ""
    ensures Extend(d, Event(ArgStringValue, chunk)) == d.(text := d.text + EscapeInner(chunk))
  {
    hide EscapeInner, TrimTrailing, Dump, Trim;
    assert "" + EscapeInner(chunk) == EscapeInner(chunk);
  }

  lemma EventFirst(d: Draft, e: Event, rest: seq<Event>)
    ensures Assemble(d, [e] + rest) == Assemble(Extend(d, e), rest)
    ensures d.text != "" ==> (InOrder(d, [e] + rest) <==> InOrder(Extend(d, e), rest))
  {
    hide Extend;
    assert ([e] + rest)[1..] == rest;
  }

  lemma {:induction false} ChunksAssemble(d: Draft, chunks: seq<string>)
    requires d.open && d.text != "" && forall i | 0 <= i < |chunks| :: chunks[i] != ""
    ensures Assemble(d, ChunkEvents(chunks)) == d.(text := d.text + EscapeInner(Concat(chunks)))
    ensures InOrder(d, ChunkEvents(chunks))
    decreases chunks
  {
    hide EscapeInner, Extend;
    if chunks == [] {
      NothingEscaped(d.text);
    } else {
      hide Assemble, InOrder;
      var c, rest := chunks[0], chunks[1..];
      LaterChunk(d, c);
      EventFirst(d, Event(ArgStringValue, c), ChunkEvents(rest));
      var d' := d.(text := d.text + EscapeInner(c));
      ChunksAssemble(d', rest);
      EscapeInnerConcat(c, Concat(rest));
      assert d'.text + EscapeInner(Concat(rest)) == d.text + (EscapeInner(c) + EscapeInner(Concat(rest)));
    }
  }

  lemma NothingEscaped(t: string)
    ensures EscapeInner("") == "" && t + EscapeInner("") == t
  {
  }

  lemma FirstChunk(d: Draft, chunk: string)
    requires !d.open
    ensures Extend(d, Event(ArgStringValue, chunk)) == Draft(d.text + ("\"" + EscapeInner(chunk)), d.count, true)
  {
    if chunk == "" {
      assert "\"" + EscapeInner("") == "\"";
    }
  }

  lemma Quoted(t: string, a: string, b: string)
    ensures ((t + ("\"" + a)) + b) + "\"" == t + ("\"" + (a + b) + "\"")
  {
  }

  lemma StringAssembles(d: Draft, chunks: seq<string>)
    requires !d.open && d.text != "" && chunks != [] && forall i | 0 < i < |chunks| :: chunks[i] != ""
    ensures Assemble(d, ChunkEvents(chunks) + [Event(ArgClose, "")]) == d.(text := d.text + Dump(Concat(chunks)))
    ensures InOrder(d, ChunkEvents(chunks) + [Event(ArgClose, "")])
  {
    hide EscapeInner, ValueText;
    var close := [Event(ArgClose, "")];
    assert close[1..] == [] && close[0] == Event(ArgClose, "");
    FirstChunk(d, chunks[0]);
    var d1 := Extend(d, Event(ArgStringValue, chunks[0]));
    ChunksAssemble(d1, chunks[1..]);
    EscapeInnerConcat(chunks[0], Concat(chunks[1..]));
    AssembleConcat(d, ChunkEvents(chunks), close);
    var d2 := Assemble(d1, ChunkEvents(chunks[1..]));
    assert Assemble(d2, close) == Extend(d2, close[0]);
    Quoted(d.text, EscapeInner(chunks[0]), EscapeInner(Concat(chunks[1..])));
  }

  lemma ValueAssembles(d: Draft, v: Value)
    requires !d.open && d.text != "" && Valid(v)
    ensures Assemble(d, [Event(ArgValue, Render(Python, v))] + [Event(ArgClose, "")]) == d.(text := d.text + Render(Json, v))
    ensures InOrder(d, [Event(ArgValue, Render(Python, v))] + [Event(ArgClose, "")])
  {
    PythonBecomesJson(v);
    var es := [Event(ArgValue, Render(Python, v))] + [Event(ArgClose, "")];
    assert es[1..][1..] == [] && es[1..][0] == Event(ArgClose, "");
    var d1 := Extend(d, es[0]);
    assert d1 == d.(text := d.text + Render(Json, v));
    assert Assemble(d, es) == Assemble(Extend(d1, es[1..][0]), []);
  }

  function ValueEvents(a: Arg): seq<Event> {
    ArgEvents(a)[2..]
  }

  lemma HeaderAssembles(d: Draft, a: Arg)
    requires !d.open
    ensures var d1 := Draft(Shown(d.text) + ((if d.count > 0 then "," else "") + (Dump(Trim(a.name)) + ":")), d.count + 1, false);
            && d1.text != ""
            && Assemble(d, ArgEvents(a)) == Assemble(d1, ValueEvents(a))
            && InOrder(d, ArgEvents(a)) == InOrder(d1, ValueEvents(a))
  {
    hide ValueText;
    var open, name, tail := Event(ArgOpen, ""), Event(ArgName, a.name), ValueEvents(a);
    assert ArgEvents(a)[0] == open && ArgEvents(a)[1..][0] == name && ArgEvents(a)[1..][1..] == tail;
    assert Extend(d, open) == d;
  }

  lemma ValueAssemblesEither(d: Draft, a: Arg)
    requires !d.open && d.text != "" && ArgOk(a)
    ensures var v := match a case StringArg(_, chunks) => Dump(Concat(chunks)) case ValueArg(_, value) => Render(Json, value);
            Assemble(d, ValueEvents(a)) == d.(text := d.text + v) && InOrder(d, ValueEvents(a))
  {
    hide Assemble, InOrder, Dump;
    match a
    case StringArg(_, chunks) =>
      assert ValueEvents(a) == ChunkEvents(chunks) + [Event(ArgClose, "")];
      StringAssembles(d, chunks);
    case ValueArg(_, value) =>
      assert ValueEvents(a) == [Event(ArgValue, Render(Python, value))] + [Event(ArgClose, "")];
      ValueAssembles(d, value);
  }

  lemma ArgAssembles(d: Draft, a: Arg)
    requires !d.open && ArgOk(a)
    ensures Assemble(d, ArgEvents(a)) == Draft(Shown(d.text) + ((if d.count > 0 then "," else "") + Member(a)), d.count + 1, false)
    ensures InOrder(d, ArgEvents(a))
  {
    hide Assemble, InOrder, ArgEvents, ValueEvents, Dump, Render, ArgOk;
    HeaderAssembles(d, a);
    var sep, key := if d.count > 0 then "," else "", Dump(Trim(a.name));
    var v := match a case StringArg(_, chunks) => Dump(Concat(chunks)) case ValueArg(_, value) => Render(Json, value);
    ValueAssemblesEither(Draft(Shown(d.text) + (sep + (key + ":")), d.count + 1, false), a);
    Appended(Shown(d.text), sep, key, v);
  }

  lemma Appended(t: string, sep: string, key: string, v: string)
    ensures (t + (sep + (key + ":"))) + v == t + (sep + (key + (":" + v)))
  {
    assert sep + (key + (":" + v)) == sep + (key + ":") + v;
  }

  lemma {:induction false} ArgsAssemble(d: Draft, args: seq<Arg>)
    requires !d.open && (d.text == "" <==> d.count == 0) && forall i | 0 <= i < |args| :: ArgOk(args[i])
    ensures var d' := Assemble(d, AllEvents(args));
            !d'.open && Shown(d'.text) == Shown(d.text) + Members(args, d.count == 0)
    ensures InOrder(d, AllEvents(args))
    decreases args
  {
    hide ArgEvents, Member, ArgOk, Extend;
    if args == [] {
      assert Shown(d.text) + "" == Shown(d.text);
    } else {
      ArgAssembles(d, args[0]);
      AssembleConcat(d, ArgEvents(args[0]), AllEvents(args[1..]));
      var sep, m, ms := if d.count > 0 then "," else "", Member(args[0]), Members(args[1..], false);
      ArgsAssemble(Draft(Shown(d.text) + (sep + m), d.count + 1, false), args[1..]);
      Listed(Shown(d.text), sep, m, ms);
    }
  }

  lemma Listed(t: string, sep: string, m: string, ms: string)
    ensures (t + (sep + m)) + ms == t + (sep + (m + ms))
  {
  }

  // ---------------------------------------------------------------- closing

  lemma MemberBalanced(a: Arg)
    requires ArgOk(a)
    ensures Balanced(Member(a))
  {
    DumpBalanced(Trim(a.name));
    match a
    case StringArg(_, chunks) =>
      DumpBalanced(Concat(chunks));
      JoinedBalanced(Dump(Trim(a.name)), ":", Dump(Concat(chunks)));
    case ValueArg(_, value) =>
      RenderedBalanced(value);
      JoinedBalanced(Dump(Trim(a.name)), ":", Render(Json, value));
  }

  lemma {:induction false} MembersBalanced(args: seq<Arg>, first: bool)
    requires forall i | 0 <= i < |args| :: ArgOk(args[i])
    ensures Balanced(Members(args, first))
    decreases args
  {
    hide Balanced, Member, ArgOk;
    if args == [] {
      EmptyBalanced();
    } else {
      MemberBalanced(args[0]);
      MembersBalanced(args[1..], false);
      var m, ms := Member(args[0]), Members(args[1..], false);
      BalancedConcat(m, ms);
      if !first {
        EmptyBalanced();
        JoinedBalanced("", ",", m + ms);
        assert "" + ("," + (m + ms)) == Members(args, first);
      } else {
        assert "" + (m + ms) == m + ms;
      }
    }
  }

  /** What closing makes of a draft: an open string and open braces are closed. */
  function Closing(d: Draft): string {
    var text := Shown(d.text) + if d.open then "\"" else "";
    text + Braces(ScanFrom(START, text).depth)
  }

  lemma CloseStep(s: State, base: seq<ToolCall>, d: Draft, name: string, id: string, n: Node)
    requires Sound(s) && Holds(s, base, d, name, id) && n.tag == ToolClose
    ensures Step(s, n).toolCalls == base + if name == "" then [] else [ToolCall(name, Closing(d), id)]
  {
    hide Step, Holds, Closing;
    if name == "" {
      CloseUnnamed(s, base, d, id, n);
      assert base + [] == base;
    } else {
      CloseNamed(s, base, d, name, id, n);
    }
  }

  lemma CloseUnnamed(s: State, base: seq<ToolCall>, d: Draft, id: string, n: Node)
    requires Sound(s) && Holds(s, base, d, "", id) && n.tag == ToolClose
    ensures Step(s, n).toolCalls == base
  {
    hide Braces, ScanFrom;
  }

  lemma CloseNamed(s: State, base: seq<ToolCall>, d: Draft, name: string, id: string, n: Node)
    requires Sound(s) && Holds(s, base, d, name, id) && name != "" && n.tag == ToolClose
    ensures Step(s, n).toolCalls == base + [ToolCall(name, Closing(d), id)]
  {
    hide Braces, ScanFrom, Target, WithTarget;
    HoldsTarget(s, base, d, name, id);
    assert s.toolCalls[..|s.toolCalls| - 1] == base;
  }

  /**
   Any call whose events come in order, read from any state: if it was ever named, it ends as its draft with what is
   still open closed; if not, nothing is left of it.
   */
  lemma CallRun(s: State, open: Node, body: seq<Node>, close: Node)
    requires Sound(s) && open.tag == ToolOpen && close.tag == ToolClose
    requires Inside(body) && InOrder(BLANK, Events(body))
    ensures Run(s, [open] + body + [close]).toolCalls == s.toolCalls +
      if NameAfter("", body) == "" then []
      else [ToolCall(NameAfter("", body), Closing(Assemble(BLANK, Events(body))), IdAfter("", body))]
  {
    hide Step, Holds, Events, Assemble, InOrder, Inside, NameAfter, IdAfter, Closing;
    var nodes := [open] + body + [close];
    assert nodes[1..] == body + [close] && nodes[0] == open;
    var s1 := Step(s, open);
    OpenStep(s, open);
    RunConcat(s1, body, [close]);
    InsideRun(s1, s.toolCalls, BLANK, "", "", body);
    CloseStep(Run(s1, body), s.toolCalls, Assemble(BLANK, Events(body)), NameAfter("", body), IdAfter("", body), close);
    assert [close][1..] == [] && [close][0] == close;
    assert Run(Run(s1, body), [close]) == Step(Run(s1, body), close);
  }

  /**
   A complete call, read from any state: its tool call holds exactly the JSON object of its
   arguments. The name may come anywhere between the opening and the closing, even between two
   chunks of a string, and other nodes may stand in between, such as one around all arguments.
   */
  lemma CompleteCall(s: State, open: Node, body: seq<Node>, close: Node, args: seq<Arg>)
    requires Sound(s) && open.tag == ToolOpen && close.tag == ToolClose
    requires Inside(body) && NameAfter("", body) != ""
    requires Events(body) == AllEvents(args) && forall i | 0 <= i < |args| :: ArgOk(args[i])
    ensures Run(s, [open] + body + [close]).toolCalls
         == s.toolCalls + [ToolCall(NameAfter("", body), ObjectText(args), IdAfter("", body))]
    ensures Balanced(ObjectText(args))
  {
    hide Run, Events, AllEvents, ArgOk, Assemble, InOrder, Inside, NameAfter, IdAfter, Members, ScanFrom, Balanced;
    ArgsAssemble(BLANK, args);
    MembersBalanced(args, true);
    Braced(Members(args, true));
    CallRun(s, open, body, close);
    assert ("{" + Members(args, true)) + "" == "{" + Members(args, true);
    assert Braces(0) == "" && Braces(1) == "}";
  }

  /** A complete call whose arguments come as one object: that object, with the braces that it lacks. */
  lemma ReadyCall(s: State, open: Node, body: seq<Node>, close: Node, json: string)
    requires Sound(s) && open.tag == ToolOpen && close.tag == ToolClose
    requires Inside(body) && NameAfter("", body) != ""
    requires Events(body) == [Event(ToolArgs, json)] && StartsObject(json)
    ensures var text := TrimTrailing(json);
      && Run(s, [open] + body + [close]).toolCalls == s.toolCalls +
        [ToolCall(NameAfter("", body), text + Braces(ScanFrom(START, text).depth), IdAfter("", body))]
      && (Balanced(text) ==> text + Braces(ScanFrom(START, text).depth) == text)
  {
    hide Run, Events, Inside, NameAfter, IdAfter, TrimTrailing, ScanFrom;
    ObjectTrimmed(json);
    ReadyAssembles(json);
    CallRun(s, open, body, close);
    var text := TrimTrailing(json);
    assert text + "" == text;
  }

  lemma ReadyAssembles(json: string)
    ensures var e := [Event(ToolArgs, json)];
      Assemble(BLANK, e) == Draft(TrimTrailing(json), 0, false) && InOrder(BLANK, e)
  {
    hide TrimTrailing;
    var e := [Event(ToolArgs, json)];
    assert e[1..] == [] && Assemble(Extend(BLANK, e[0]), []) == Extend(BLANK, e[0]);
  }

  lemma OpenStep(s: State, open: Node)
    requires Sound(s) && open.tag == ToolOpen
    ensures Holds(Step(s, open), s.toolCalls, BLANK, "", "")
  {
  }
}
