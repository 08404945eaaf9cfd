/** What the mapper shows of a call while the reply streams in, and when it takes something back. */
module ToolGrowth {
  import opened Wrappers
  import opened Messages
  import opened JsonText
  import opened Quotes
  import opened QuoteScan
  import opened QuoteStreaming
  import opened ToolCalls
  import opened MessageDiffs

  /** What has been shown in one state is kept or extended in another. */
  predicate StateGrows(s: State, t: State) {
    s.reasoning <= t.reasoning && s.content <= t.content && CallsGrow(s.toolCalls, t.toolCalls)
  }

  /** A call that is shown has a name, and nothing waits in the buffer for it. */
  predicate Steady(s: State) {
    Sound(s) && (s.current == InResult ==> Current(s).name != "" && s.argsBuffer == "")
  }

  /**
   What a well-formed reply does not do: give a blank name, rename a call otherwise than by a longer name, take its
   id back, or replace arguments that are shown by a JSON object that does not extend them.
   */
  predicate Keeps(s: State, n: Node)
    requires Sound(s)
  {
    && (n.tag == ToolName && s.current != Nobody ==> TrimTrailing(n.text) != "")
    && (s.current == InResult ==>
      && (n.tag == ToolName ==> Current(s).name <= TrimTrailing(n.text))
      && (n.tag == ToolId && Current(s).id != "" ==> IdText(n.text) != "")
      && (n.tag == ToolArgs && StartsObject(n.text) ==> Current(s).arguments <= TrimTrailing(n.text)))
  }

  predicate KeepsAll(s: State, nodes: seq<Node>)
    requires Sound(s)
    decreases nodes
  {
    nodes == [] || (Keeps(s, nodes[0]) && KeepsAll(Step(s, nodes[0]), nodes[1..]))
  }

  // ---------------------------------------------------------------- one node

  /** The call that is shown last, after one node has been added to it. */
  function LastAfter(s: State, n: Node): ToolCall
    requires Sound(s) && s.current == InResult
  {
    var c := Current(s);
    match n.tag
    case ToolId => c.(id := IdText(n.text))
    case ToolName => c.(name := TrimTrailing(n.text), arguments := if c.arguments == "" then "{" else c.arguments)
    case ToolArgs => if StartsObject(n.text) then c.(arguments := TrimTrailing(n.text)) else c
    case ArgName =>
      c.(arguments := (if c.arguments == "" then "{" else c.arguments)
        + ((if s.argCount > 0 then "," else "") + (Dump(Trim(n.text)) + ":")))
    case ArgValue => c.(arguments := c.arguments + ValueText(false, n.text, s.closingQuotePending))
    case ArgStringValue => c.(arguments := c.arguments + ValueText(true, n.text, s.closingQuotePending))
    case ArgClose => c.(arguments := c.arguments + if s.closingQuotePending then "\"" else "")
    case ToolClose =>
      var text := c.arguments + if s.closingQuotePending then "\"" else "";
      c.(arguments := text + Braces(ScanFrom(START, text).depth))
    case _ => c
  }

  lemma ReplacesLast(calls: seq<ToolCall>, c: ToolCall)
    requires calls != []
    ensures CallsGrow(calls, calls[..|calls| - 1] + [c]) <==> CallGrows(calls[|calls| - 1], c)
  {
    var more := calls[..|calls| - 1] + [c];
    assert more[..|calls| - 1] == calls[..|calls| - 1];
  }

  /** Where the nodes go that belong to a call that is shown. */
  lemma ShownTarget(s: State)
    requires Steady(s) && s.current == InResult
    ensures s.pending.None? && s.toolCalls != [] && Current(s) == s.toolCalls[|s.toolCalls| - 1]
    ensures Target(s) == Current(s).arguments
    ensures forall text :: WithTarget(s, text) == WithCurrent(s, Current(s).(arguments := text))
    ensures forall c :: WithCurrent(s, c) == s.(toolCalls := s.toolCalls[..|s.toolCalls| - 1] + [c])
  {
  }

  lemma ShownNamed(s: State, name: string)
    requires Steady(s) && s.current == InResult
    ensures var c := Current(s);
      Named(s, name) == WithCurrent(s, c.(name := name, arguments := if c.arguments == "" then "{" else c.arguments))
  {
  }

  lemma ShownClosed(s: State)
    requires Steady(s) && s.current == InResult
    ensures var text := Current(s).arguments + if s.closingQuotePending then "\"" else "";
      Closed(s) ==
      WithCurrent(s, Current(s).(arguments := text + Braces(ScanFrom(START, text).depth))).(closingQuotePending := false)
  {
    hide Braces, ScanFrom;
  }

  /** The state after a node has changed the last call only. */
  predicate ChangesLast(s: State, t: State, c: ToolCall)
    requires s.toolCalls != []
  {
    t.toolCalls == s.toolCalls[..|s.toolCalls| - 1] + [c] && t.current == InResult && t.pending.None? && t.argsBuffer == ""
  }

  lemma StepShowsArgument(s: State, n: Node)
    requires Steady(s) && s.current == InResult && n.tag in {ArgName, ArgValue, ArgStringValue, ArgClose}
    ensures ChangesLast(s, Step(s, n), LastAfter(s, n))
  {
    hide TrimTrailing, Dump, Trim, ValueText, Target, WithTarget, WithCurrent, Current;
    ShownTarget(s);
    Rejoined(s.toolCalls, Current(s));
    assert Current(s).arguments + "" == Current(s).arguments;
  }

  /** A node that goes to a call that is shown changes that call only. */
  lemma StepShowsLast(s: State, n: Node)
    requires Steady(s) && s.current == InResult && n.tag != ToolOpen
    ensures ChangesLast(s, Step(s, n), LastAfter(s, n))
  {
    hide TrimTrailing, IdText, Braces, ScanFrom, Target, WithTarget, WithCurrent, Current, Named, Closed, Opened;
    hide ArgumentNamed, Valued, Dump, Trim, ValueText;
    ShownTarget(s);
    if n.tag in {ArgName, ArgValue, ArgStringValue, ArgClose} {
      StepShowsArgument(s, n);
    } else {
      ObjectTrimmed(n.text);
      ShownNamed(s, TrimTrailing(n.text));
      ShownClosed(s);
      Rejoined(s.toolCalls, Current(s));
    }
  }

  lemma Rejoined(calls: seq<ToolCall>, c: ToolCall)
    requires calls != [] && calls[|calls| - 1] == c
    ensures calls[..|calls| - 1] + [c] == calls
  {
  }

  /** A node that goes elsewhere changes no call that is shown; a name may add one. */
  lemma StepShowsMore(s: State, n: Node)
    requires Steady(s) && (s.current != InResult || n.tag == ToolOpen)
    requires n.tag == ToolName && s.current != Nobody ==> TrimTrailing(n.text) != ""
    ensures Steady(Step(s, n)) && s.toolCalls <= Step(s, n).toolCalls
    ensures n.tag != ToolName ==> Step(s, n).toolCalls == s.toolCalls
  {
    hide TrimTrailing, IdText, Dump, Trim, ValueText, Braces, ScanFrom;
  }

  /** A node changes no call but the last, and only if it goes there; otherwise it may add one. */
  lemma StepShows(s: State, n: Node)
    requires Steady(s) && (n.tag == ToolName && s.current != Nobody ==> TrimTrailing(n.text) != "")
    ensures Steady(Step(s, n))
    ensures var calls := s.toolCalls;
      if s.current == InResult && n.tag != ToolOpen then
        Step(s, n).toolCalls == calls[..|calls| - 1] + [LastAfter(s, n)]
      else
        calls <= Step(s, n).toolCalls && (n.tag != ToolName ==> Step(s, n).toolCalls == calls)
  {
    hide Step, TrimTrailing, IdText, Dump, Trim, ValueText, Braces, ScanFrom;
    if s.current == InResult && n.tag != ToolOpen {
      StepShowsLast(s, n);
    } else {
      StepShowsMore(s, n);
    }
  }

  lemma LastGrows(s: State, n: Node)
    requires Steady(s) && s.current == InResult && (n.tag == ToolName ==> TrimTrailing(n.text) != "")
    ensures CallGrows(Current(s), LastAfter(s, n)) <==> Keeps(s, n)
  {
    hide TrimTrailing, IdText, Dump, Trim, ValueText, Braces, ScanFrom;
  }

  /** One node keeps what has been shown exactly when it does nothing that a well-formed reply does not do. */
  lemma StepGrows(s: State, n: Node)
    requires Steady(s) && (n.tag == ToolName && s.current != Nobody ==> TrimTrailing(n.text) != "")
    ensures Steady(Step(s, n))
    ensures StateGrows(s, Step(s, n)) <==> Keeps(s, n)
  {
    hide Step, LastAfter, TrimTrailing, IdText;
    StepShows(s, n);
    StepTexts(s, n);
    if s.current == InResult && n.tag != ToolOpen {
      LastGrows(s, n);
      ReplacesLast(s.toolCalls, LastAfter(s, n));
    }
  }

  lemma {:induction false} RunGrows(s: State, nodes: seq<Node>)
    requires Steady(s) && KeepsAll(s, nodes)
    ensures Steady(Run(s, nodes)) && StateGrows(s, Run(s, nodes))
    decreases nodes
  {
    hide Step, Keeps;
    if nodes != [] {
      NameKept(s, nodes[0]);
      StepGrows(s, nodes[0]);
      RunGrows(Step(s, nodes[0]), nodes[1..]);
      CallsGrowOn(s.toolCalls, Step(s, nodes[0]).toolCalls, Run(s, nodes).toolCalls);
    }
  }

  lemma NameKept(s: State, n: Node)
    requires Sound(s) && Keeps(s, n)
    ensures n.tag == ToolName && s.current != Nobody ==> TrimTrailing(n.text) != ""
  {
  }

  // ---------------------------------------------------------------- a node that was read further

  /** These nodes are read as a whole or not at all. */
  predicate IsAtomic(t: Tag) {
    t !in {Reasoning, Content, ToolArgs, ArgValue, ArgStringValue, OtherTag}
  }

  predicate NodeGrows(x: Node, y: Node) {
    x == y
    || (!IsAtomic(x.tag) && x.tag == y.tag && x.text <= y.text
        && (x.tag == Reasoning || x.tag == Content ==> x.sanitized <= y.sanitized)
        && (x.tag == ToolArgs ==> StartsObject(x.text)))
  }

  /**
   The two ways in which reading a node further takes back arguments that were shown: a value in Python's spelling
   was cut where the rewriter cannot foresee it, and an empty chunk of an open string has got a text.
   */
  predicate TakesBack(s: State, x: Node, y: Node)
    requires x.text <= y.text
  {
    s.current == InResult &&
    ((x.tag == ArgValue && CutBreaks(y.text, |x.text|))
     || (x.tag == ArgStringValue && s.closingQuotePending && x.text == "" && y.text != ""))
  }

  lemma TrimmedGrows(x: string, y: string)
    requires x <= y
    ensures TrimTrailing(x) <= TrimTrailing(y)
  {
    TrimmedIs(x, TrimTrailing(x));
    TrimmedIs(y, TrimTrailing(y));
    var t, u := TrimTrailing(x), TrimTrailing(y);
    assert t != "" ==> t[|t| - 1] == y[|t| - 1] && !IsSpace(y[|t| - 1]);
  }

  /** What a value appends is no shorter after more of it has been read, and it is extended unless it is taken back. */
  lemma ValueGrowsText(isString: bool, x: string, y: string, open: bool)
    requires x <= y
    ensures |ValueText(isString, x, open)| <= |ValueText(isString, y, open)|
    ensures ValueText(isString, x, open) <= ValueText(isString, y, open) <==>
      !(if isString then open && x == "" && y != "" else CutBreaks(y, |x|))
  {
    hide CutBreaks, Rewrite;
    if isString {
      StringGrowsText(x, y, open);
    } else {
      assert y[..|x|] == x;
      PrintedTextStays(y, |x|);
      PrintedTextIsNoLonger(Bare, y, |x|);
    }
  }

  lemma StringGrowsText(x: string, y: string, open: bool)
    requires x <= y
    ensures |ValueText(true, x, open)| <= |ValueText(true, y, open)|
    ensures ValueText(true, x, open) <= ValueText(true, y, open) <==> !(open && x == "" && y != "")
  {
    hide EscapeInner;
    var rest := y[|x|..];
    assert y == x + rest;
    EscapeInnerConcat(x, rest);
    if x == "" && y != "" { EscapedStart(y); }
  }

  lemma EscapedStart(y: string)
    requires y != ""
    ensures EscapeInner(y) != "" && EscapeInner(y)[0] != '"'
  {
    assert EscapeChar(y[0]) != "" && EscapeChar(y[0])[0] != '"';
  }

  /** Both readings of the last node show the same calls, up to the arguments of the last. */
  lemma CutStep(s: State, x: Node, y: Node)
    requires Steady(s) && NodeGrows(x, y) && Keeps(s, y) && s.current == InResult && x.tag != ToolOpen
    ensures var c, d := LastAfter(s, x), LastAfter(s, y);
      && c.name == d.name && c.id == d.id && |c.arguments| <= |d.arguments|
      && (c.arguments <= d.arguments <==> !TakesBack(s, x, y))
  {
    hide TrimTrailing, IdText, Dump, Trim, ValueText, Braces, ScanFrom, CutBreaks;
    var c, open := Current(s).arguments, s.closingQuotePending;
    if x == y {
      NotTakenBack(s, x);
    } else if x.tag == ArgValue || x.tag == ArgStringValue {
      var isString := x.tag == ArgStringValue;
      ValueGrowsText(isString, x.text, y.text, open);
      PrefixCancels(c, ValueText(isString, x.text, open), ValueText(isString, y.text, open));
    } else if x.tag == ToolArgs {
      TrimmedGrows(x.text, y.text);
    }
  }

  lemma NotTakenBack(s: State, x: Node)
    ensures !TakesBack(s, x, x)
  {
    assert x.text[..|x.text|] == x.text;
    CutAtEnd(OUTSIDE, x.text);
  }

  /** Arguments that were taken back stay taken back, whatever is appended to them. */
  lemma StaysTakenBack(base: seq<ToolCall>, c: ToolCall, d: ToolCall, calls: seq<ToolCall>)
    requires |c.arguments| <= |d.arguments| && !(c.arguments <= d.arguments)
    requires CallsGrow(base + [d], calls)
    ensures !CallsGrow(base + [c], calls)
  {
    var n := |base|;
    assert (base + [d])[n] == d && (base + [c])[n] == c;
    assert d.arguments <= calls[n].arguments;
    NotBoth(c.arguments, d.arguments, calls[n].arguments);
  }

  lemma NotBoth(x: string, y: string, z: string)
    requires |x| <= |y| && !(x <= y) && y <= z
    ensures !(x <= z)
  {
    assert z[..|y|] == y && z[..|x|] == y[..|x|];
  }

  lemma LastsGrow(base: seq<ToolCall>, c: ToolCall, d: ToolCall)
    ensures CallsGrow(base + [c], base + [d]) <==> CallGrows(c, d)
  {
    assert (base + [c])[..|base|] == base && (base + [d])[..|base|] == base;
  }

  lemma TextsGrow(s: State, x: Node, y: Node)
    requires Sound(s) && NodeGrows(x, y)
    ensures Step(s, x).reasoning <= Step(s, y).reasoning && Step(s, x).content <= Step(s, y).content
  {
    hide Step;
    StepTexts(s, x);
    StepTexts(s, y);
  }

  /** While the last call is shown: after more of a node, and after more nodes, what was shown is kept unless it was taken back. */
  lemma CutShown(s: State, x: Node, y: Node, t: State)
    requires Steady(s) && NodeGrows(x, y) && Keeps(s, y) && s.current == InResult && x.tag != ToolOpen
    requires StateGrows(Step(s, y), t)
    ensures StateGrows(Step(s, x), t) <==> !TakesBack(s, x, y)
  {
    hide Step, LastAfter, Keeps, TakesBack, CallsGrow;
    NameKept(s, y);
    var base, c, d := s.toolCalls[..|s.toolCalls| - 1], LastAfter(s, x), LastAfter(s, y);
    StepShows(s, x);
    StepShows(s, y);
    TextsGrow(s, x, y);
    CutStep(s, x, y);
    LastsGrow(base, c, d);
    if TakesBack(s, x, y) {
      StaysTakenBack(base, c, d, t.toolCalls);
    } else {
      CallsGrowOn(base + [c], base + [d], t.toolCalls);
    }
  }

  /**
   More of a node, and more nodes behind it: what was shown is kept or extended exactly when nothing was taken back
   at the cut.
   */
  lemma CutExactly(s: State, x: Node, y: Node, more: seq<Node>)
    requires Steady(s) && NodeGrows(x, y) && Keeps(s, y) && KeepsAll(Step(s, y), more)
    ensures StateGrows(Step(s, x), Run(Step(s, y), more)) <==> !TakesBack(s, x, y)
  {
    hide Step, LastAfter, Keeps, CallsGrow;
    var t := Run(Step(s, y), more);
    NameKept(s, y);
    StepGrows(s, y);
    RunGrows(Step(s, y), more);
    if s.current == InResult && x.tag != ToolOpen {
      CutShown(s, x, y, t);
    } else {
      TextsGrow(s, x, y);
      NotTakenBack(s, x);
      if x != y {
        StepShows(s, x);
        CallsGrowOn(s.toolCalls, Step(s, y).toolCalls, t.toolCalls);
      }
    }
  }
}
