/** A tagged reply mapped again and again while its tree grows: exactly when its diffs rebuild it. */
module ToolStream {
  import opened Wrappers
  import opened Messages
  import opened QuoteStreaming
  import opened ToolCalls
  import opened ToolGrowth
  import opened MessageDiffs

  const NOTHING: State := State("", "", [], None, Nobody, 0, false, "")

  /** The message that is reported for a state. */
  function MessageOf(s: State): Message {
    var f := Finished(s);
    Message(f.reasoning, f.content, f.toolCalls)
  }

  /** Dropping blank reasoning does not change whether a message grows. */
  lemma FinishedGrows(s: State, t: State)
    requires Sound(s) && Sound(t) && s.reasoning <= t.reasoning && s.content <= t.content
    ensures MessageGrows(MessageOf(s), MessageOf(t)) <==> CallsGrow(s.toolCalls, t.toolCalls)
  {
    hide CallsGrow;
    FlushIdle(s);
    FlushIdle(t);
    assert OnlyBlanks(t.reasoning) ==> OnlyBlanks(s.reasoning) by {
      assert forall i | 0 <= i < |s.reasoning| :: s.reasoning[i] == t.reasoning[i];
    }
  }

  // ---------------------------------------------------------------- lists of nodes

  /** More of the last node, and more nodes behind it. */
  predicate NodesGrow(a: seq<Node>, b: seq<Node>) {
    var n := |a| - 1;
    |a| <= |b| && (a != [] ==> a[..n] == b[..n] && NodeGrows(a[n], b[n]))
  }

  predicate TakenBack(a: seq<Node>, b: seq<Node>)
    requires NodesGrow(a, b)
  {
    a != [] && TakesBack(Run(NOTHING, a[..|a| - 1]), a[|a| - 1], b[|a| - 1])
  }

  /** A reply that is well-formed from its start. */
  predicate Proper(nodes: seq<Node>) {
    KeepsAll(NOTHING, nodes)
  }

  lemma {:induction false} KeepsConcat(s: State, a: seq<Node>, b: seq<Node>)
    requires Sound(s)
    ensures KeepsAll(s, a + b) <==> KeepsAll(s, a) && KeepsAll(Run(s, a), b)
    decreases a
  {
    hide Step, Keeps;
    if a == [] {
      assert a + b == b;
    } else {
      assert (a + b)[0] == a[0] && (a + b)[1..] == a[1..] + b;
      KeepsConcat(Step(s, a[0]), a[1..], b);
    }
  }

  lemma RunOne(s: State, n: Node)
    requires Sound(s)
    ensures Run(s, [n]) == Step(s, n)
  {
    hide Step;
    assert Run(Step(s, n), [n][1..]) == Step(s, n);
  }

  /** One list of nodes grows into another: the message grows exactly when nothing was taken back. */
  lemma GrowsExactly(a: seq<Node>, b: seq<Node>)
    requires NodesGrow(a, b) && Proper(b)
    ensures MessageGrows(MessageOf(Run(NOTHING, a)), MessageOf(Run(NOTHING, b))) <==> !TakenBack(a, b)
  {
    hide Run, Step, Keeps, MessageOf, MessageGrows, NodeGrows, TakesBack;
    if a == [] {
      RunNothing();
      RunGrows(NOTHING, b);
      FinishedGrows(NOTHING, Run(NOTHING, b));
    } else {
      var n := |a| - 1;
      var x, y, more := a[n], b[n], b[n + 1..];
      var s := Run(NOTHING, a[..n]);
      Divided(a, n);
      Divided(b, n);
      KeepsConcat(NOTHING, a[..n], [y] + more);
      RunGrows(NOTHING, a[..n]);
      KeepsFirst(s, y, more);
      RunConcat(NOTHING, a[..n], [x]);
      RunConcat(NOTHING, a[..n], [y] + more);
      RunOne(s, x);
      RunFirst(s, y, more);
      TextsGrowOn(s, x, y, more);
      CutExactly(s, x, y, more);
      FinishedGrows(Step(s, x), Run(Step(s, y), more));
    }
  }

  lemma Divided(nodes: seq<Node>, n: nat)
    requires n < |nodes|
    ensures nodes == nodes[..n] + ([nodes[n]] + nodes[n + 1..])
    ensures n == |nodes| - 1 ==> nodes == nodes[..n] + [nodes[n]]
  {
  }

  lemma RunNothing()
    ensures Run(NOTHING, []) == NOTHING && Steady(NOTHING)
  {
  }

  lemma KeepsFirst(s: State, n: Node, more: seq<Node>)
    requires Sound(s)
    ensures KeepsAll(s, [n] + more) <==> Keeps(s, n) && KeepsAll(Step(s, n), more)
  {
    hide Keeps, Step;
    assert ([n] + more)[1..] == more;
  }

  lemma RunFirst(s: State, n: Node, more: seq<Node>)
    requires Sound(s)
    ensures Run(s, [n] + more) == Run(Step(s, n), more)
  {
    hide Step;
    assert ([n] + more)[1..] == more;
  }

  lemma TextsGrowOn(s: State, x: Node, y: Node, more: seq<Node>)
    requires Sound(s) && NodeGrows(x, y)
    ensures Step(s, x).reasoning <= Run(Step(s, y), more).reasoning && Step(s, x).content <= Run(Step(s, y), more).content
  {
    hide Step, Run, NodeGrows;
    TextsGrow(s, x, y);
    TextsCollected(Step(s, y), more);
  }

  // ---------------------------------------------------------------- trees

  /** Whether the mapper does anything at a node; a list of arguments that is no JSON object is passed over. */
  predicate Heard(n: Node) {
    n.tag != OtherTag && (n.tag == ToolArgs ==> StartsObject(n.text))
  }

  /** The nodes at which the mapper does something, without what is below them. */
  function HeardOf(nodes: seq<Node>): seq<Node> {
    if nodes == [] then []
    else (if Heard(nodes[0]) then [nodes[0].(children := [])] else []) + HeardOf(nodes[1..])
  }

  lemma {:induction false} HeardConcat(a: seq<Node>, b: seq<Node>)
    ensures HeardOf(a + b) == HeardOf(a) + HeardOf(b)
  {
    hide Heard;
    if a == [] {
      assert a + b == b;
    } else {
      assert (a + b)[0] == a[0] && (a + b)[1..] == a[1..] + b;
      HeardConcat(a[1..], b);
    }
  }

  lemma HeardStep(s: State, n: Node)
    requires Sound(s)
    ensures Step(s, n.(children := [])) == Step(s, n)
    ensures !Heard(n) ==> Step(s, n) == s
  {
    hide TrimTrailing, IdText, Named, Opened, Closed, ArgumentNamed, Valued, WithTarget, Target, WithCurrent, Current;
    ObjectTrimmed(n.text);
  }

  lemma {:induction false} HeardRun(s: State, nodes: seq<Node>)
    requires Sound(s)
    ensures Run(s, HeardOf(nodes)) == Run(s, nodes)
    decreases nodes
  {
    hide Step, Heard;
    if nodes != [] {
      HeardStep(s, nodes[0]);
      HeardRun(Step(s, nodes[0]), nodes[1..]);
      if Heard(nodes[0]) {
        RunFirst(s, nodes[0].(children := []), HeardOf(nodes[1..]));
      } else {
        assert [] + HeardOf(nodes[1..]) == HeardOf(nodes[1..]);
      }
    }
  }

  /** What the mapper hears of a parse result. */
  function Reply(nodes: seq<Node>): seq<Node> {
    HeardOf(ParentsFirst(nodes))
  }

  /**
   A tree that has been read further: its text gets longer, and of its children only the last one may have changed,
   with more children after it. Below a node that the mapper hears there is nothing else to hear.
   */
  predicate TreeGrows(a: Node, b: Node)
    decreases a, 0
  {
    || a == b
    || (&& !IsAtomic(a.tag) && a.tag == b.tag && a.text <= b.text
        && (a.tag == Reasoning || a.tag == Content ==> a.sanitized <= b.sanitized)
        && (Heard(a) || Heard(b) ==> Reply(a.children) == [] && Reply(b.children) == [])
        && ForestGrows(a.children, b.children))
  }

  predicate ForestGrows(a: seq<Node>, b: seq<Node>)
    decreases a, 1
  {
    || a == []
    || (|a| <= |b| && a[..|a| - 1] == b[..|a| - 1] && TreeGrows(a[|a| - 1], b[|a| - 1]))
  }

  lemma {:induction false} ParentsFirstConcat(a: seq<Node>, b: seq<Node>)
    ensures ParentsFirst(a + b) == ParentsFirst(a) + ParentsFirst(b)
  {
    if a == [] {
      assert a + b == b;
    } else {
      assert (a + b)[0] == a[0] && (a + b)[1..] == a[1..] + b;
      ParentsFirstConcat(a[1..], b);
      var x, y, z := [a[0]] + ParentsFirst(a[0].children), ParentsFirst(a[1..]), ParentsFirst(b);
      assert x + (y + z) == (x + y) + z;
    }
  }

  lemma ReplyConcat(a: seq<Node>, b: seq<Node>)
    ensures Reply(a + b) == Reply(a) + Reply(b)
  {
    ParentsFirstConcat(a, b);
    HeardConcat(ParentsFirst(a), ParentsFirst(b));
  }

  lemma ReplyOne(n: Node)
    ensures Reply([n]) == (if Heard(n) then [n.(children := [])] else []) + Reply(n.children)
  {
    hide Heard;
    assert ParentsFirst([n]) == [n] + ParentsFirst(n.children) by {
      assert [n][1..] == [] && [n] + ParentsFirst(n.children) + [] == [n] + ParentsFirst(n.children);
    }
    assert ([n] + ParentsFirst(n.children))[1..] == ParentsFirst(n.children);
  }

  /** The same nodes in front of both, and any nodes behind the longer one. */
  lemma NodesGrowWithin(front: seq<Node>, a: seq<Node>, b: seq<Node>, more: seq<Node>)
    requires NodesGrow(a, b)
    ensures NodesGrow(front + a, front + b + more)
  {
    hide NodeGrows;
    var x, y := front + a, front + b + more;
    if a == [] {
      if front != [] {
        assert x == front && y[..|front| - 1] == front[..|front| - 1] && y[|front| - 1] == front[|front| - 1];
        SameGrows(front[|front| - 1]);
      }
    } else {
      var n := |a| - 1;
      assert x[..|x| - 1] == front + a[..n] && y[..|x| - 1] == front + b[..n];
      assert x[|x| - 1] == a[n] && y[|x| - 1] == b[n];
    }
  }

  lemma SameGrows(n: Node)
    ensures NodeGrows(n, n)
  {
  }

  lemma {:induction false} TreeHeard(a: Node, b: Node)
    requires TreeGrows(a, b)
    ensures NodesGrow(Reply([a]), Reply([b]))
    decreases a, 0
  {
    hide Reply, NodesGrow, Heard, NodeGrows;
    if a == b {
      SameNodesGrow(Reply([a]));
    } else {
      ReplyOne(a);
      ReplyOne(b);
      if Heard(a) || Heard(b) {
        OwnGrows(a, b);
      } else {
        ForestHeard(a.children, b.children);
        assert [] + Reply(a.children) == Reply(a.children) && [] + Reply(b.children) == Reply(b.children);
      }
    }
  }

  lemma SameNodesGrow(a: seq<Node>)
    ensures NodesGrow(a, a)
  {
  }

  lemma OwnGrows(a: Node, b: Node)
    requires TreeGrows(a, b) && a != b
    ensures NodesGrow((if Heard(a) then [a.(children := [])] else []) + [], (if Heard(b) then [b.(children := [])] else []) + [])
  {
    hide Reply, ForestGrows;
  }

  /** When a parse result grows, so does what the mapper hears of it. */
  lemma {:induction false} ForestHeard(a: seq<Node>, b: seq<Node>)
    requires ForestGrows(a, b)
    ensures NodesGrow(Reply(a), Reply(b))
    decreases a, 1
  {
    hide Reply, NodesGrow, TreeGrows;
    if a == [] {
      NothingHeard();
      NothingGrows(Reply(b));
    } else {
      var n := |a| - 1;
      var x, y := a[n], b[n];
      Divided(a, n);
      Divided(b, n);
      ReplyConcat(a[..n], [x]);
      ReplyConcat(a[..n], [y] + b[n + 1..]);
      ReplyConcat([y], b[n + 1..]);
      TreeHeard(x, y);
      NodesGrowWithin(Reply(a[..n]), Reply([x]), Reply([y]), Reply(b[n + 1..]));
      assert Reply(a[..n]) + Reply([y]) + Reply(b[n + 1..]) == Reply(b);
    }
  }

  lemma NothingHeard()
    ensures Reply([]) == []
  {
  }

  lemma NothingGrows(b: seq<Node>)
    ensures NodesGrow([], b)
  {
  }

  // ---------------------------------------------------------------- the stream

  /** The message of a whole parse result. */
  function MessageFrom(nodes: seq<Node>): Message {
    MessageOf(Run(NOTHING, ParentsFirst(nodes)))
  }

  /** The character is a blank or a line end. */
  predicate IsBlank(c: char) {
    c in " \n\r\t"
  }

  /**
   The texts of a whole parse result: content is the texts of the content nodes, in order. Reasoning is likewise those of
   the reasoning nodes, but nothing if they hold blanks and line ends only.
   */
  lemma TextsReported(roots: seq<Node>)
    ensures var nodes := ParentsFirst(roots);
      && MessageFrom(roots).content == Texts(nodes, Content)
      && MessageFrom(roots).reasoning ==
        if forall i, j | 0 <= i < |nodes| && nodes[i].tag == Reasoning && 0 <= j < |nodes[i].sanitized| ::
          IsBlank(nodes[i].sanitized[j])
        then "" else Texts(nodes, Reasoning)
  {
    hide Run, Finished, IsBlank;
    var nodes := ParentsFirst(roots);
    var said := Texts(nodes, Reasoning);
    TextsCollected(NOTHING, nodes);
    assert "" + said == said && "" + Texts(nodes, Content) == Texts(nodes, Content);
    FinishedTexts(Run(NOTHING, nodes));
    BlankOneByOne(said);
    BlankByNodes(nodes, Reasoning);
  }

  lemma BlankOneByOne(s: string)
    ensures (forall i | 0 <= i < |s| :: s[i] in {' ', '\n', '\r', '\t'}) <==> forall i | 0 <= i < |s| :: IsBlank(s[i])
  {
    forall i | 0 <= i < |s| ensures s[i] in {' ', '\n', '\r', '\t'} <==> IsBlank(s[i]) { BlankIs(s[i]); }
  }

  lemma BlankIs(c: char)
    ensures IsBlank(c) <==> c in {' ', '\n', '\r', '\t'}
  {
    var all := " \n\r\t";
    assert all[0] == ' ' && all[1] == '\n' && all[2] == '\r' && all[3] == '\t';
  }

  lemma BlankByNodes(nodes: seq<Node>, tag: Tag)
    ensures var s := Texts(nodes, tag);
      (forall i | 0 <= i < |s| :: IsBlank(s[i])) <==>
      forall i, j | 0 <= i < |nodes| && nodes[i].tag == tag && 0 <= j < |nodes[i].sanitized| ::
        IsBlank(nodes[i].sanitized[j])
  {
    hide IsBlank, Texts;
    var s := Texts(nodes, tag);
    if forall i | 0 <= i < |s| :: IsBlank(s[i]) {
      forall i, j | 0 <= i < |nodes| && nodes[i].tag == tag && 0 <= j < |nodes[i].sanitized|
        ensures IsBlank(nodes[i].sanitized[j])
      {
        TextsHold(nodes, tag, i, j);
      }
    }
    if exists k :: 0 <= k < |s| && !IsBlank(s[k]) {
      var k :| 0 <= k < |s| && !IsBlank(s[k]);
      var i, j := TextsFrom(nodes, tag, s[k]);
    }
  }

  function AllMessages(parses: seq<seq<Node>>): (r: seq<Message>)
    ensures |r| == |parses| && forall i | 0 <= i < |r| :: r[i] == MessageFrom(parses[i])
  {
    seq(|parses|, i requires 0 <= i < |parses| => MessageFrom(parses[i]))
  }

  /** What was shown of one parse result is taken back by the next. */
  predicate Undone(a: seq<Node>, b: seq<Node>)
    requires ForestGrows(a, b)
  {
    ForestHeard(a, b);
    TakenBack(Reply(a), Reply(b))
  }

  /** One parse result grows into another: the diffs exist and rebuild the message exactly when nothing is taken back. */
  lemma ParseGrowsExactly(a: seq<Node>, b: seq<Node>)
    requires ForestGrows(a, b) && Proper(Reply(b))
    ensures MessageGrows(MessageFrom(a), MessageFrom(b)) <==> !Undone(a, b)
    ensures var prv, now := MessageFrom(a), MessageFrom(b);
      (Diffs(prv, now).Ok? && ApplyAll(prv, Diffs(prv, now).value) == now) <==> !Undone(a, b)
  {
    hide Run, MessageOf, MessageGrows, TakenBack, NodesGrow, ForestGrows, Diffs, ApplyAll, Proper;
    ForestHeard(a, b);
    HeardRun(NOTHING, ParentsFirst(a));
    HeardRun(NOTHING, ParentsFirst(b));
    GrowsExactly(Reply(a), Reply(b));
    DiffsRebuild(MessageFrom(a), MessageFrom(b));
  }

  /** While parse results grow and nothing is taken back, no diff fails, and a client that applies them has the final message. */
  lemma StreamRebuilt(parses: seq<seq<Node>>)
    requires forall i | 0 <= i < |parses| :: Proper(Reply(parses[i]))
    requires forall i | 0 <= i < |parses| - 1 :: ForestGrows(parses[i], parses[i + 1]) && !Undone(parses[i], parses[i + 1])
    ensures var states := [EMPTY] + AllMessages(parses);
      AllDiffs(states).Ok? && ApplyAll(EMPTY, AllDiffs(states).value) == states[|states| - 1]
  {
    hide MessageGrows, ForestGrows, Undone, MessageFrom, Proper, Reply;
    var states := [EMPTY] + AllMessages(parses);
    forall i | 0 <= i < |states| - 1 ensures MessageGrows(states[i], states[i + 1]) {
      if i == 0 {
        EmptyGrows(MessageFrom(parses[0]));
      } else {
        assert ForestGrows(parses[i - 1], parses[i - 1 + 1]);
        ParseGrowsExactly(parses[i - 1], parses[i]);
      }
    }
    StreamRebuilds(states);
  }

  lemma EmptyGrows(m: Message)
    ensures MessageGrows(EMPTY, m)
  {
  }

  // ---------------------------------------------------------------- a value that is taken back

  function Leaf(tag: Tag, text: string): Node {
    Node(tag, text, text, [])
  }

  /** A call f that is given the argument x. */
  const CALL_HEAD: seq<Node> := [Leaf(ToolOpen, ""), Leaf(ToolName, "f"), Leaf(ArgOpen, ""), Leaf(ArgName, "x")]

  lemma {:induction false} LeavesHeard(nodes: seq<Node>)
    requires forall i | 0 <= i < |nodes| :: nodes[i].children == [] && Heard(nodes[i])
    ensures Reply(nodes) == nodes
  {
    hide Heard;
    if nodes != [] {
      var n, rest := nodes[0], nodes[1..];
      LeavesHeard(rest);
      assert nodes == [n] + rest && n.(children := []) == n;
      ReplyConcat([n], rest);
      ReplyOne(n);
      NothingHeard();
    } else {
      NothingHeard();
    }
  }

  /** A state in which a call is shown stays one that shows it, until the next call is opened. */
  lemma ShownStays(s: State, n: Node)
    requires Steady(s) && s.current == InResult && n.tag in {ArgOpen, ArgName, ArgValue}
    ensures Keeps(s, n) && Steady(Step(s, n)) && Step(s, n).current == InResult
  {
    hide Step, LastAfter;
    StepShows(s, n);
    StepShowsLast(s, n);
  }

  lemma HeadShown()
    ensures KeepsAll(NOTHING, CALL_HEAD)
    ensures Steady(Run(NOTHING, CALL_HEAD)) && Run(NOTHING, CALL_HEAD).current == InResult
  {
    hide Step, Keeps, Steady, Run, KeepsAll;
    var h := CALL_HEAD;
    CallOpens(h[0], h[1]);
    var s1 := Step(NOTHING, h[0]);
    var s2 := Step(s1, h[1]);
    var s3 := Step(s2, h[2]);
    ShownStays(s2, h[2]);
    ShownStays(s3, h[3]);
    assert h == [h[0]] + ([h[1]] + ([h[2]] + [h[3]]));
    KeepsFirst(NOTHING, h[0], [h[1]] + ([h[2]] + [h[3]]));
    KeepsFirst(s1, h[1], [h[2]] + [h[3]]);
    KeepsFirst(s2, h[2], [h[3]]);
    OneKept(s3, h[3]);
    RunFirst(NOTHING, h[0], [h[1]] + ([h[2]] + [h[3]]));
    RunFirst(s1, h[1], [h[2]] + [h[3]]);
    RunFirst(s2, h[2], [h[3]]);
    RunOne(s3, h[3]);
  }

  lemma CallOpens(open: Node, name: Node)
    requires open == Leaf(ToolOpen, "") && name == Leaf(ToolName, "f")
    ensures Keeps(NOTHING, open) && Keeps(Step(NOTHING, open), name)
    ensures Steady(Step(Step(NOTHING, open), name)) && Step(Step(NOTHING, open), name).current == InResult
  {
    assert TrimTrailing("f") == "f";
  }

  lemma OneKept(s: State, n: Node)
    requires Sound(s)
    ensures KeepsAll(s, [n]) <==> Keeps(s, n)
  {
    hide Keeps, Step;
    assert [n][1..] == [];
  }

  /** A leaf at the end that has been read further. */
  lemma LastLeafGrows(front: seq<Node>, x: Node, y: Node)
    requires forall i | 0 <= i < |front| :: front[i].children == [] && Heard(front[i])
    requires x.tag == y.tag == ArgValue && x.text <= y.text && x.children == y.children == []
    ensures ForestGrows(front + [x], front + [y])
    ensures Reply(front + [x]) == front + [x] && Reply(front + [y]) == front + [y]
  {
    hide Reply, Heard, TreeGrows;
    var a, b := front + [x], front + [y];
    LeafGrows(x, y);
    LeavesHeard(a);
    LeavesHeard(b);
    assert a[..|a| - 1] == front && b[..|a| - 1] == front && a[|a| - 1] == x && b[|a| - 1] == y;
  }

  lemma LeafGrows(x: Node, y: Node)
    requires x.tag == y.tag == ArgValue && x.text <= y.text && x.children == y.children == []
    ensures TreeGrows(x, y) && Heard(x) && Heard(y)
  {
    hide Reply;
    NothingHeard();
  }

  /** The value Tx, of which the T came first: the literal it looked like is taken back. */
  lemma WordTakenBack(x: Node, y: Node)
    requires x == Leaf(ArgValue, "T") && y == Leaf(ArgValue, "Tx")
    ensures NodesGrow(CALL_HEAD + [x], CALL_HEAD + [y]) && Proper(CALL_HEAD + [y])
    ensures TakenBack(CALL_HEAD + [x], CALL_HEAD + [y])
  {
    hide Run, Step, Keeps, KeepsAll, CutBreaks;
    var s := Run(NOTHING, CALL_HEAD);
    CutsThatHurt();
    HeadShown();
    ShownStays(s, y);
    KeepsConcat(NOTHING, CALL_HEAD, [y]);
    OneKept(s, y);
    var a, b := CALL_HEAD + [x], CALL_HEAD + [y];
    assert a[..|a| - 1] == CALL_HEAD && b[..|a| - 1] == CALL_HEAD && a[|a| - 1] == x && b[|a| - 1] == y;
  }

  /** So the message does not grow, and no diff makes the new one of the old one. */
  lemma WordUndone()
    ensures var a, b := CALL_HEAD + [Leaf(ArgValue, "T")], CALL_HEAD + [Leaf(ArgValue, "Tx")];
      ForestGrows(a, b) && Undone(a, b) && !MessageGrows(MessageFrom(a), MessageFrom(b))
  {
    hide Run, KeepsAll, MessageGrows, MessageFrom, TakenBack, NodesGrow, ForestGrows, Reply, Diffs, ApplyAll;
    var x, y := Leaf(ArgValue, "T"), Leaf(ArgValue, "Tx");
    LastLeafGrows(CALL_HEAD, x, y);
    WordTakenBack(x, y);
    ParseGrowsExactly(CALL_HEAD + [x], CALL_HEAD + [y]);
  }
}
