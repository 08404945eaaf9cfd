/** A reply mapped again and again while its tree grows: its diffs always exist and rebuild it. */
module MiniMaxStream {
  import opened Messages
  import opened JsonText
  import opened MiniMax
  import opened MessageDiffs

  /** One node of the tree; a call counts once its name is known. */
  function Visit(m: Message, n: Node): Message
    decreases n, 0
  {
    match n.tag
    case Reasoning => m.(reasoning := m.reasoning + n.sanitized)
    case Content => m.(content := m.content + n.sanitized)
    case Tool =>
      var name := FindByTag(n.children, ToolName, MAX_DEPTH);
      if name.None? then m
      else m.(toolCalls := m.toolCalls + [ToolCall(name.value.text, ArgumentsText(n), "")])
    case _ => VisitAll(m, n.children)
  }

  function VisitAll(m: Message, nodes: seq<Node>): Message
    decreases nodes, 1
  {
    if nodes == [] then m else VisitAll(Visit(m, nodes[0]), nodes[1..])
  }

  /** The message of a whole parse result. */
  function FromAst(nodes: seq<Node>): Message {
    VisitAll(EMPTY, nodes)
  }

  // ---------------------------------------------------------------- visiting only adds

  predicate Extends(a: Message, b: Message) {
    a.reasoning <= b.reasoning && a.content <= b.content && a.toolCalls <= b.toolCalls
  }

  lemma {:induction false} VisitExtends(m: Message, n: Node)
    ensures Extends(m, Visit(m, n))
    decreases n, 0
  {
    if n.tag != Reasoning && n.tag != Content && n.tag != Tool {
      VisitAllExtends(m, n.children);
    }
  }

  lemma {:induction false} VisitAllExtends(m: Message, nodes: seq<Node>)
    ensures Extends(m, VisitAll(m, nodes))
    decreases nodes, 1
  {
    hide Visit;
    if nodes != [] {
      VisitExtends(m, nodes[0]);
      VisitAllExtends(Visit(m, nodes[0]), nodes[1..]);
    }
  }

  lemma {:induction false} VisitConcat(m: Message, a: seq<Node>, b: seq<Node>)
    ensures VisitAll(m, a + b) == VisitAll(VisitAll(m, a), b)
    decreases a
  {
    hide Visit;
    if a == [] {
      assert a + b == b;
    } else {
      assert (a + b)[0] == a[0] && (a + b)[1..] == a[1..] + b;
      VisitConcat(Visit(m, a[0]), a[1..], b);
    }
  }

  /** Growing, and then being added to, is growing. */
  lemma GrowsThenExtends(a: Message, b: Message, c: Message)
    requires MessageGrows(a, b) && Extends(b, c)
    ensures MessageGrows(a, c)
  {
    var n := |a.toolCalls|;
    if n > 0 {
      assert c.toolCalls[..n - 1] == b.toolCalls[..n - 1];
    }
  }

  lemma ExtendsGrows(a: Message, b: Message)
    requires Extends(a, b)
    ensures MessageGrows(a, b)
  {
  }

  // ---------------------------------------------------------------- growing trees give growing messages

  lemma ToolGrows(m: Message, a: Node, b: Node)
    requires Grows(a, b) && a.tag == Tool
    ensures MessageGrows(Visit(m, a), Visit(m, b))
  {
    GrowsTag(a, b);
    VisitExtends(m, b);
    ExtendsGrows(m, Visit(m, b));
    if FindByTag(a.children, ToolName, MAX_DEPTH).Some? {
      FindGrows(a.children, b.children, ToolName, MAX_DEPTH);
      ArgumentsOnlyExtended(a, b);
      hide Grows, GrowsAll, FindByTag, ArgumentsText;
      var name := FindByTag(a.children, ToolName, MAX_DEPTH).value.text;
      var x, y := ToolCall(name, ArgumentsText(a), ""), ToolCall(name, ArgumentsText(b), "");
      assert (m.toolCalls + [x])[..|m.toolCalls|] == (m.toolCalls + [y])[..|m.toolCalls|];
    }
  }

  lemma {:induction false} VisitGrows(m: Message, a: Node, b: Node)
    requires Grows(a, b)
    ensures MessageGrows(Visit(m, a), Visit(m, b))
    decreases a, 0
  {
    GrowsTag(a, b);
    if a.tag == Tool {
      ToolGrows(m, a, b);
    } else if a.tag == Reasoning {
      PrefixBehind(m.reasoning, a.sanitized, b.sanitized);
    } else if a.tag == Content {
      PrefixBehind(m.content, a.sanitized, b.sanitized);
    } else {
      VisitAllGrows(m, a.children, b.children);
    }
  }

  lemma {:induction false} VisitAllGrows(m: Message, a: seq<Node>, b: seq<Node>)
    requires GrowsAll(a, b)
    ensures MessageGrows(VisitAll(m, a), VisitAll(m, b))
    decreases a, 1
  {
    if a == [] {
      VisitAllExtends(m, b);
      ExtendsGrows(m, VisitAll(m, b));
    } else {
      var front, x, y, more := GrownChildren(a, b);
      assert x == a[|a| - 1];
      VisitConcat(m, front, [x]);
      VisitConcat(m, front, [y] + more);
      var m1 := VisitAll(m, front);
      VisitConcat(m1, [y], more);
      VisitOne(m1, x);
      VisitOne(m1, y);
      VisitGrows(m1, x, y);
      VisitAllExtends(Visit(m1, y), more);
      GrowsThenExtends(Visit(m1, x), Visit(m1, y), VisitAll(Visit(m1, y), more));
    }
  }

  lemma VisitOne(m: Message, n: Node)
    ensures VisitAll(m, [n]) == Visit(m, n)
  {
    assert [n][1..] == [] && VisitAll(Visit(m, n), [n][1..]) == Visit(m, n);
  }

  // ---------------------------------------------------------------- the stream

  function AllMessages(parses: seq<seq<Node>>): (r: seq<Message>)
    ensures |r| == |parses| && forall i | 0 <= i < |r| :: r[i] == FromAst(parses[i])
  {
    seq(|parses|, i requires 0 <= i < |parses| => FromAst(parses[i]))
  }

  /** While the parse results grow, no diff ever fails, and a client that applies them all has the final message. */
  lemma StreamNeverFails(parses: seq<seq<Node>>)
    requires forall i | 0 <= i < |parses| - 1 :: GrowsAll(parses[i], parses[i + 1])
    ensures var states := [EMPTY] + AllMessages(parses);
            AllDiffs(states).Ok? && ApplyAll(EMPTY, AllDiffs(states).value) == states[|states| - 1]
  {
    hide MessageGrows, GrowsAll, VisitAll;
    var states := [EMPTY] + AllMessages(parses);
    forall i | 0 <= i < |states| - 1 ensures MessageGrows(states[i], states[i + 1]) {
      if i == 0 {
        VisitAllExtends(EMPTY, parses[0]);
        ExtendsGrows(EMPTY, FromAst(parses[0]));
      } else {
        assert GrowsAll(parses[i - 1], parses[i - 1 + 1]);
        VisitAllGrows(EMPTY, parses[i - 1], parses[i]);
      }
    }
    StreamRebuilds(states);
  }
}
