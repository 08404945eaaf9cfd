/** The mapper itself: one object whose fields change node by node. */
module ToolMapper {
  import opened Wrappers
  import opened Messages
  import opened JsonText
  import opened Quotes
  import opened ToolCalls

  class Mapper {
    var content: string
    var reasoning: string
    var toolCalls: seq<ToolCall>
    var pending: Option<ToolCall>
    var current: Slot
    var argCount: nat
    var closingQuotePending: bool
    var argsBuffer: string

    ghost function Snapshot(): State
      reads this
    {
      State(content, reasoning, toolCalls, pending, current, argCount, closingQuotePending, argsBuffer)
    }

    ghost predicate Valid()
      reads this
    {
      Sound(Snapshot())
    }

    constructor ()
      ensures Valid() && Snapshot() == State("", "", [], None, Nobody, 0, false, "")
    {
      content, reasoning, toolCalls, pending := "", "", [], None;
      current, argCount, closingQuotePending, argsBuffer := Nobody, 0, false, "";
    }

    /** The call that the pointer leads to. */
    method Deref() returns (call: ToolCall)
      requires Valid() && current != Nobody
      ensures call == Current(Snapshot())
    {
      if current == InPending {
        call := pending.value;
      } else {
        call := toolCalls[|toolCalls| - 1];
      }
    }

    /** Writes through the pointer. */
    method Assign(call: ToolCall)
      requires Valid() && current != Nobody
      requires current == InPending ==> call.name == ""
      modifies this
      ensures Snapshot() == WithCurrent(old(Snapshot()), call)
    {
      if current == InPending {
        pending := Some(call);
      } else {
        toolCalls := toolCalls[..|toolCalls| - 1] + [call];
      }
    }

    method ReadTarget() returns (text: string)
      requires Valid()
      ensures text == Target(Snapshot())
    {
      text := argsBuffer;
      if current != Nobody {
        var call := Deref();
        if call.name != "" {
          text := call.arguments;
        }
      }
    }

    method WriteTarget(text: string)
      requires Valid()
      modifies this
      ensures Valid() && Snapshot() == WithTarget(old(Snapshot()), text)
    {
      if current != Nobody {
        var call := Deref();
        if call.name != "" {
          Assign(call.(arguments := text));
          return;
        }
      }
      argsBuffer := text;
    }

    method OnName(text: string)
      requires Valid() && current != Nobody
      modifies this
      ensures Valid() && Snapshot() == Named(old(Snapshot()), TrimTrailing(text))
    {
      var name := TrimTrailingSpace(text);
      var call := Deref();
      call := call.(name := name);
      if argsBuffer != "" {
        call := call.(arguments := argsBuffer);
        argsBuffer := "";
      } else if call.arguments == "" {
        call := call.(arguments := "{");
      }
      if pending.Some? {
        toolCalls := toolCalls + [call];
        pending := None;
        current := InResult;
      } else {
        Assign(call);
      }
    }

    method OnArgName(text: string)
      requires Valid()
      modifies this
      ensures Valid() && Snapshot() == ArgumentNamed(old(Snapshot()), text)
    {
      var entry := "";
      if argCount > 0 {
        entry := ",";
      }
      entry := entry + (Dump(Trim(text)) + ":");
      argCount := argCount + 1;
      var target := ReadTarget();
      if target == "" {
        target := "{";
      }
      WriteTarget(target + entry);
    }

    method OnValue(isString: bool, text: string)
      requires Valid()
      modifies this
      ensures Valid() && Snapshot() == Valued(old(Snapshot()), isString, text)
    {
      var added := "";
      if text == "" && isString {
        added := "\"";
        closingQuotePending := true;
      } else if text != "" && isString {
        if !closingQuotePending {
          added := "\"";
          closingQuotePending := true;
        }
        added := added + EscapeInner(text);
      } else if text != "" {
        added := NormalizeQuotesToJson(text);
      }
      var target := ReadTarget();
      WriteTarget(target + added);
    }

    method CloseBraces(text: string) returns (r: string)
      ensures r == text + Braces(ScanFrom(START, text).depth)
    {
      r := text;
      var depth := BraceDepth(text);
      var d := depth;
      while d > 0
        invariant r + Braces(d) == text + Braces(depth)
      {
        assert r + ("}" + Braces(d - 1)) == (r + "}") + Braces(d - 1);
        r := r + "}";
        d := d - 1;
      }
      assert r + "" == r;
    }

    method OnClose()
      requires Valid() && current != Nobody
      modifies this
      ensures Valid() && Snapshot() == Closed(old(Snapshot()))
    {
      var call := Deref();
      if call.name == "" && argsBuffer != "" {
        call := call.(arguments := argsBuffer);
        argsBuffer := "";
      }
      assert call.arguments + "" == call.arguments;
      if closingQuotePending {
        call := call.(arguments := call.arguments + "\"");
        closingQuotePending := false;
      }
      var closed := CloseBraces(call.arguments);
      call := call.(arguments := closed);
      Assign(call);
      if pending.Some? {
        Settle(call);
      }
    }

    /** A call that is still pending when it is closed counts only if it has a name. */
    method Settle(call: ToolCall)
      modifies this
      ensures Snapshot() == old(Snapshot()).(toolCalls := if call.name != "" then old(toolCalls) + [call] else old(toolCalls),
                                             pending := None, current := Nobody)
    {
      if call.name != "" {
        toolCalls := toolCalls + [call];
      }
      pending := None;
      current := Nobody;
    }

    /** One node of the tree. */
    method Map(n: Node)
      requires Valid()
      modifies this
      ensures Valid() && Snapshot() == Step(old(Snapshot()), n)
    {
      if n.tag == Reasoning {
        reasoning := reasoning + n.sanitized;
      }
      if n.tag == Content {
        content := content + n.sanitized;
      }
      if n.tag == ToolOpen {
        pending := Some(ToolCall("", "", ""));
        current := InPending;
        argCount := 0;
        argsBuffer := "";
        closingQuotePending := false;
      }
      if n.tag == ToolId && current != Nobody {
        var call := Deref();
        Assign(call.(id := IdText(n.text)));
      }
      if n.tag == ToolName && current != Nobody {
        OnName(n.text);
      }
      if n.tag == ToolArgs && current != Nobody {
        var text := TrimTrailingSpace(n.text);
        if text != "" && text[0] == '{' {
          WriteTarget(text);
        }
      }
      if n.tag == ArgOpen {
        closingQuotePending := false;
      }
      if n.tag == ArgName && current != Nobody {
        OnArgName(n.text);
      }
      if (n.tag == ArgValue || n.tag == ArgStringValue) && current != Nobody {
        OnValue(n.tag == ArgStringValue, n.text);
      }
      if n.tag == ArgClose && current != Nobody {
        if closingQuotePending {
          var target := ReadTarget();
          WriteTarget(target + "\"");
          closingQuotePending := false;
        }
      }
      if n.tag == ToolClose && current != Nobody {
        OnClose();
      }
    }

    /** One tree, visited with a stack instead of recursion: each node before its children. */
    method Visit(root: Node)
      requires Valid()
      modifies this
      ensures Valid() && Snapshot() == Run(old(Snapshot()), ParentsFirst([root]))
    {
      hide Step, Run, Unvisited, StackWeight, ParentsFirst;
      var stack := [root];
      OneTree(root);
      while stack != []
        invariant Valid()
        invariant Run(Snapshot(), Unvisited(stack)) == Run(old(Snapshot()), ParentsFirst([root]))
        decreases StackWeight(stack)
      {
        NextNode(Snapshot(), stack);
        var node, rest := stack[|stack| - 1], stack[..|stack| - 1];
        Map(node);
        stack := rest + Reversed(node.children);
      }
      NothingToVisit(Snapshot());
    }

    method Flush()
      modifies this
      ensures Snapshot() == Flushed(old(Snapshot()))
    {
      if pending.Some? && pending.value.name != "" {
        if argsBuffer != "" {
          pending := Some(pending.value.(arguments := argsBuffer));
        }
        if closingQuotePending && pending.value.arguments != "" {
          pending := Some(pending.value.(arguments := pending.value.arguments + "\""));
        }
        toolCalls := toolCalls + [pending.value];
        pending := None;
      }
    }

    /** A whole parse result. */
    method FromAst(roots: seq<Node>)
      requires Valid()
      modifies this
      ensures Snapshot() == Finished(Run(old(Snapshot()), ParentsFirst(roots)))
      ensures content == old(content) + Texts(ParentsFirst(roots), Content)
      ensures var said := old(reasoning) + Texts(ParentsFirst(roots), Reasoning);
        reasoning == if forall i | 0 <= i < |said| :: said[i] in {' ', '\n', '\r', '\t'} then "" else said
    {
      hide Step, OnlyBlanks, Flushed;
      for i := 0 to |roots|
        invariant Valid()
        invariant Run(Snapshot(), ParentsFirst(roots[i..])) == Run(old(Snapshot()), ParentsFirst(roots))
      {
        NextRoot(roots, i);
        RunConcat(Snapshot(), ParentsFirst([roots[i]]), ParentsFirst(roots[i + 1..]));
        Visit(roots[i]);
      }
      Flush();
      DropBlankReasoning();
      TextsCollected(old(Snapshot()), ParentsFirst(roots));
      FinishedTexts(Run(old(Snapshot()), ParentsFirst(roots)));
    }

    /** Reasoning that is only white space is dropped. */
    method DropBlankReasoning()
      modifies this
      ensures Snapshot() == old(Snapshot()).(reasoning := if OnlyBlanks(old(reasoning)) then "" else old(reasoning))
    {
      if reasoning != "" {
        var allBlank := true;
        for i := 0 to |reasoning|
          invariant allBlank == OnlyBlanks(reasoning[..i])
        {
          var c := reasoning[i];
          assert reasoning[..i + 1] == reasoning[..i] + [c];
          if c != ' ' && c != '\n' && c != '\r' && c != '\t' {
            allBlank := false;
            assert reasoning[..i + 1][i] == c;
            break;
          }
        }
        if allBlank {
          reasoning := "";
        }
      }
    }
  }

  lemma OneTree(root: Node)
    ensures Unvisited([root]) == ParentsFirst([root])
  {
    assert [root][..0] == [] && ParentsFirst([root]) + [] == ParentsFirst([root]);
  }

  lemma NothingToVisit(s: State)
    requires Sound(s)
    ensures Run(s, Unvisited([])) == s
  {
  }

  /** Taking the top node off the stack and putting its children on leaves the rest of the run. */
  lemma NextNode(s: State, stack: seq<Node>)
    requires Sound(s) && stack != []
    ensures var node := stack[|stack| - 1];
      var next := stack[..|stack| - 1] + Reversed(node.children);
      StackWeight(next) < StackWeight(stack) && Run(s, Unvisited(stack)) == Run(Step(s, node), Unvisited(next))
  {
    hide Step;
    var node, rest := stack[|stack| - 1], stack[..|stack| - 1];
    assert stack == rest + [node];
    PushOne(rest, node);
    PushChildren(rest, node.children);
    hide ParentsFirst, Unvisited, StackWeight;
    assert Unvisited(stack)[0] == node;
    assert Unvisited(stack)[1..] == Unvisited(rest + Reversed(node.children));
  }

  lemma NextRoot(roots: seq<Node>, i: nat)
    requires i < |roots|
    ensures ParentsFirst(roots[i..]) == ParentsFirst([roots[i]]) + ParentsFirst(roots[i + 1..])
  {
    assert roots[i..][1..] == roots[i + 1..] && [roots[i]][1..] == [];
    assert ParentsFirst([roots[i]]) == [roots[i]] + ParentsFirst(roots[i].children) + [];
  }
}
