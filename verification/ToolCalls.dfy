/**
 The event mapper that turns the nodes of a parsed reply into tool calls, with the arguments
 assembled as JSON text while the reply is still streaming in.
 */
module ToolCalls {
  import opened Wrappers
  import opened Messages
  import opened JsonText
  import opened Quotes

  datatype Tag =
    | Reasoning | Content
    | ToolOpen | ToolClose | ToolId | ToolName | ToolArgs
    | ArgOpen | ArgClose | ArgName | ArgValue | ArgStringValue
    | OtherTag

  /** A syntax tree node; `sanitized` is its text with invalid UTF-8 replaced. */
  datatype Node = Node(tag: Tag, text: string, sanitized: string, children: seq<Node>)

  // ---------------------------------------------------------------- trimming

  predicate IsSpace(c: char) {
    c == ' ' || c == '\t' || c == '\n' || c == '\U{0B}' || c == '\U{0C}' || c == '\r'
  }

  function TrimTrailing(s: string): string {
    if s != [] && IsSpace(s[|s| - 1]) then TrimTrailing(s[..|s| - 1]) else s
  }

  /** Leading white space goes, but at most one character of it; trailing white space goes entirely. */
  function Trim(s: string): string {
    TrimTrailing(if s != [] && IsSpace(s[0]) then s[1..] else s)
  }

  /** The front of a text without the white space behind it. */
  predicate IsTrimmed(s: string, r: string) {
    r <= s && (r != "" ==> !IsSpace(r[|r| - 1])) && forall i | |r| <= i < |s| :: IsSpace(s[i])
  }

  lemma {:induction false} TrimmedIs(s: string, r: string)
    ensures r == TrimTrailing(s) <==> IsTrimmed(s, r)
  {
    if s != [] && IsSpace(s[|s| - 1]) {
      TrimmedIs(s[..|s| - 1], r);
      assert IsTrimmed(s, r) <==> IsTrimmed(s[..|s| - 1], r);
    } else if IsTrimmed(s, r) {
      assert |r| == |s|;
    }
  }

  /** Arguments that come as one JSON object, ready or on the way. */
  predicate StartsObject(text: string) {
    text != "" && text[0] == '{'
  }

  lemma ObjectTrimmed(text: string)
    ensures StartsObject(text) <==> TrimTrailing(text) != "" && TrimTrailing(text)[0] == '{'
  {
    TrimmedIs(text, TrimTrailing(text));
    var t := TrimTrailing(text);
    assert text != "" && t == "" ==> IsSpace(text[0]);
  }

  method TrimTrailingSpace(s: string) returns (r: string)
    ensures r == TrimTrailing(s) && IsTrimmed(s, r)
  {
    TrimmedIs(s, TrimTrailing(s));
    r := s;
    while r != [] && IsSpace(r[|r| - 1])
      invariant TrimTrailing(r) == TrimTrailing(s)
      decreases |r|
    {
      r := r[..|r| - 1];
    }
  }

  /** White space in the usual locale: the space, and the five control characters from tab to carriage return. */
  lemma SpaceCodes(c: char)
    ensures IsSpace(c) <==> c as int == 32 || 9 <= c as int <= 13
  {
  }

  /** Trimmed text: nothing is left of white space behind it, and of that in front all but its first character. */
  lemma TrimSpelled(lead: string, core: string, tail: string)
    requires forall i | 0 <= i < |lead| :: IsSpace(lead[i])
    requires forall i | 0 <= i < |tail| :: IsSpace(tail[i])
    requires core != "" && !IsSpace(core[0]) && !IsSpace(core[|core| - 1])
    ensures TrimTrailing(core + tail) == core
    ensures Trim(lead + core + tail) == (if lead == "" then core else lead[1..] + core)
  {
    hide IsSpace, TrimTrailing;
    var kept := if lead == "" then core else lead[1..] + core;
    var s := lead + core + tail;
    assert (if lead == "" then s else s[1..]) == kept + tail;
    if lead == "" { assert s[0] == core[0]; } else { assert s[0] == lead[0]; }
    WithoutTail(kept, tail);
    WithoutTail(core, tail);
  }

  lemma WithoutTail(core: string, tail: string)
    requires forall i | 0 <= i < |tail| :: IsSpace(tail[i])
    requires core != "" && !IsSpace(core[|core| - 1])
    ensures TrimTrailing(core + tail) == core
  {
    hide IsSpace;
    TrimmedIs(core + tail, core);
  }

  /** An identifier loses trailing white space and one pair of quotes. */
  function IdText(s: string): string {
    var t := TrimTrailing(s);
    if |t| >= 2 && t[0] == '"' && t[|t| - 1] == '"' then t[1..|t| - 1] else t
  }

  /** An identifier in quotes is what stands between them, and one that is not in quotes stays. */
  lemma IdSpelled(id: string, tail: string)
    requires forall i | 0 <= i < |tail| :: IsSpace(tail[i])
    ensures IdText("\"" + id + "\"" + tail) == id
    ensures id != "" && !IsSpace(id[|id| - 1]) && (id[0] != '"' || |id| == 1 || id[|id| - 1] != '"') ==> IdText(id + tail) == id
  {
    hide IsSpace, TrimTrailing;
    var quoted := "\"" + id + "\"";
    SpaceCodes('"');
    WithoutTail(quoted, tail);
    assert quoted[1..|quoted| - 1] == id;
    if id != "" && !IsSpace(id[|id| - 1]) { WithoutTail(id, tail); }
  }

  // ---------------------------------------------------------------- the mapper's state

  /** Where the pointer to the current tool call leads: nowhere, to the pending call, or to the last result. */
  datatype Slot = Nobody | InPending | InResult

  datatype State = State(content: string, reasoning: string, toolCalls: seq<ToolCall>, pending: Option<ToolCall>,
                         current: Slot, argCount: nat, closingQuotePending: bool, argsBuffer: string)

  /** The pointer never dangles, and a pending call has no name yet. */
  predicate Sound(s: State) {
    && (s.current == InPending <==> s.pending.Some?)
    && (s.current == InResult ==> s.toolCalls != [])
    && (s.pending.Some? ==> s.pending.value.name == "")
  }

  function Current(s: State): ToolCall
    requires Sound(s) && s.current != Nobody
  {
    if s.current == InPending then s.pending.value else s.toolCalls[|s.toolCalls| - 1]
  }

  function WithCurrent(s: State, call: ToolCall): State
    requires Sound(s) && s.current != Nobody
  {
    if s.current == InPending then s.(pending := Some(call))
    else s.(toolCalls := s.toolCalls[..|s.toolCalls| - 1] + [call])
  }

  /** Arguments go to the buffer until the call has a name. */
  function Target(s: State): string
    requires Sound(s)
  {
    if s.current != Nobody && Current(s).name != "" then Current(s).arguments else s.argsBuffer
  }

  function WithTarget(s: State, text: string): State
    requires Sound(s)
  {
    if s.current != Nobody && Current(s).name != "" then WithCurrent(s, Current(s).(arguments := text))
    else s.(argsBuffer := text)
  }

  function Opened(s: State): State {
    s.(pending := Some(ToolCall("", "", "")), current := InPending, argCount := 0, argsBuffer := "", closingQuotePending := false)
  }

  function Named(s: State, name: string): State
    requires Sound(s) && s.current != Nobody
  {
    var call := Current(s).(name := name);
    var call' := if s.argsBuffer != "" then call.(arguments := s.argsBuffer)
                 else if call.arguments == "" then call.(arguments := "{")
                 else call;
    if s.pending.Some? then
      s.(argsBuffer := "", pending := None, toolCalls := s.toolCalls + [call'], current := InResult)
    else
      WithCurrent(s, call').(argsBuffer := "")
  }

  function ArgumentNamed(s: State, text: string): State
    requires Sound(s)
  {
    var target := if Target(s) == "" then "{" else Target(s);
    var entry := (if s.argCount > 0 then "," else "") + (Dump(Trim(text)) + ":");
    WithTarget(s, target + entry).(argCount := s.argCount + 1)
  }

  /** What a value node appends, given whether a string is open. */
  function ValueText(isString: bool, text: string, open: bool): string {
    if isString && text == "" then "\""
    else if isString then (if open then "" else "\"") + EscapeInner(text)
    else Rewrite(Bare, text)
  }

  function Valued(s: State, isString: bool, text: string): State
    requires Sound(s)
  {
    WithTarget(s, Target(s) + ValueText(isString, text, s.closingQuotePending))
    .(closingQuotePending := s.closingQuotePending || isString)
  }

  function Braces(n: int): string
  {
    if n <= 0 then "" else "}" + Braces(n - 1)
  }

  function Closed(s: State): State
    requires Sound(s) && s.current != Nobody
  {
    var call := Current(s);
    var flush := call.name == "" && s.argsBuffer != "";
    var text := (if flush then s.argsBuffer else call.arguments) + (if s.closingQuotePending then "\"" else "");
    var call' := call.(arguments := text + Braces(ScanFrom(START, text).depth));
    var s' := WithCurrent(s, call').(argsBuffer := if flush then "" else s.argsBuffer, closingQuotePending := false);
    if s.pending.None? then s'
    else s'.(toolCalls := if call'.name != "" then s.toolCalls + [call'] else s.toolCalls, pending := None, current := Nobody)
  }

  /** One node. */
  function Step(s: State, n: Node): (s': State)
    requires Sound(s)
    ensures Sound(s')
  {
    if n.tag == Reasoning then s.(reasoning := s.reasoning + n.sanitized)
    else if n.tag == Content then s.(content := s.content + n.sanitized)
    else if n.tag == ToolOpen then Opened(s)
    else if n.tag == ArgOpen then s.(closingQuotePending := false)
    else if s.current == Nobody then s
    else if n.tag == ToolId then WithCurrent(s, Current(s).(id := IdText(n.text)))
    else if n.tag == ToolName then Named(s, TrimTrailing(n.text))
    else if n.tag == ToolArgs then
      var t := TrimTrailing(n.text);
      if t != [] && t[0] == '{' then WithTarget(s, t) else s
    else if n.tag == ArgName then ArgumentNamed(s, n.text)
    else if n.tag == ArgValue then Valued(s, false, n.text)
    else if n.tag == ArgStringValue then Valued(s, true, n.text)
    else if n.tag == ArgClose && s.closingQuotePending then
      WithTarget(s, Target(s) + "\"").(closingQuotePending := false)
    else if n.tag == ToolClose then Closed(s)
    else s
  }

  function Run(s: State, nodes: seq<Node>): (s': State)
    requires Sound(s)
    ensures Sound(s')
    decreases nodes
  {
    if nodes == [] then s else Run(Step(s, nodes[0]), nodes[1..])
  }

  lemma {:induction false} RunConcat(s: State, a: seq<Node>, b: seq<Node>)
    requires Sound(s)
    ensures Run(s, a + b) == Run(Run(s, a), b)
    decreases a
  {
    if a == [] {
      assert a + b == b;
    } else {
      assert (a + b)[1..] == a[1..] + b;
      RunConcat(Step(s, a[0]), a[1..], b);
    }
  }

  /** The text of all nodes with a tag, in order. */
  function Texts(nodes: seq<Node>, tag: Tag): string {
    if nodes == [] then "" else (if nodes[0].tag == tag then nodes[0].sanitized else "") + Texts(nodes[1..], tag)
  }

  /** The texts of two lists of nodes are those of the first and then those of the second. */
  lemma {:induction false} TextsConcat(a: seq<Node>, b: seq<Node>, tag: Tag)
    ensures Texts(a + b, tag) == Texts(a, tag) + Texts(b, tag)
  {
    if a == [] {
      assert a + b == b;
    } else {
      assert (a + b)[1..] == a[1..] + b;
      TextsConcat(a[1..], b, tag);
    }
  }

  /** One node with the tag contributes its text, any other nothing. */
  lemma TextsOfOne(n: Node, tag: Tag)
    ensures Texts([n], tag) == if n.tag == tag then n.sanitized else ""
  {
    assert [n][1..] == [];
  }

  lemma {:induction false} TextsHold(nodes: seq<Node>, tag: Tag, i: nat, j: nat)
    requires i < |nodes| && nodes[i].tag == tag && j < |nodes[i].sanitized|
    ensures nodes[i].sanitized[j] in Texts(nodes, tag)
  {
    if i == 0 {
      assert Texts(nodes, tag)[j] == nodes[0].sanitized[j];
    } else {
      TextsHold(nodes[1..], tag, i - 1, j);
      var c, first := nodes[i].sanitized[j], if nodes[0].tag == tag then nodes[0].sanitized else "";
      assert Texts(nodes, tag) == first + Texts(nodes[1..], tag);
    }
  }

  lemma {:induction false} TextsFrom(nodes: seq<Node>, tag: Tag, c: char) returns (i: nat, j: nat)
    requires c in Texts(nodes, tag)
    ensures i < |nodes| && nodes[i].tag == tag && j < |nodes[i].sanitized| && nodes[i].sanitized[j] == c
  {
    var first := if nodes[0].tag == tag then nodes[0].sanitized else "";
    if c in first {
      i := 0;
      j :| 0 <= j < |first| && first[j] == c;
    } else {
      i, j := TextsFrom(nodes[1..], tag, c);
      i := i + 1;
    }
  }

  lemma StepTexts(s: State, n: Node)
    requires Sound(s)
    ensures Step(s, n).content == s.content + if n.tag == Content then n.sanitized else ""
    ensures Step(s, n).reasoning == s.reasoning + if n.tag == Reasoning then n.sanitized else ""
  {
    assert s.content + "" == s.content && s.reasoning + "" == s.reasoning;
    hide Dump, Trim, TrimTrailing, IdText, ValueText, Braces;
  }

  /** A run only appends to content and reasoning: the texts of the nodes with those tags, in order. */
  lemma {:induction false} TextsCollected(s: State, nodes: seq<Node>)
    requires Sound(s)
    ensures Run(s, nodes).content == s.content + Texts(nodes, Content)
    ensures Run(s, nodes).reasoning == s.reasoning + Texts(nodes, Reasoning)
    decreases nodes
  {
    hide Step;
    if nodes == [] {
      assert s.content + "" == s.content && s.reasoning + "" == s.reasoning;
    } else {
      StepTexts(s, nodes[0]);
      TextsCollected(Step(s, nodes[0]), nodes[1..]);
    }
  }

  /** White space by itself is not worth reporting as reasoning. */
  predicate OnlyBlanks(s: string) {
    forall i | 0 <= i < |s| :: s[i] == ' ' || s[i] == '\n' || s[i] == '\r' || s[i] == '\t'
  }

  /** A call that was named but is still pending goes to the results. */
  function Flushed(s: State): State {
    if s.pending.Some? && s.pending.value.name != "" then
      var call := if s.argsBuffer != "" then s.pending.value.(arguments := s.argsBuffer) else s.pending.value;
      var call' := if s.closingQuotePending && call.arguments != "" then call.(arguments := call.arguments + "\"") else call;
      s.(toolCalls := s.toolCalls + [call'], pending := None)
    else s
  }

  /** No sound state has such a call. */
  lemma FlushIdle(s: State)
    requires Sound(s)
    ensures Flushed(s) == s
  {
  }

  /** What is reported: content as it is, and reasoning unless it is nothing but blanks and line ends. */
  lemma FinishedTexts(s: State)
    ensures Finished(s).content == s.content
    ensures Finished(s).reasoning ==
      if forall i | 0 <= i < |s.reasoning| :: s.reasoning[i] in {' ', '\n', '\r', '\t'} then "" else s.reasoning
  {
  }

  function Finished(s: State): State {
    var s1 := Flushed(s);
    if OnlyBlanks(s1.reasoning) then s1.(reasoning := "") else s1
  }

  // ---------------------------------------------------------------- the order of the nodes

  function Weight(nodes: seq<Node>): nat {
    if nodes == [] then 0 else 1 + Weight(nodes[0].children) + Weight(nodes[1..])
  }

  /** The nodes of a forest, each parent before its children. */
  function ParentsFirst(nodes: seq<Node>): seq<Node> {
    if nodes == [] then [] else [nodes[0]] + ParentsFirst(nodes[0].children) + ParentsFirst(nodes[1..])
  }

  /** What a stack of nodes, its top last, still has to visit. */
  ghost function Unvisited(stack: seq<Node>): seq<Node> {
    if stack == [] then []
    else ParentsFirst([stack[|stack| - 1]]) + Unvisited(stack[..|stack| - 1])
  }

  ghost function StackWeight(stack: seq<Node>): nat {
    if stack == [] then 0 else Weight([stack[|stack| - 1]]) + StackWeight(stack[..|stack| - 1])
  }

  function Reversed(nodes: seq<Node>): (r: seq<Node>)
    ensures |r| == |nodes|
  {
    if nodes == [] then [] else Reversed(nodes[1..]) + [nodes[0]]
  }

  lemma {:induction false} PushChildren(stack: seq<Node>, children: seq<Node>)
    ensures Unvisited(stack + Reversed(children)) == ParentsFirst(children) + Unvisited(stack)
    ensures StackWeight(stack + Reversed(children)) == Weight(children) + StackWeight(stack)
    decreases children
  {
    if children == [] {
      assert stack + Reversed(children) == stack;
    } else {
      var t := stack + Reversed(children);
      assert t == (stack + Reversed(children[1..])) + [children[0]];
      PushOne(stack + Reversed(children[1..]), children[0]);
      PushChildren(stack, children[1..]);
      var a, b, c := [children[0]] + ParentsFirst(children[0].children), ParentsFirst(children[1..]), Unvisited(stack);
      assert a + (b + c) == (a + b) + c;
    }
  }

  lemma PushOne(stack: seq<Node>, node: Node)
    ensures Unvisited(stack + [node]) == [node] + ParentsFirst(node.children) + Unvisited(stack)
    ensures StackWeight(stack + [node]) == 1 + Weight(node.children) + StackWeight(stack)
  {
    var t := stack + [node];
    assert t[..|t| - 1] == stack && t[|t| - 1] == node;
    assert [node][1..] == [];
    var own := [node] + ParentsFirst(node.children);
    assert ParentsFirst([node]) == own + [] == own;
    assert Weight([node]) == 1 + Weight(node.children) + Weight([]);
  }
}
