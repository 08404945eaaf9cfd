/** The differences between two states of a streamed reply, and what a client makes of them. */
module MessageDiffs {
  import opened Wrappers
  import opened Messages

  const EMPTY := Message("", "", [])

  /** New reasoning, new content, and what is new about one tool call. */
  datatype Diff = Diff(reasoning: string, content: string, index: Option<nat>, call: ToolCall)

  /** The new text is no continuation of the old one. */
  datatype Error = Invalid

  // ---------------------------------------------------------------- differences

  /** What was added to a text; nothing if it got shorter, and no answer if it changed otherwise. */
  function StringDiff(last: string, current: string): Result<string, Error> {
    if last == "" then Ok(current)
    else if last <= current then Ok(current[|last|..])
    else if current <= last then Ok("")
    else Err(Invalid)
  }

  const NO_CALL := ToolCall("", "", "")

  /** The diffs for reasoning and content, if these changed. */
  function TextDiffs(prv: Message, new': Message): Result<seq<Diff>, Error> {
    var r, c := StringDiff(prv.reasoning, new'.reasoning), StringDiff(prv.content, new'.content);
    if (prv.reasoning != new'.reasoning && r.Err?) || (prv.content != new'.content && c.Err?) then Err(Invalid)
    else Ok((if prv.reasoning != new'.reasoning then [Diff(r.value, "", None, NO_CALL)] else [])
          + (if prv.content != new'.content then [Diff("", c.value, None, NO_CALL)] else []))
  }

  /** The diff for the last call that was known before. */
  function LastCallDiff(idx: nat, pref: ToolCall, newf: ToolCall): Result<seq<Diff>, Error> {
    if pref.name != newf.name && pref.name != "" && newf.name != "" && !(pref.name <= newf.name) then Err(Invalid)
    else
      var args := StringDiff(pref.arguments, newf.arguments);
      if args.Err? then Err(Invalid)
      else
        var head := pref.id != newf.id || pref.name != newf.name;
        if args.value != "" || head then
          Ok([Diff("", "", Some(idx), ToolCall(if head then newf.name else "", args.value, if head then newf.id else ""))])
        else Ok([])
  }

  /** Calls that were not known before are reported whole. */
  function NewCallDiffs(calls: seq<ToolCall>, from: nat): seq<Diff>
    requires from <= |calls|
    decreases |calls| - from
  {
    if from == |calls| then [] else [Diff("", "", Some(from), calls[from])] + NewCallDiffs(calls, from + 1)
  }

  function LastDiffs(old': seq<ToolCall>, calls: seq<ToolCall>): Result<seq<Diff>, Error>
    requires |old'| <= |calls|
  {
    var n := |old'|;
    if n == 0 then Ok([]) else LastCallDiff(n - 1, old'[n - 1], calls[n - 1])
  }

  function Diffs(prv: Message, new': Message): Result<seq<Diff>, Error> {
    var texts := TextDiffs(prv, new');
    if texts.Err? || |new'.toolCalls| < |prv.toolCalls| then Err(Invalid)
    else
      var last := LastDiffs(prv.toolCalls, new'.toolCalls);
      if last.Err? then Err(Invalid)
      else Ok(texts.value + (last.value + NewCallDiffs(new'.toolCalls, |prv.toolCalls|)))
  }

  /** The diffs, built up one after the other. */
  method ComputeDiffs(prv: Message, new': Message) returns (r: Result<seq<Diff>, Error>)
    ensures r == Diffs(prv, new')
  {
    hide StringDiff, NewCallDiffs, LastCallDiff;
    var diffs: seq<Diff> := [];
    if prv.reasoning != new'.reasoning {
      var d := StringDiff(prv.reasoning, new'.reasoning);
      if d.Err? { return Err(Invalid); }
      diffs := diffs + [Diff(d.value, "", None, NO_CALL)];
    }
    if prv.content != new'.content {
      var d := StringDiff(prv.content, new'.content);
      if d.Err? { return Err(Invalid); }
      diffs := diffs + [Diff("", d.value, None, NO_CALL)];
    }
    ghost var texts := diffs;
    assert texts == TextDiffs(prv, new').value;
    if |new'.toolCalls| < |prv.toolCalls| {
      return Err(Invalid);
    }
    if prv.toolCalls != [] {
      var idx := |prv.toolCalls| - 1;
      var d := DiffLastCall(idx, prv.toolCalls[idx], new'.toolCalls[idx]);
      if d.Err? { return Err(Invalid); }
      diffs := diffs + d.value;
    }
    ghost var last := LastDiffs(prv.toolCalls, new'.toolCalls);
    assert last.Ok? && diffs == texts + last.value;
    diffs := AppendNewCalls(diffs, new'.toolCalls, |prv.toolCalls|);
    assert (texts + last.value) + NewCallDiffs(new'.toolCalls, |prv.toolCalls|)
        == texts + (last.value + NewCallDiffs(new'.toolCalls, |prv.toolCalls|));
    return Ok(diffs);
  }

  /** The part about the last call that was known before. */
  method DiffLastCall(idx: nat, pref: ToolCall, newf: ToolCall) returns (r: Result<seq<Diff>, Error>)
    ensures r == LastCallDiff(idx, pref, newf)
  {
    hide StringDiff;
    if pref.name != newf.name && pref.name != "" && newf.name != "" {
      if !(pref.name <= newf.name) { return Err(Invalid); }
    }
    var args := StringDiff(pref.arguments, newf.arguments);
    if args.Err? { return Err(Invalid); }
    var diffs: seq<Diff> := [];
    if args.value != "" || pref.id != newf.id || pref.name != newf.name {
      var call := NO_CALL;
      if pref.id != newf.id || pref.name != newf.name {
        call := call.(id := newf.id, name := newf.name);
      }
      diffs := [Diff("", "", Some(idx), call.(arguments := args.value))];
    }
    return Ok(diffs);
  }

  /** The loop over the calls that were not known before. */
  method AppendNewCalls(diffs: seq<Diff>, calls: seq<ToolCall>, from: nat) returns (r: seq<Diff>)
    requires from <= |calls|
    ensures r == diffs + NewCallDiffs(calls, from)
  {
    r := diffs;
    for idx := from to |calls|
      invariant diffs + NewCallDiffs(calls, from) == r + NewCallDiffs(calls, idx)
    {
      r := r + [Diff("", "", Some(idx), calls[idx])];
    }
    assert r + [] == r;
  }

  // ---------------------------------------------------------------- the client

  function Padded(calls: seq<ToolCall>, n: nat): (r: seq<ToolCall>)
    ensures |r| >= n && |r| >= |calls| && r[..|calls|] == calls
    ensures |r| == if n > |calls| then n else |calls|
    decreases n
  {
    if |calls| >= n then calls else Padded(calls, n - 1) + [NO_CALL]
  }

  /** A client appends texts and arguments, and takes over a name or an id that is not empty. */
  function Apply(m: Message, d: Diff): Message {
    var m1 := m.(reasoning := m.reasoning + d.reasoning, content := m.content + d.content);
    if d.index.None? then m1
    else
      var calls := Padded(m.toolCalls, d.index.value + 1);
      m1.(toolCalls := calls[d.index.value := Merge(calls[d.index.value], d.call)])
  }

  function Merge(call: ToolCall, delta: ToolCall): ToolCall {
    ToolCall(if delta.name != "" then delta.name else call.name,
             call.arguments + delta.arguments,
             if delta.id != "" then delta.id else call.id)
  }

  function ApplyAll(m: Message, diffs: seq<Diff>): Message
    decreases diffs
  {
    if diffs == [] then m else ApplyAll(Apply(m, diffs[0]), diffs[1..])
  }

  lemma {:induction false} ApplyConcat(m: Message, a: seq<Diff>, b: seq<Diff>)
    ensures ApplyAll(m, a + b) == ApplyAll(ApplyAll(m, a), b)
    decreases a
  {
    if a == [] {
      assert a + b == b;
    } else {
      assert (a + b)[1..] == a[1..] + b;
      ApplyConcat(Apply(m, a[0]), a[1..], b);
    }
  }

  // ---------------------------------------------------------------- growth

  /** A name or an id may be filled in or replaced, but not taken back; names may only be extended. */
  predicate CallGrows(a: ToolCall, b: ToolCall) {
    && a.arguments <= b.arguments
    && a.name <= b.name
    && (a.id != "" ==> b.id != "")
  }

  /** Earlier calls stay as they are, and the last known one grows. */
  predicate CallsGrow(old': seq<ToolCall>, calls: seq<ToolCall>) {
    var n := |old'|;
    n <= |calls| && (n > 0 ==> old'[..n - 1] == calls[..n - 1] && CallGrows(old'[n - 1], calls[n - 1]))
  }

  predicate MessageGrows(a: Message, b: Message) {
    a.reasoning <= b.reasoning && a.content <= b.content && CallsGrow(a.toolCalls, b.toolCalls)
  }

  lemma CallsGrowOn(a: seq<ToolCall>, b: seq<ToolCall>, c: seq<ToolCall>)
    requires CallsGrow(a, b) && CallsGrow(b, c)
    ensures CallsGrow(a, c)
  {
    var n := |a|;
    if n > 0 {
      assert a[..n - 1] == b[..n - 1] && b[..|b| - 1][..n - 1] == c[..|b| - 1][..n - 1];
      assert b[..|b| - 1][..n - 1] == b[..n - 1] && c[..|b| - 1][..n - 1] == c[..n - 1];
      if n < |b| { assert b[..|b| - 1][n - 1] == c[..|b| - 1][n - 1]; }
    }
  }

  lemma TextsApplied(prv: Message, new': Message)
    requires TextDiffs(prv, new').Ok?
    ensures var m := ApplyAll(prv, TextDiffs(prv, new').value);
            && m.toolCalls == prv.toolCalls
            && (m.reasoning == new'.reasoning <==> prv.reasoning <= new'.reasoning)
            && (m.content == new'.content <==> prv.content <= new'.content)
  {
    var r, c := StringDiff(prv.reasoning, new'.reasoning), StringDiff(prv.content, new'.content);
    var dr: seq<Diff> := if prv.reasoning != new'.reasoning then [Diff(r.value, "", None, NO_CALL)] else [];
    var dc: seq<Diff> := if prv.content != new'.content then [Diff("", c.value, None, NO_CALL)] else [];
    ApplyConcat(prv, dr, dc);
    var m1 := ApplyAll(prv, dr);
    AddedText(prv.reasoning, new'.reasoning);
    AddedText(prv.content, new'.content);
    assert prv.content + "" == prv.content;
    assert m1 == prv.(reasoning := if dr == [] then prv.reasoning else prv.reasoning + r.value) by {
      if dr != [] { assert dr[1..] == []; }
    }
    assert m1.reasoning + "" == m1.reasoning;
    if dc != [] { assert dc[1..] == []; }
  }

  lemma AddedText(last: string, current: string)
    requires StringDiff(last, current).Ok?
    ensures last + StringDiff(last, current).value == current <==> last <= current
  {
  }

  /** What the client makes of the last known call. */
  function MergedLast(idx: nat, pref: ToolCall, newf: ToolCall): ToolCall
    requires LastCallDiff(idx, pref, newf).Ok?
  {
    var d := LastCallDiff(idx, pref, newf).value;
    if d == [] then pref else Merge(pref, d[0].call)
  }

  lemma MergedIsNew(idx: nat, pref: ToolCall, newf: ToolCall)
    ensures CallGrows(pref, newf) ==> LastCallDiff(idx, pref, newf).Ok?
    ensures LastCallDiff(idx, pref, newf).Ok? ==> (MergedLast(idx, pref, newf) == newf <==> CallGrows(pref, newf))
  {
    if LastCallDiff(idx, pref, newf).Ok? {
      AddedText(pref.arguments, newf.arguments);
      assert pref.arguments + "" == pref.arguments;
    }
  }

  lemma LastCallApplied(m: Message, newf: ToolCall)
    requires m.toolCalls != [] && LastCallDiff(|m.toolCalls| - 1, m.toolCalls[|m.toolCalls| - 1], newf).Ok?
    ensures var n := |m.toolCalls| - 1;
            ApplyAll(m, LastCallDiff(n, m.toolCalls[n], newf).value)
            == m.(toolCalls := m.toolCalls[n := MergedLast(n, m.toolCalls[n], newf)])
  {
    hide StringDiff, Merge;
    var n := |m.toolCalls| - 1;
    var d := LastCallDiff(n, m.toolCalls[n], newf).value;
    assert m.toolCalls[n := m.toolCalls[n]] == m.toolCalls;
    if d != [] {
      assert d[1..] == [];
      assert m.reasoning + "" == m.reasoning && m.content + "" == m.content;
      assert Padded(m.toolCalls, n + 1) == m.toolCalls;
    }
  }

  lemma NewCallApplied(m: Message, call: ToolCall)
    ensures Apply(m, Diff("", "", Some(|m.toolCalls|), call)) == m.(toolCalls := m.toolCalls + [call])
  {
    assert Padded(m.toolCalls, |m.toolCalls| + 1) == m.toolCalls + [NO_CALL];
    assert "" + call.arguments == call.arguments;
    assert m.reasoning + "" == m.reasoning && m.content + "" == m.content;
  }

  lemma {:induction false} NewCallsApplied(m: Message, calls: seq<ToolCall>, from: nat)
    requires from == |m.toolCalls| <= |calls|
    ensures ApplyAll(m, NewCallDiffs(calls, from)) == m.(toolCalls := m.toolCalls + calls[from..])
    decreases |calls| - from
  {
    hide Apply;
    if from < |calls| {
      NewCallApplied(m, calls[from]);
      var m1 := m.(toolCalls := m.toolCalls + [calls[from]]);
      NewCallsApplied(m1, calls, from + 1);
      assert m.toolCalls + [calls[from]] + calls[from + 1..] == m.toolCalls + calls[from..];
      assert NewCallDiffs(calls, from)[1..] == NewCallDiffs(calls, from + 1);
    } else {
      assert m.toolCalls + calls[from..] == m.toolCalls;
    }
  }

  lemma CallsApplied(m: Message, calls: seq<ToolCall>)
    requires |m.toolCalls| <= |calls| && LastDiffs(m.toolCalls, calls).Ok?
    ensures var m' := ApplyAll(m, LastDiffs(m.toolCalls, calls).value + NewCallDiffs(calls, |m.toolCalls|));
            && m'.reasoning == m.reasoning && m'.content == m.content
            && (m'.toolCalls == calls <==> CallsGrow(m.toolCalls, calls))
  {
    hide LastCallDiff, CallGrows, NewCallDiffs, Apply, MergedLast;
    var n := |m.toolCalls|;
    var last := LastDiffs(m.toolCalls, calls).value;
    ApplyConcat(m, last, NewCallDiffs(calls, n));
    if n == 0 {
      NewCallsApplied(m, calls, 0);
      assert m.toolCalls + calls[0..] == calls;
    } else {
      LastCallApplied(m, calls[n - 1]);
      MergedIsNew(n - 1, m.toolCalls[n - 1], calls[n - 1]);
      NewCallsApplied(ApplyAll(m, last), calls, n);
      ReplacedLast(m.toolCalls, MergedLast(n - 1, m.toolCalls[n - 1], calls[n - 1]), calls);
    }
  }

  lemma ReplacedLast(old': seq<ToolCall>, c: ToolCall, calls: seq<ToolCall>)
    requires 0 < |old'| <= |calls|
    ensures var n := |old'|;
            old'[n - 1 := c] + calls[n..] == calls <==> old'[..n - 1] == calls[..n - 1] && c == calls[n - 1]
  {
    var n := |old'|;
    var all := old'[n - 1 := c] + calls[n..];
    assert all[..n - 1] == old'[..n - 1] && all[n - 1] == c;
    assert calls == calls[..n - 1] + [calls[n - 1]] + calls[n..] && all == old'[..n - 1] + [c] + calls[n..];
  }

  lemma GrowthHasDiffs(prv: Message, new': Message)
    requires MessageGrows(prv, new')
    ensures Diffs(prv, new').Ok?
  {
    var n := |prv.toolCalls|;
    if n > 0 {
      MergedIsNew(n - 1, prv.toolCalls[n - 1], new'.toolCalls[n - 1]);
    }
  }

  /** One step: the diffs exist and take the old message to the new one exactly when the message grew. */
  lemma DiffsRebuild(prv: Message, new': Message)
    ensures Diffs(prv, new').Ok? && ApplyAll(prv, Diffs(prv, new').value) == new' <==> MessageGrows(prv, new')
  {
    if MessageGrows(prv, new') {
      GrowthHasDiffs(prv, new');
    }
    hide StringDiff, LastDiffs, NewCallDiffs, CallsGrow, TextDiffs, Apply;
    if Diffs(prv, new').Ok? {
      var texts := TextDiffs(prv, new').value;
      ApplyConcat(prv, texts, LastDiffs(prv.toolCalls, new'.toolCalls).value + NewCallDiffs(new'.toolCalls, |prv.toolCalls|));
      TextsApplied(prv, new');
      CallsApplied(ApplyAll(prv, texts), new'.toolCalls);
    }
  }

  /** Neither of two texts starts with the other. */
  predicate Diverge(a: string, b: string) {
    !(a <= b) && !(b <= a)
  }

  /** Arguments that diverge, or another name that does not start with the old one. */
  predicate CallDiverges(a: ToolCall, b: ToolCall) {
    Diverge(a.arguments, b.arguments) || (b.name != "" && !(a.name <= b.name))
  }

  /** Diffs are refused exactly when a text diverges, a call is missing, or the last known call diverges. */
  lemma RefusedExactly(prv: Message, new': Message)
    ensures var n := |prv.toolCalls|;
      Diffs(prv, new') == Err(Invalid) <==>
        || Diverge(prv.reasoning, new'.reasoning) || Diverge(prv.content, new'.content)
        || |new'.toolCalls| < n || (n > 0 && CallDiverges(prv.toolCalls[n - 1], new'.toolCalls[n - 1]))
  {
  }

  // ---------------------------------------------------------------- nothing but what is new

  lemma AddedOnly(last: string, x: string)
    ensures StringDiff(last, last + x) == Ok(x)
  {
    assert (last + x)[|last|..] == x;
    assert x != "" ==> !(last + x <= last);
  }

  /** The diffs, put together from the three parts. */
  lemma DiffsAre(prv: Message, new': Message, texts: seq<Diff>, last: seq<Diff>, more: seq<Diff>)
    requires |prv.toolCalls| <= |new'.toolCalls|
    requires TextDiffs(prv, new') == Ok(texts) && LastDiffs(prv.toolCalls, new'.toolCalls) == Ok(last)
    requires NewCallDiffs(new'.toolCalls, |prv.toolCalls|) == more
    ensures Diffs(prv, new') == Ok(texts + (last + more))
  {
    hide TextDiffs, LastDiffs, NewCallDiffs;
  }

  lemma SameTexts(prv: Message, new': Message)
    requires prv.reasoning == new'.reasoning && prv.content == new'.content
    ensures TextDiffs(prv, new') == Ok([])
  {
    hide StringDiff;
    var none: seq<Diff> := [];
    assert none + none == none;
  }

  lemma SameLast(calls: seq<ToolCall>, new': seq<ToolCall>)
    requires |calls| <= |new'| && (calls != [] ==> calls[|calls| - 1] == new'[|calls| - 1])
    ensures LastDiffs(calls, new') == Ok([])
  {
    if calls != [] {
      var last := calls[|calls| - 1].arguments;
      assert last + "" == last;
      AddedOnly(last, "");
    }
  }

  lemma NoMore(calls: seq<ToolCall>)
    ensures NewCallDiffs(calls, |calls|) == []
  {
  }

  /** A message that is the same has no diffs, and one call more is sent whole and alone. */
  lemma OnlyNewCall(m: Message, call: ToolCall)
    ensures Diffs(m, m) == Ok([])
    ensures Diffs(m, m.(toolCalls := m.toolCalls + [call])) == Ok([Diff("", "", Some(|m.toolCalls|), call)])
  {
    hide LastDiffs, TextDiffs, Diffs;
    var more := m.(toolCalls := m.toolCalls + [call]);
    SameTexts(m, m);
    SameTexts(m, more);
    SameLast(m.toolCalls, m.toolCalls);
    SameLast(m.toolCalls, more.toolCalls);
    NoMore(m.toolCalls);
    NoMore(more.toolCalls);
    var d := [Diff("", "", Some(|m.toolCalls|), call)];
    assert NewCallDiffs(more.toolCalls, |m.toolCalls|) == d + [] == d;
    var none: seq<Diff> := [];
    DiffsAre(m, m, [], [], []);
    DiffsAre(m, more, [], [], d);
    assert none + (none + d) == d && none + (none + none) == none;
  }

  /** Text that is added to the content or to the reasoning is sent alone. */
  lemma OnlyNewText(m: Message, x: string)
    requires x != ""
    ensures Diffs(m, m.(content := m.content + x)) == Ok([Diff("", x, None, NO_CALL)])
    ensures Diffs(m, m.(reasoning := m.reasoning + x)) == Ok([Diff(x, "", None, NO_CALL)])
  {
    hide LastDiffs, Diffs, StringDiff, NewCallDiffs;
    AddedOnly(m.content, x);
    AddedOnly(m.reasoning, x);
    assert |m.content + x| > |m.content| && |m.reasoning + x| > |m.reasoning|;
    var c, r := [Diff("", x, None, NO_CALL)], [Diff(x, "", None, NO_CALL)];
    assert [] + c == c && r + [] == r;
    SameLast(m.toolCalls, m.toolCalls);
    NoMore(m.toolCalls);
    DiffsAre(m, m.(content := m.content + x), c, [], []);
    DiffsAre(m, m.(reasoning := m.reasoning + x), r, [], []);
    assert c + ([] + []) == c && r + ([] + []) == r;
  }

  lemma LastCallOnly(m: Message, call: ToolCall, d: Diff)
    requires m.toolCalls != []
    requires var n := |m.toolCalls| - 1; LastCallDiff(n, m.toolCalls[n], call) == Ok([d])
    ensures Diffs(m, m.(toolCalls := m.toolCalls[|m.toolCalls| - 1 := call])) == Ok([d])
  {
    hide LastCallDiff, Diffs, TextDiffs, NewCallDiffs;
    var more := m.(toolCalls := m.toolCalls[|m.toolCalls| - 1 := call]);
    SameTexts(m, more);
    NoMore(more.toolCalls);
    DiffsAre(m, more, [], [d], []);
    assert [] + ([d] + []) == [d];
  }

  /** Arguments that are added to the last call are sent without its name and id. */
  lemma OnlyNewArguments(m: Message, x: string)
    requires x != "" && m.toolCalls != []
    ensures var n := |m.toolCalls| - 1;
      var call := m.toolCalls[n];
      Diffs(m, m.(toolCalls := m.toolCalls[n := call.(arguments := call.arguments + x)]))
      == Ok([Diff("", "", Some(n), ToolCall("", x, ""))])
  {
    hide Diffs, StringDiff;
    var n := |m.toolCalls| - 1;
    var call := m.toolCalls[n];
    AddedOnly(call.arguments, x);
    LastCallOnly(m, call.(arguments := call.arguments + x), Diff("", "", Some(n), ToolCall("", x, "")));
  }

  /** A name or an id that is new to the last call is sent with both, and with the added arguments. */
  lemma NewNameOrId(m: Message, call: ToolCall, x: string)
    requires m.toolCalls != []
    requires var old' := m.toolCalls[|m.toolCalls| - 1];
      && old'.name <= call.name && (old'.name != call.name || old'.id != call.id) && call.arguments == old'.arguments + x
    ensures var n := |m.toolCalls| - 1;
      Diffs(m, m.(toolCalls := m.toolCalls[n := call])) == Ok([Diff("", "", Some(n), ToolCall(call.name, x, call.id))])
  {
    hide Diffs, StringDiff;
    var n := |m.toolCalls| - 1;
    AddedOnly(m.toolCalls[n].arguments, x);
    LastCallOnly(m, call, Diff("", "", Some(n), ToolCall(call.name, x, call.id)));
  }

  // ---------------------------------------------------------------- runs

  /** A reply that only grows, state by state. */
  predicate Growing(states: seq<Message>) {
    forall i | 0 <= i < |states| - 1 :: MessageGrows(states[i], states[i + 1])
  }

  /** All diffs that are sent while the reply goes through these states. */
  function AllDiffs(states: seq<Message>): Result<seq<Diff>, Error> {
    if |states| <= 1 then Ok([])
    else
      var first, rest := Diffs(states[0], states[1]), AllDiffs(states[1..]);
      if first.Err? || rest.Err? then Err(Invalid) else Ok(first.value + rest.value)
  }

  /** A client that applies all diffs of a growing reply, in order, ends with the final reply. */
  lemma {:induction false} StreamRebuilds(states: seq<Message>)
    requires states != [] && Growing(states)
    ensures AllDiffs(states).Ok? && ApplyAll(states[0], AllDiffs(states).value) == states[|states| - 1]
  {
    hide Diffs, MessageGrows;
    if |states| > 1 {
      assert MessageGrows(states[0], states[1]);
      DiffsRebuild(states[0], states[1]);
      StreamRebuilds(states[1..]);
      ApplyConcat(states[0], Diffs(states[0], states[1]).value, AllDiffs(states[1..]).value);
    }
  }
}
