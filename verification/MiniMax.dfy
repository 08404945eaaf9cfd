/** The recursive printer that turns a partly parsed argument tree into JSON text while it streams in. */
module MiniMax {
  import opened Wrappers
  import opened JsonText

  datatype Tag =
    | Reasoning | Content
    | Tool | ToolName
    | Arg | ArgItem | ArgName
    | ArgValue | ArgStringValue | ArgObject | ArgArray
    | OtherTag

  /** A syntax tree node; `sanitized` is its text with invalid UTF-8 replaced. */
  datatype Node = Node(tag: Tag, text: string, sanitized: string, partial: bool, children: seq<Node>)

  function Size(n: Node): nat {
    1 + SizeAll(n.children)
  }

  function SizeAll(nodes: seq<Node>): nat {
    if nodes == [] then 0 else Size(nodes[0]) + SizeAll(nodes[1..])
  }

  lemma {:induction false} SizeAllConcat(a: seq<Node>, b: seq<Node>)
    ensures SizeAll(a + b) == SizeAll(a) + SizeAll(b)
  {
    if a == [] {
      assert a + b == b;
    } else {
      assert (a + b)[1..] == a[1..] + b;
      SizeAllConcat(a[1..], b);
    }
  }

  // ---------------------------------------------------------------- looking into the tree

  /** The nodes with a tag, in order, without looking inside them. */
  function Collect(nodes: seq<Node>, tag: Tag): (r: seq<Node>)
    ensures SizeAll(r) <= SizeAll(nodes)
  {
    if nodes == [] then []
    else
      var first := if nodes[0].tag == tag then [nodes[0]] else Collect(nodes[0].children, tag);
      SizeAllConcat(first, Collect(nodes[1..], tag));
      first + Collect(nodes[1..], tag)
  }

  predicate IsValueTag(t: Tag) {
    t == ArgValue || t == ArgStringValue || t == ArgObject || t == ArgArray
  }

  /** The first child that is a value. */
  function ValueOf(children: seq<Node>): (r: Option<Node>)
    ensures r.Some? ==> Size(r.value) <= SizeAll(children) && IsValueTag(r.value.tag)
  {
    if children == [] then None
    else if IsValueTag(children[0].tag) then Some(children[0])
    else ValueOf(children[1..])
  }

  /** The first node with a tag, parents before children, at most `depth` levels down. */
  function FindByTag(children: seq<Node>, tag: Tag, depth: nat): Option<Node>
    decreases depth, children
  {
    if children == [] then None
    else if children[0].tag == tag then Some(children[0])
    else if depth > 1 && FindByTag(children[0].children, tag, depth - 1).Some? then FindByTag(children[0].children, tag, depth - 1)
    else FindByTag(children[1..], tag, depth)
  }

  const MAX_DEPTH: nat := 3

  // ---------------------------------------------------------------- printing

  function ValueText(v: Option<Node>, closed: bool): string
    decreases if v.Some? then Size(v.value) else 0, 1
  {
    if v.None? then ""
    else if v.value.tag == ArgObject then ContainerText(v.value, true, closed)
    else if v.value.tag == ArgArray then ContainerText(v.value, false, closed)
    else if v.value.tag == ArgStringValue then "\"" + EscapeInner(v.value.text) + (if closed then "\"" else "")
    else v.value.text
  }

  function ContainerText(n: Node, isObject: bool, closed: bool): string
    decreases Size(n), 0
  {
    (if isObject then "{" else "[")
    + EntriesText(Collect(n.children, if isObject then Arg else ArgItem), isObject, false)
    + (if !closed then "" else if isObject then "}" else "]")
  }

  /** The entries with commas in between; an entry without text leaves no trace. */
  function EntriesText(entries: seq<Node>, isObject: bool, comma: bool): string
    decreases SizeAll(entries), 3
  {
    if entries == [] then ""
    else
      var text := EntryText(entries[0], isObject);
      if text == "" then EntriesText(entries[1..], isObject, comma)
      else (if comma then "," else "") + (text + EntriesText(entries[1..], isObject, true))
  }

  function EntryText(e: Node, isObject: bool): string
    decreases Size(e), 2
  {
    if isObject then
      var name := FindByTag(e.children, ArgName, MAX_DEPTH);
      if name.None? then "" else Dump(name.value.text) + (":" + ValueText(ValueOf(e.children), !e.partial))
    else ValueText(ValueOf(e.children), !e.partial)
  }

  // ---------------------------------------------------------------- growth

  /** Nodes that the parser reports only when they are complete. */
  predicate IsAtomic(t: Tag) {
    t == ArgName || t == ToolName
  }

  /**
   A tree that has been read further: only a partial node changes, its text gets longer, and of its
   children only the last one may have changed, with more children after it.
   */
  predicate Grows(a: Node, b: Node)
    decreases a, 0
  {
    || a == b
    || (a.partial && !IsAtomic(a.tag) && a.tag == b.tag && TextsGrow(a, b) && GrowsAll(a.children, b.children))
  }

  /** The text gets longer; so does what reasoning and content show of it. */
  predicate TextsGrow(a: Node, b: Node) {
    a.text <= b.text && (a.tag == Reasoning || a.tag == Content ==> a.sanitized <= b.sanitized)
  }

  predicate GrowsAll(a: seq<Node>, b: seq<Node>)
    decreases a, 1
  {
    || a == []
    || (|a| <= |b| && a[..|a| - 1] == b[..|a| - 1] && Grows(a[|a| - 1], b[|a| - 1]))
  }

  lemma GrowsTag(a: Node, b: Node)
    requires Grows(a, b)
    ensures a.tag == b.tag && TextsGrow(a, b) && GrowsAll(a.children, b.children) && (!a.partial ==> a == b)
  {
  }

  /** A front that stays the same may be put before both. */
  lemma GrowsBehind(front: seq<Node>, a: seq<Node>, b: seq<Node>)
    requires GrowsAll(a, b)
    ensures GrowsAll(front + a, front + b)
  {
    hide Grows;
    var x, y := front + a, front + b;
    if a == [] {
      if front != [] {
        assert x == front && y[..|front| - 1] == front[..|front| - 1] && y[|front| - 1] == front[|front| - 1];
        GrowsSame(front[|front| - 1]);
      }
    } else {
      assert x[..|x| - 1] == front + a[..|a| - 1] && y[..|x| - 1] == front + b[..|a| - 1];
    }
  }

  lemma GrowsSame(a: Node)
    ensures Grows(a, a)
  {
  }

  lemma GrowsMore(a: seq<Node>, b: seq<Node>, more: seq<Node>)
    requires GrowsAll(a, b)
    ensures GrowsAll(a, b + more)
  {
    if a != [] {
      assert (b + more)[..|a| - 1] == b[..|a| - 1];
    }
  }

  /** Children that have grown share all but the last, and start the grown list. */
  lemma GrownChildren(a: seq<Node>, b: seq<Node>) returns (front: seq<Node>, x: Node, y: Node, more: seq<Node>)
    requires GrowsAll(a, b) && a != []
    ensures a == front + [x] && b == front + ([y] + more) && Grows(x, y)
  {
    var n := |a| - 1;
    front, x, y, more := a[..n], a[n], b[n], b[n + 1..];
    assert b == b[..n] + ([b[n]] + b[n + 1..]);
  }

  lemma {:induction false} CollectConcat(a: seq<Node>, b: seq<Node>, tag: Tag)
    ensures Collect(a + b, tag) == Collect(a, tag) + Collect(b, tag)
  {
    if a == [] {
      assert a + b == b;
    } else {
      assert (a + b)[0] == a[0] && (a + b)[1..] == a[1..] + b;
      CollectConcat(a[1..], b, tag);
    }
  }

  /** What is collected grows along. */
  lemma {:induction false} CollectGrows(a: seq<Node>, b: seq<Node>, tag: Tag)
    requires GrowsAll(a, b)
    ensures GrowsAll(Collect(a, tag), Collect(b, tag))
    decreases SizeAll(a)
  {
    if a != [] {
      var front, x, y, more := GrownChildren(a, b);
      GrowsTag(x, y);
      SizeAllConcat(front, [x]);
      CollectConcat(front, [x], tag);
      CollectConcat(front, [y] + more, tag);
      CollectConcat([y], more, tag);
      CollectOne(x, tag);
      CollectOne(y, tag);
      if x.tag == tag {
        assert [x][..0] == [y][..0];
      } else {
        assert SizeAll([x]) == Size(x) + SizeAll([]) by { assert [x][1..] == []; }
        CollectGrows(x.children, y.children, tag);
      }
      hide Grows, GrowsAll, Collect;
      GrowsMore(Collect([x], tag), Collect([y], tag), Collect(more, tag));
      GrowsBehind(Collect(front, tag), Collect([x], tag), Collect([y], tag) + Collect(more, tag));
    }
  }

  lemma CollectOne(x: Node, tag: Tag)
    ensures Collect([x], tag) == if x.tag == tag then [x] else Collect(x.children, tag)
  {
    assert [x][1..] == [];
    assert Collect([x][1..], tag) == [];
  }

  lemma {:induction false} FindInFront(front: seq<Node>, rest: seq<Node>, tag: Tag, depth: nat)
    ensures FindByTag(front + rest, tag, depth) ==
            if FindByTag(front, tag, depth).Some? then FindByTag(front, tag, depth) else FindByTag(rest, tag, depth)
    decreases front
  {
    if front == [] {
      assert front + rest == rest;
    } else {
      assert (front + rest)[0] == front[0] && (front + rest)[1..] == front[1..] + rest;
      FindInFront(front[1..], rest, tag, depth);
    }
  }

  lemma FindInOne(x: Node, tag: Tag, depth: nat)
    ensures FindByTag([x], tag, depth) ==
            if x.tag == tag then Some(x) else if depth > 1 then FindByTag(x.children, tag, depth - 1) else None
  {
    assert [x][1..] == [];
    assert FindByTag([x][1..], tag, depth) == None;
  }

  /** A complete node that was found is found again. */
  lemma {:induction false} FindGrows(a: seq<Node>, b: seq<Node>, tag: Tag, depth: nat)
    requires GrowsAll(a, b) && IsAtomic(tag) && FindByTag(a, tag, depth).Some?
    ensures FindByTag(b, tag, depth) == FindByTag(a, tag, depth)
    decreases depth
  {
    var front, x, y, more := GrownChildren(a, b);
    FindInFront(front, [x], tag, depth);
    FindInFront(front, [y] + more, tag, depth);
    FindInFront([y], more, tag, depth);
    FindInOne(x, tag, depth);
    FindInOne(y, tag, depth);
    GrowsTag(x, y);
    if FindByTag(front, tag, depth).None? {
      if x.tag == tag {
        assert x == y;
      } else {
        FindGrows(x.children, y.children, tag, depth - 1);
      }
    }
  }

  lemma {:induction false} ValueInFront(front: seq<Node>, rest: seq<Node>)
    ensures ValueOf(front + rest) == if ValueOf(front).Some? then ValueOf(front) else ValueOf(rest)
  {
    if front == [] {
      assert front + rest == rest;
    } else {
      assert (front + rest)[0] == front[0] && (front + rest)[1..] == front[1..] + rest;
      ValueInFront(front[1..], rest);
    }
  }

  lemma ValueGrows(a: seq<Node>, b: seq<Node>)
    requires GrowsAll(a, b) && ValueOf(a).Some?
    ensures ValueOf(b).Some? && Grows(ValueOf(a).value, ValueOf(b).value)
  {
    var front, x, y, more := GrownChildren(a, b);
    ValueInFront(front, [x]);
    ValueInFront(front, [y] + more);
    ValueInFront([y], more);
    GrowsTag(x, y);
    assert [x][1..] == [] && [y][1..] == [];
  }

  // ---------------------------------------------------------------- the printed text grows

  lemma PrefixBehind(p: string, a: string, b: string)
    requires a <= b
    ensures p + a <= p + b
  {
  }

  lemma PrefixMore(a: string, b: string, more: string)
    requires a <= b
    ensures a <= b + more
  {
  }

  lemma EscapedPrefix(s: string, t: string)
    requires s <= t
    ensures EscapeInner(s) <= EscapeInner(t)
  {
    hide EscapeInner;
    assert t == s + t[|s|..];
    EscapeInnerConcat(s, t[|s|..]);
  }

  lemma {:induction false} ValueTextGrows(a: Node, b: Node, closed: bool)
    requires Grows(a, b)
    ensures ValueText(Some(a), false) <= ValueText(Some(b), closed)
    decreases Size(a), 1
  {
    GrowsTag(a, b);
    if a.tag == ArgObject {
      ContainerGrows(a, b, true, closed);
    } else if a.tag == ArgArray {
      ContainerGrows(a, b, false, closed);
    } else if a.tag == ArgStringValue {
      hide Grows, GrowsAll, EscapeInner;
      EscapedPrefix(a.text, b.text);
      PrefixBehind("\"", EscapeInner(a.text), EscapeInner(b.text));
      PrefixMore("\"" + EscapeInner(a.text), "\"" + EscapeInner(b.text), if closed then "\"" else "");
      assert ("\"" + EscapeInner(a.text)) + "" == "\"" + EscapeInner(a.text);
    }
  }

  lemma {:induction false} ContainerGrows(a: Node, b: Node, isObject: bool, closed: bool)
    requires Grows(a, b)
    ensures ContainerText(a, isObject, false) <= ContainerText(b, isObject, closed)
    decreases Size(a), 0
  {
    var tag := if isObject then Arg else ArgItem;
    GrowsTag(a, b);
    CollectGrows(a.children, b.children, tag);
    EntriesGrow(Collect(a.children, tag), Collect(b.children, tag), isObject, false);
    hide Grows, GrowsAll, Collect, EntriesText;
    var open, x, y := if isObject then "{" else "[", EntriesText(Collect(a.children, tag), isObject, false), EntriesText(Collect(b.children, tag), isObject, false);
    PrefixBehind(open, x, y);
    PrefixMore(open + x, open + y, if !closed then "" else if isObject then "}" else "]");
    assert open + x + "" == open + x;
  }

  lemma {:induction false} EntriesGrow(a: seq<Node>, b: seq<Node>, isObject: bool, comma: bool)
    requires GrowsAll(a, b)
    ensures EntriesText(a, isObject, comma) <= EntriesText(b, isObject, comma)
    decreases SizeAll(a), 3
  {
    if |a| == 1 {
      EntryGrows(a[0], b[0], isObject);
      LastEntry(a, b, isObject, comma);
    } else if |a| > 1 {
      assert a[0] == a[..|a| - 1][0] == b[..|a| - 1][0] == b[0];
      GrowsTail(a, b);
      assert SizeAll(a[1..]) < SizeAll(a);
      hide Grows, GrowsAll, EntryText;
      var text := EntryText(a[0], isObject);
      if text == "" {
        EntriesGrow(a[1..], b[1..], isObject, comma);
      } else {
        EntriesGrow(a[1..], b[1..], isObject, true);
        PrefixBehind(text, EntriesText(a[1..], isObject, true), EntriesText(b[1..], isObject, true));
        PrefixBehind(if comma then "," else "", text + EntriesText(a[1..], isObject, true), text + EntriesText(b[1..], isObject, true));
      }
    }
  }

  lemma GrowsTail(a: seq<Node>, b: seq<Node>)
    requires GrowsAll(a, b) && |a| > 1
    ensures GrowsAll(a[1..], b[1..])
  {
    assert a[1..][..|a| - 2] == a[..|a| - 1][1..] && b[1..][..|a| - 2] == b[..|a| - 1][1..];
  }

  /** Of the last entry, text that is still empty leaves no trace, and other text only gets longer. */
  lemma LastEntry(a: seq<Node>, b: seq<Node>, isObject: bool, comma: bool)
    requires |a| == 1 && b != [] && EntryText(a[0], isObject) <= EntryText(b[0], isObject)
    ensures EntriesText(a, isObject, comma) <= EntriesText(b, isObject, comma)
  {
    hide EntryText;
    var x, y := EntryText(a[0], isObject), EntryText(b[0], isObject);
    assert a[1..] == [];
    assert EntriesText(a[1..], isObject, true) == "" && EntriesText(a[1..], isObject, comma) == "";
    if x != "" {
      assert x + "" == x;
      PrefixMore(x, y, EntriesText(b[1..], isObject, true));
      PrefixBehind(if comma then "," else "", x, y + EntriesText(b[1..], isObject, true));
    }
  }

  lemma {:induction false} EntryGrows(a: Node, b: Node, isObject: bool)
    requires Grows(a, b)
    ensures EntryText(a, isObject) <= EntryText(b, isObject)
    decreases Size(a), 2
  {
    GrowsTag(a, b);
    if a.partial {
      if ValueOf(a.children).Some? {
        ValueGrows(a.children, b.children);
        ValueTextGrows(ValueOf(a.children).value, ValueOf(b.children).value, !b.partial);
      }
      if isObject && FindByTag(a.children, ArgName, MAX_DEPTH).Some? {
        FindGrows(a.children, b.children, ArgName, MAX_DEPTH);
        hide Grows, GrowsAll, ValueText, FindByTag, ValueOf, Dump;
        var name := Dump(FindByTag(a.children, ArgName, MAX_DEPTH).value.text);
        var x, y := ValueText(ValueOf(a.children), false), ValueText(ValueOf(b.children), !b.partial);
        NoValueNoText();
        PrefixBehind(":", x, y);
        PrefixBehind(name, ":" + x, ":" + y);
      }
    }
  }

  lemma NoValueNoText()
    ensures forall closed :: ValueText(None, closed) == ""
  {
  }

  /** The arguments of a call, as the mapper reports them. */
  function ArgumentsText(call: Node): string {
    ContainerText(call, true, !call.partial)
  }

  /**
   While a call is read further, the JSON text reported for its arguments is only ever extended, whatever
   the nesting and however much of it was still missing.
   */
  lemma ArgumentsOnlyExtended(a: Node, b: Node)
    requires Grows(a, b)
    ensures ArgumentsText(a) <= ArgumentsText(b)
  {
    GrowsTag(a, b);
    if a.partial {
      ContainerGrows(a, b, true, !b.partial);
    }
  }
}
