/** What the printer makes of complete trees: the JSON text of the value that the tree spells. */
module MiniMaxTrees {
  import opened Wrappers
  import opened JsonText
  import opened MiniMax

  /** A value as the model writes it; numbers, booleans and null are plain text. */
  datatype Json = Str(text: string) | Plain(text: string) | Obj(members: seq<Member>) | Arr(items: seq<Json>)

  datatype Member = Member(key: string, value: Json)

  predicate Valid(j: Json) {
    match j
    case Str(_) => true
    case Plain(text) => text != ""
    case Obj(members) => forall i | 0 <= i < |members| :: Valid(members[i].value)
    case Arr(items) => forall i | 0 <= i < |items| :: Valid(items[i])
  }

  // ---------------------------------------------------------------- JSON text

  function Text(j: Json): string {
    match j
    case Str(text) => Dump(text)
    case Plain(text) => text
    case Obj(members) => "{" + MembersText(members, false) + "}"
    case Arr(items) => "[" + ItemsText(items, false) + "]"
  }

  function MembersText(members: seq<Member>, comma: bool): string {
    if members == [] then ""
    else (if comma then "," else "") + (MemberText(members[0]) + MembersText(members[1..], true))
  }

  function MemberText(m: Member): string {
    Dump(m.key) + (":" + Text(m.value))
  }

  function ItemsText(items: seq<Json>, comma: bool): string {
    if items == [] then "" else (if comma then "," else "") + (Text(items[0]) + ItemsText(items[1..], true))
  }

  // ---------------------------------------------------------------- the tree of a value

  function Leaf(tag: Tag, text: string): Node {
    Node(tag, text, text, false, [])
  }

  function Tree(j: Json): (n: Node)
    ensures IsValueTag(n.tag) && !n.partial
  {
    match j
    case Str(text) => Leaf(ArgStringValue, text)
    case Plain(text) => Leaf(ArgValue, text)
    case Obj(members) => Node(ArgObject, "", "", false, MemberTrees(members))
    case Arr(items) => Node(ArgArray, "", "", false, ItemTrees(items))
  }

  function MemberTrees(members: seq<Member>): (r: seq<Node>)
    ensures forall i | 0 <= i < |r| :: r[i].tag == Arg
  {
    if members == [] then [] else [MemberTree(members[0])] + MemberTrees(members[1..])
  }

  function MemberTree(m: Member): Node {
    Node(Arg, "", "", false, [Leaf(ArgName, m.key), Tree(m.value)])
  }

  function ItemTrees(items: seq<Json>): (r: seq<Node>)
    ensures forall i | 0 <= i < |r| :: r[i].tag == ArgItem
  {
    if items == [] then [] else [Node(ArgItem, "", "", false, [Tree(items[0])])] + ItemTrees(items[1..])
  }

  // ---------------------------------------------------------------- printing it

  lemma {:induction false} CollectsAll(nodes: seq<Node>, tag: Tag)
    requires forall i | 0 <= i < |nodes| :: nodes[i].tag == tag
    ensures Collect(nodes, tag) == nodes
  {
    if nodes != [] { CollectsAll(nodes[1..], tag); }
  }

  /** The printer's text of a value's tree is the value's JSON text. */
  lemma {:induction false} PrintsValue(j: Json)
    requires Valid(j)
    ensures ValueText(Some(Tree(j)), true) == Text(j) != ""
    decreases j, 1
  {
    hide Dump, Collect;
    match j
    case Str(text) => DumpParts(text);
    case Plain(_) =>
    case Obj(members) =>
      CollectsAll(MemberTrees(members), Arg);
      PrintsMembers(members, false);
    case Arr(items) =>
      CollectsAll(ItemTrees(items), ArgItem);
      PrintsItems(items, false);
  }

  lemma DumpParts(text: string)
    ensures "\"" + EscapeInner(text) + "\"" == Dump(text) != ""
  {
    hide EscapeInner;
  }

  lemma {:induction false} PrintsMembers(members: seq<Member>, comma: bool)
    requires forall i | 0 <= i < |members| :: Valid(members[i].value)
    ensures EntriesText(MemberTrees(members), true, comma) == MembersText(members, comma)
    decreases members, 0
  {
    hide EntryText, MemberText, MemberTree;
    if members != [] {
      PrintsMember(members[0]);
      PrintsMembers(members[1..], true);
      assert MemberTrees(members)[0] == MemberTree(members[0]);
      assert MemberTrees(members)[1..] == MemberTrees(members[1..]);
    }
  }

  lemma {:induction false} PrintsMember(m: Member)
    requires Valid(m.value)
    ensures EntryText(MemberTree(m), true) == MemberText(m) != ""
    decreases m, 0
  {
    hide Dump, Tree, Text, ValueText;
    PrintsValue(m.value);
    var children := MemberTree(m).children;
    assert children[0].tag == ArgName && children[1..][0] == Tree(m.value);
    assert FindByTag(children, ArgName, MAX_DEPTH) == Some(Leaf(ArgName, m.key));
    assert ValueOf(children) == ValueOf(children[1..]) == Some(Tree(m.value));
  }

  lemma {:induction false} PrintsItems(items: seq<Json>, comma: bool)
    requires forall i | 0 <= i < |items| :: Valid(items[i])
    ensures EntriesText(ItemTrees(items), false, comma) == ItemsText(items, comma)
    decreases items, 0
  {
    hide Tree, Text, ValueText;
    if items != [] {
      PrintsValue(items[0]);
      PrintsItems(items[1..], true);
      var first := ItemTrees(items)[0];
      assert ItemTrees(items)[1..] == ItemTrees(items[1..]);
      assert first.children[0] == Tree(items[0]) && ValueOf(first.children) == Some(Tree(items[0]));
      assert EntryText(first, false) == Text(items[0]);
    }
  }

  // ---------------------------------------------------------------- a complete call

  function CallTree(name: string, arguments: seq<Member>): Node {
    Node(Tool, "", "", false, [Leaf(ToolName, name)] + MemberTrees(arguments))
  }

  /** The arguments reported for a complete call are the JSON object of its arguments. */
  lemma PrintsCall(name: string, arguments: seq<Member>)
    requires Valid(Obj(arguments))
    ensures ArgumentsText(CallTree(name, arguments)) == Text(Obj(arguments))
  {
    hide MemberTrees;
    var children := CallTree(name, arguments).children;
    assert children[0] == Leaf(ToolName, name) && children[1..] == MemberTrees(arguments);
    assert Collect(children, Arg) == Collect([], Arg) + Collect(MemberTrees(arguments), Arg);
    CollectsAll(MemberTrees(arguments), Arg);
    assert Collect(children, Arg) == MemberTrees(arguments);
    PrintsMembers(arguments, false);
  }

  function Inside(n: Node): Node {
    Node(OtherTag, "", "", false, [n])
  }

  /** A name may stand in other nodes, but not in more than two. */
  lemma NameDepth(name: string)
    ensures var n := Leaf(ArgName, name);
      && FindByTag([n], ArgName, MAX_DEPTH) == Some(n)
      && FindByTag([Inside(n)], ArgName, MAX_DEPTH) == Some(n)
      && FindByTag([Inside(Inside(n))], ArgName, MAX_DEPTH) == Some(n)
      && FindByTag([Inside(Inside(Inside(n)))], ArgName, MAX_DEPTH) == None
  {
    var n := Leaf(ArgName, name);
    FindInOne(n, ArgName, 1);
    FindInOne(Inside(n), ArgName, 1);
    FindInOne(Inside(n), ArgName, 2);
    FindInOne(Inside(n), ArgName, 3);
    FindInOne(n, ArgName, 2);
    FindInOne(n, ArgName, 3);
    FindInOne(Inside(Inside(n)), ArgName, 2);
    FindInOne(Inside(Inside(n)), ArgName, 3);
    FindInOne(Inside(Inside(Inside(n))), ArgName, 3);
  }

  // ---------------------------------------------------------------- values that are still being read

  /** The tree of a value of which the last text, and whatever holds it, is still open. */
  function OpenTree(j: Json): (n: Node)
    ensures IsValueTag(n.tag)
  {
    match j
    case Str(text) => Node(ArgStringValue, text, text, true, [])
    case Plain(text) => Node(ArgValue, text, text, true, [])
    case Obj(members) => Node(ArgObject, "", "", true, OpenMembers(members))
    case Arr(items) => Node(ArgArray, "", "", true, OpenItems(items))
  }

  /** All members but the last are complete. */
  function OpenMembers(members: seq<Member>): (r: seq<Node>)
    ensures forall i | 0 <= i < |r| :: r[i].tag == Arg
  {
    if members == [] then []
    else if |members| == 1 then [OpenMember(members[0])]
    else [MemberTree(members[0])] + OpenMembers(members[1..])
  }

  function OpenMember(m: Member): Node {
    Node(Arg, "", "", true, [Leaf(ArgName, m.key), OpenTree(m.value)])
  }

  function OpenItems(items: seq<Json>): (r: seq<Node>)
    ensures forall i | 0 <= i < |r| :: r[i].tag == ArgItem
  {
    if items == [] then []
    else if |items| == 1 then [Node(ArgItem, "", "", true, [OpenTree(items[0])])]
    else [Node(ArgItem, "", "", false, [Tree(items[0])])] + OpenItems(items[1..])
  }

  /** What closes the last text and everything around it. */
  function Closers(j: Json): string {
    match j
    case Str(_) => "\""
    case Plain(_) => ""
    case Obj(members) => (if members == [] then "" else Closers(members[|members| - 1].value)) + "}"
    case Arr(items) => (if items == [] then "" else Closers(items[|items| - 1])) + "]"
  }

  /** The text printed for an open value lacks nothing but what closes it. */
  lemma {:induction false} PrintsOpen(j: Json)
    requires Valid(j)
    ensures ValueText(Some(OpenTree(j)), false) + Closers(j) == Text(j)
    ensures ValueText(Some(OpenTree(j)), false) != ""
    decreases j, 1
  {
    hide Dump, Collect, ContainerText, EntriesText, MembersText, ItemsText, OpenMembers, OpenItems;
    match j
    case Str(text) => OpenString(text);
    case Plain(text) => assert text + "" == text;
    case Obj(members) =>
      OpenContainer(OpenTree(j), true, OpenMembers(members));
      if members == [] {
        NoEntries();
      } else {
        OpenMembersPrint(members, false);
        Around("{", EntriesText(OpenMembers(members), true, false), Closers(members[|members| - 1].value), "}");
      }
    case Arr(items) =>
      OpenContainer(OpenTree(j), false, OpenItems(items));
      if items == [] {
        NoEntries();
      } else {
        OpenItemsPrint(items, false);
        Around("[", EntriesText(OpenItems(items), false, false), Closers(items[|items| - 1]), "]");
      }
  }

  lemma OpenContainer(n: Node, isObject: bool, entries: seq<Node>)
    requires n.children == entries
    requires forall i | 0 <= i < |entries| :: entries[i].tag == if isObject then Arg else ArgItem
    ensures ContainerText(n, isObject, false) == (if isObject then "{" else "[") + EntriesText(entries, isObject, false)
  {
    hide Collect, EntriesText;
    CollectsAll(entries, if isObject then Arg else ArgItem);
    var text := (if isObject then "{" else "[") + EntriesText(entries, isObject, false);
    assert text + "" == text;
  }

  lemma NoEntries()
    ensures forall isObject :: EntriesText([], isObject, false) == ""
    ensures MembersText([], false) == "" && ItemsText([], false) == "" && OpenMembers([]) == [] && OpenItems([]) == []
  {
  }

  lemma Around(open: string, x: string, c: string, close: string)
    ensures (open + x) + (c + close) == open + (x + c) + close
  {
  }

  lemma OpenString(text: string)
    ensures ("\"" + EscapeInner(text) + "") + "\"" == Dump(text)
  {
    hide EscapeInner;
  }

  lemma {:induction false} OpenMembersPrint(members: seq<Member>, comma: bool)
    requires members != [] && forall i | 0 <= i < |members| :: Valid(members[i].value)
    ensures EntriesText(OpenMembers(members), true, comma) + Closers(members[|members| - 1].value) == MembersText(members, comma)
    decreases members, 0
  {
    hide EntryText, EntriesText, MemberText, MembersText, MemberTree, Closers, OpenMember;
    if |members| == 1 {
      OpenMemberPrints(members[0]);
      LastMemberPrints(members[0], comma);
      assert members == [members[0]];
    } else {
      PrintsMember(members[0]);
      OpenMembersPrint(members[1..], true);
      var text, rest := MemberText(members[0]), EntriesText(OpenMembers(members[1..]), true, true);
      FirstEntryText(MemberTree(members[0]), OpenMembers(members[1..]), true, comma);
      FirstMemberText(members, comma);
      InFront(if comma then "," else "", text, rest, Closers(members[|members| - 1].value));
    }
  }

  lemma InFront(start: string, text: string, rest: string, c: string)
    ensures start + (text + rest) + c == start + (text + (rest + c))
  {
  }

  lemma FirstMemberText(members: seq<Member>, comma: bool)
    requires members != []
    ensures MembersText(members, comma) == (if comma then "," else "") + (MemberText(members[0]) + MembersText(members[1..], true))
  {
    hide MemberText;
  }

  lemma FirstEntryText(e: Node, more: seq<Node>, isObject: bool, comma: bool)
    requires EntryText(e, isObject) != ""
    ensures EntriesText([e] + more, isObject, comma)
      == (if comma then "," else "") + (EntryText(e, isObject) + EntriesText(more, isObject, true))
  {
    hide EntryText;
    assert ([e] + more)[1..] == more;
  }

  lemma LastMemberPrints(m: Member, comma: bool)
    requires EntryText(OpenMember(m), true) + Closers(m.value) == MemberText(m) && EntryText(OpenMember(m), true) != ""
    ensures EntriesText(OpenMembers([m]), true, comma) + Closers(m.value) == MembersText([m], comma)
  {
    hide EntryText, MemberText, Closers, OpenMember, EntriesText;
    var e, start := OpenMember(m), if comma then "," else "";
    LastEntryText(e, true, comma);
    assert (start + EntryText(e, true)) + Closers(m.value) == start + (EntryText(e, true) + Closers(m.value));
    assert [m][1..] == [] && MemberText(m) + "" == MemberText(m);
  }

  lemma LastEntryText(e: Node, isObject: bool, comma: bool)
    requires EntryText(e, isObject) != ""
    ensures EntriesText([e], isObject, comma) == (if comma then "," else "") + EntryText(e, isObject)
  {
    hide EntryText;
    assert [e][1..] == [] && EntriesText([], isObject, true) == "";
    assert EntryText(e, isObject) + "" == EntryText(e, isObject);
  }

  lemma {:induction false} OpenMemberPrints(m: Member)
    requires Valid(m.value)
    ensures EntryText(OpenMember(m), true) + Closers(m.value) == MemberText(m) && EntryText(OpenMember(m), true) != ""
    decreases m, 0
  {
    hide Dump, OpenTree, Text, ValueText, Closers;
    PrintsOpen(m.value);
    var children := OpenMember(m).children;
    assert children[0].tag == ArgName && children[1..][0] == OpenTree(m.value);
    assert FindByTag(children, ArgName, MAX_DEPTH) == Some(Leaf(ArgName, m.key));
    assert ValueOf(children) == ValueOf(children[1..]) == Some(OpenTree(m.value));
    var v, c := ValueText(Some(OpenTree(m.value)), false), Closers(m.value);
    assert (Dump(m.key) + (":" + v)) + c == Dump(m.key) + (":" + (v + c));
  }

  lemma {:induction false} OpenItemsPrint(items: seq<Json>, comma: bool)
    requires items != [] && forall i | 0 <= i < |items| :: Valid(items[i])
    ensures EntriesText(OpenItems(items), false, comma) + Closers(items[|items| - 1]) == ItemsText(items, comma)
    decreases items, 0
  {
    hide EntryText, EntriesText, Tree, Text, ItemsText, Closers, OpenTree, ValueText;
    if |items| == 1 {
      PrintsOpen(items[0]);
      LastItemPrints(items[0], comma);
      assert items == [items[0]];
    } else {
      PrintsValue(items[0]);
      OpenItemsPrint(items[1..], true);
      var first := Node(ArgItem, "", "", false, [Tree(items[0])]);
      ItemEntry(first, Tree(items[0]));
      FirstEntryText(first, OpenItems(items[1..]), false, comma);
      FirstItemText(items, comma);
      InFront(if comma then "," else "", Text(items[0]), EntriesText(OpenItems(items[1..]), false, true), Closers(items[|items| - 1]));
    }
  }

  lemma FirstItemText(items: seq<Json>, comma: bool)
    requires items != []
    ensures ItemsText(items, comma) == (if comma then "," else "") + (Text(items[0]) + ItemsText(items[1..], true))
  {
    hide Text;
  }

  lemma LastItemPrints(j: Json, comma: bool)
    requires ValueText(Some(OpenTree(j)), false) + Closers(j) == Text(j) && ValueText(Some(OpenTree(j)), false) != ""
    ensures EntriesText(OpenItems([j]), false, comma) + Closers(j) == ItemsText([j], comma)
  {
    hide EntryText, Text, Closers, OpenTree, ValueText;
    var e := Node(ArgItem, "", "", true, [OpenTree(j)]);
    var start := if comma then "," else "";
    ItemEntry(e, OpenTree(j));
    LastEntryText(e, false, comma);
    assert (start + EntryText(e, false)) + Closers(j) == start + (EntryText(e, false) + Closers(j));
    assert ItemsText([j][1..], true) == "" && Text(j) + "" == Text(j);
  }

  lemma ItemEntry(e: Node, value: Node)
    requires e.children == [value] && IsValueTag(value.tag)
    ensures EntryText(e, false) == ValueText(Some(value), !e.partial)
  {
    assert ValueOf([value]) == Some(value);
  }

  /** While the last argument of a call is open, the text reported for the arguments lacks nothing but what closes it. */
  lemma PrintsOpenCall(name: string, arguments: seq<Member>)
    requires Valid(Obj(arguments))
    ensures var call := Node(Tool, "", "", true, [Leaf(ToolName, name)] + OpenMembers(arguments));
      ArgumentsText(call) + Closers(Obj(arguments)) == Text(Obj(arguments))
  {
    hide OpenMembers, Collect, Closers, Text;
    var call := Node(Tool, "", "", true, [Leaf(ToolName, name)] + OpenMembers(arguments));
    assert call.children[0] == Leaf(ToolName, name) && call.children[1..] == OpenMembers(arguments);
    CollectsBehindName(name, OpenMembers(arguments));
    SameContainer(call, OpenTree(Obj(arguments)));
    PrintsOpen(Obj(arguments));
  }

  lemma CollectsBehindName(name: string, nodes: seq<Node>)
    requires forall i | 0 <= i < |nodes| :: nodes[i].tag == Arg
    ensures Collect([Leaf(ToolName, name)] + nodes, Arg) == Collect(nodes, Arg)
  {
    var all := [Leaf(ToolName, name)] + nodes;
    assert all[0] == Leaf(ToolName, name) && all[1..] == nodes;
    assert Collect([], Arg) == [];
  }

  lemma SameContainer(a: Node, b: Node)
    requires Collect(a.children, Arg) == Collect(b.children, Arg)
    ensures ContainerText(a, true, false) == ContainerText(b, true, false)
  {
    hide Collect, EntriesText;
  }

  lemma LettersText(c: char)
    requires 'a' <= c <= 'z'
    ensures Dump([c]) == ['"', c, '"']
  {
    assert [c][1..] == [];
    assert EscapeInner([c]) == EscapeChar(c) + EscapeInner([]) == [c];
  }

  lemma ArrayText(a: Json, b: Json)
    ensures Text(Arr([a, b])) == "[" + Text(a) + "," + Text(b) + "]"
  {
    hide Dump;
    assert [a, b][1..] == [b] && [b][1..] == [];
    assert ItemsText([b], true) == "," + (Text(b) + "");
    assert ItemsText([a, b], false) == "" + (Text(a) + ("," + (Text(b) + "")));
  }

  lemma ObjectText(a: Member, b: Member)
    ensures Text(Obj([a, b])) == "{" + Dump(a.key) + ":" + Text(a.value) + "," + Dump(b.key) + ":" + Text(b.value) + "}"
  {
    hide Dump;
    assert [a, b][1..] == [b] && [b][1..] == [];
    assert MembersText([b], true) == "," + (MemberText(b) + "");
    assert MembersText([a, b], false) == "" + (MemberText(a) + ("," + (MemberText(b) + "")));
  }

  /** What JSON text looks like, by example. */
  lemma TextSpelled()
    ensures Text(Obj([Member("a", Arr([Plain("1"), Str("b")])), Member("c", Obj([]))])) == "{\"a\":[1,\"b\"],\"c\":{}}"
  {
    hide Dump;
    LettersText('a');
    LettersText('b');
    LettersText('c');
    ArrayText(Plain("1"), Str("b"));
    ObjectText(Member("a", Arr([Plain("1"), Str("b")])), Member("c", Obj([])));
    assert Text(Obj([])) == "{}" && Text(Str("b")) == "\"b\"" && Text(Plain("1")) == "1";
    assert Text(Arr([Plain("1"), Str("b")])) == "[1,\"b\"]";
  }
}
