/** The parser of common/molten_cJSON.c on items in memory. */
module JsonBuild {

  import opened CText
  import opened Decimal
  import opened JsonCopy
  import opened JsonItem
  import JsonList
  import opened JsonMeaning
  import opened JsonParse
  import opened JsonString
  import opened JsonTree
  import opened Prelude

  // ----- The items a value is stored in -----

  const FALSE_ITEM := 0
  const TRUE_ITEM := 1
  const NULL_ITEM := 2
  const NUMBER_ITEM := 3
  const STRING_ITEM := 4
  const ARRAY_ITEM := 5
  const OBJECT_ITEM := 6

  function Plain(kind: int, name: Option<string>): Data {
    Data(kind, false, 0, None, name)
  }

  function TreeOf(v: Json, name: Option<string>): Tree {
    match v
    case Null => Tree(Plain(NULL_ITEM, name), [])
    case False => Tree(Plain(FALSE_ITEM, name), [])
    case True => Tree(Plain(TRUE_ITEM, name).(value := 1), [])
    case Number(n) => Tree(Plain(NUMBER_ITEM, name).(value := n), [])
    case String(s) => Tree(Plain(STRING_ITEM, name).(text := Some(s)), [])
    case Array(items) => Tree(Plain(ARRAY_ITEM, name), ItemTrees(items))
    case Object(members) => Tree(Plain(OBJECT_ITEM, name), MemberTrees(members))
  }

  function ItemTrees(items: Items): seq<Tree> {
    match items
    case NoItem => []
    case Item(v, next) => [TreeOf(v, None)] + ItemTrees(next)
  }

  function MemberTrees(members: Members): seq<Tree> {
    match members
    case NoMember => []
    case Member(name, v, next) => [TreeOf(v, Some(name))] + MemberTrees(next)
  }

  lemma FieldsOf(v: Json, name: Option<string>)
    ensures Fields(TreeOf(v, name).data, v, name)
  {}

  /** The items a value is stored in stand for it. */
  lemma {:induction false} TreeMeans(v: Json, name: Option<string>)
    ensures ValueOf(TreeOf(v, name)) == v
    decreases v, 0
  {
    hide ItemTrees, MemberTrees, ItemsFrom, MembersFrom;
    match v
    case Array(items) => ItemsMean(items, TreeOf(v, name), 0);
    case Object(members) => MembersMean(members, TreeOf(v, name), 0);
    case _ =>
  }

  lemma {:induction false} ItemsMean(items: Items, t: Tree, k: nat)
    requires k <= |t.kids| && t.kids[k..] == ItemTrees(items)
    ensures ItemsFrom(t, k) == items
    decreases items
  {
    hide ValueOf, TreeOf;
    if items.Item? {
      assert t.kids[k..][0] == t.kids[k] && t.kids[k..][1..] == t.kids[k + 1..];
      TreeMeans(items.value, None);
      ItemsMean(items.next, t, k + 1);
    }
  }

  lemma {:induction false} MembersMean(members: Members, t: Tree, k: nat)
    requires k <= |t.kids| && t.kids[k..] == MemberTrees(members)
    ensures MembersFrom(t, k) == members
    decreases members
  {
    hide ValueOf, TreeOf;
    if members.Member? {
      assert t.kids[k..][0] == t.kids[k] && t.kids[k..][1..] == t.kids[k + 1..];
      TreeMeans(members.value, Some(members.name));
      FieldsOf(members.value, Some(members.name));
      MembersMean(members.next, t, k + 1);
    }
  }

  // ----- One more element -----

  ghost function Snoc(items: Items, v: Json): Items {
    match items
    case NoItem => Items.Item(v, NoItem)
    case Item(first, next) => Items.Item(first, Snoc(next, v))
  }

  ghost function SnocMember(members: Members, name: string, v: Json): Members {
    match members
    case NoMember => Member(name, v, NoMember)
    case Member(n, first, next) => Member(n, first, SnocMember(next, name, v))
  }

  ghost function Join(items: Items, r: Parse<Items>): Parse<Items> {
    match items
    case NoItem => r
    case Item(v, next) => AddItem(v, Join(next, r))
  }

  ghost function JoinMembers(members: Members, r: Parse<Members>): Parse<Members> {
    match members
    case NoMember => r
    case Member(name, v, next) => AddMember(name, v, JoinMembers(next, r))
  }

  lemma {:induction false} JoinSnoc(items: Items, v: Json, r: Parse<Items>)
    ensures Join(Snoc(items, v), r) == Join(items, AddItem(v, r))
  {
    if items.Item? { JoinSnoc(items.next, v, r); }
  }

  lemma {:induction false} JoinEnds(items: Items, r: Parse<Items>)
    ensures r.Rejected? ==> Join(items, r) == r
    ensures r.Undefined? ==> Join(items, r) == r
    ensures r.Parsed? && r.value == NoItem ==> Join(items, r) == Parsed(items, r.end)
  {
    if items.Item? { JoinEnds(items.next, r); }
  }

  lemma {:induction false} JoinSnocMember(members: Members, name: string, v: Json, r: Parse<Members>)
    ensures JoinMembers(SnocMember(members, name, v), r) == JoinMembers(members, AddMember(name, v, r))
  {
    if members.Member? { JoinSnocMember(members.next, name, v, r); }
  }

  lemma {:induction false} JoinMembersEnds(members: Members, r: Parse<Members>)
    ensures r.Rejected? ==> JoinMembers(members, r) == r
    ensures r.Undefined? ==> JoinMembers(members, r) == r
    ensures r.Parsed? && r.value == NoMember ==> JoinMembers(members, r) == Parsed(members, r.end)
  {
    if members.Member? { JoinMembersEnds(members.next, r); }
  }

  lemma {:induction false} SnocTree(items: Items, v: Json)
    ensures ItemTrees(Snoc(items, v)) == ItemTrees(items) + [TreeOf(v, None)]
  {
    if items.Item? { SnocTree(items.next, v); }
  }

  lemma {:induction false} SnocMemberTree(members: Members, name: string, v: Json)
    ensures MemberTrees(SnocMember(members, name, v)) == MemberTrees(members) + [TreeOf(v, Some(name))]
  {
    if members.Member? { SnocMemberTree(members.next, name, v); }
  }

  lemma OneItem(v: Json, r: Parse<Items>)
    ensures ItemTrees(Items.Item(v, NoItem)) == [] + [TreeOf(v, None)]
    ensures Join(Items.Item(v, NoItem), r) == AddItem(v, r)
  {}

  lemma OneMember(name: string, v: Json, r: Parse<Members>)
    ensures MemberTrees(Member(name, v, NoMember)) == [] + [TreeOf(v, Some(name))]
    ensures JoinMembers(Member(name, v, NoMember), r) == AddMember(name, v, r)
  {}

  lemma ArrayTree(items: Items, name: Option<string>)
    ensures TreeOf(Array(items), name) == Tree(Plain(ARRAY_ITEM, name), ItemTrees(items))
    ensures ItemTrees(NoItem) == []
  {}

  lemma ObjectTree(members: Members, name: Option<string>)
    ensures TreeOf(Object(members), name) == Tree(Plain(OBJECT_ITEM, name), MemberTrees(members))
    ensures MemberTrees(NoMember) == []
  {}

  /** A result of the parser: the item it filled, or where it stopped. */
  ghost predicate Ends(r: Parse<Item>, item: Item, p: Parse<Json>) {
    match p
    case Parsed(_, e) => r == Parsed(item, e)
    case Rejected(at) => r == Rejected(at)
    case Undefined => false
  }

  /** sh is item with everything below it, laid out as t. */
  ghost predicate Built(sh: Shape, item: Item, t: Tree)
    reads sh.node`data, sh.node`child, Below(sh, |sh.kids|)
  {
    sh.node == item && Separate(sh) && Laid(sh, t)
  }

  lemma BuiltFields(sh: Shape, item: Item, v: Json, name: Option<string>)
    requires Built(sh, item, TreeOf(v, name))
    ensures Fields(item.data, v, name)
  {
    hide Laid, Separate, Fields, TreeOf;
    LaidParts(sh, TreeOf(v, name));
    FieldsOf(v, name);
  }

  lemma Alone(item: Item)
    requires item.child == null
    ensures Nodes(Shape(item, [])) == {item} && Built(Shape(item, []), item, Tree(item.data, []))
  {}

  lemma LastBuilt(sh: Shape, item: Item, t: Tree)
    requires Built(sh, item, t)
    ensures item in Nodes(sh) && |sh.kids| == |t.kids|
    ensures |sh.kids| > 0 ==> KidAt(sh, |sh.kids| - 1) in Nodes(sh) - {item}
  {
    hide Laid, Separate, Nodes, Below;
    LaidParts(sh, t);
    LastKid(sh);
  }

  /** child hangs behind the kids of sh, which are laid out as those of t. */
  ghost predicate Hung(sh: Shape, child: Item, t: Tree)
    reads sh.node`data, sh.node`child, child, Below(sh, |sh.kids|)
  {
    var g := Grown(sh, Shape(child, []));
    && Separate(g) && sh.node.data == t.data && |sh.kids| == |t.kids| && sh.node.child == KidAt(g, 0)
    && (forall j :: 0 <= j < |g.kids| ==> KidLinked(g, j))
    && (forall j :: 0 <= j < |sh.kids| ==> Laid(sh.kids[j], t.kids[j]))
  }

  /** cJSON_New_Item, linked behind the children already there. */
  method NewChild(item: Item, last: Item?, ghost sh: Shape, ghost t: Tree) returns (child: Item)
    requires Built(sh, item, t) && last == KidAt(sh, |sh.kids| - 1)
    modifies item`child, if last == null then {} else {last}
    ensures fresh(child) && child.data == Plain(FALSE_ITEM, None) && child.child == null
    ensures Hung(sh, child, t)
  {
    hide Laid, Separate, Below, Nodes;
    LastKid(sh);
    ghost var mine := Nodes(sh);
    assert allocated(mine);
    child := new Item(Plain(FALSE_ITEM, None));
    ghost var leaf := Shape(child, []);
    Alone(child);
    GrownSeparate(sh, leaf);
    Attach(item, last, child, sh, leaf, t, Tree(child.data, []));
    HungWhole(sh, child, t);
  }

  lemma HungWhole(sh: Shape, child: Item, t: Tree)
    requires Built(Grown(sh, Shape(child, [])), sh.node, Tree(t.data, t.kids + [Tree(child.data, [])]))
    ensures Hung(sh, child, t)
  {
    hide Separate, Below, Nodes, Laid;
    var g, u := Grown(sh, Shape(child, [])), Tree(t.data, t.kids + [Tree(child.data, [])]);
    LaidParts(g, u);
    forall j | 0 <= j < |sh.kids| ensures Laid(sh.kids[j], t.kids[j]) { assert Laid(g.kids[j], u.kids[j]); }
  }

  /** The child has become kid. */
  lemma Filled(sh: Shape, child: Item, kid: Shape, t: Tree, u: Tree)
    requires Hung(sh, child, t) && Built(kid, child, u) && Nodes(sh) !! Nodes(kid) && Separate(sh)
    ensures Built(Grown(sh, kid), sh.node, Tree(t.data, t.kids + [u]))
  {
    hide Separate, Below, Nodes, Laid;
    var g, h := Grown(sh, Shape(child, [])), Grown(sh, kid);
    GrownSeparate(sh, kid);
    forall j | 0 <= j < |h.kids| ensures KidLinked(h, j) { assert KidLinked(g, j); }
    LaidWhole(h, Tree(t.data, t.kids + [u]));
  }

  /** No field of the child or of new items concerns what hangs in front of it. */
  lemma HungApart(sh: Shape, child: Item, t: Tree, j: nat)
    requires Hung(sh, child, t) && j < |sh.kids|
    ensures child !in Nodes(sh.kids[j]) && child !in Below(sh.kids[j], |sh.kids[j].kids|) && child != sh.kids[j].node
    ensures child != sh.node && Below(sh.kids[j], |sh.kids[j].kids|) <= Nodes(sh) && sh.kids[j].node in Nodes(sh)
  {
    hide Laid;
    var g := Grown(sh, Shape(child, []));
    assert g.kids[|sh.kids|].node == child && child in Nodes(g.kids[|sh.kids|]);
    assert Nodes(g.kids[j]) !! Nodes(g.kids[|sh.kids|]);
    assert sh.kids[j].node in Nodes(sh.kids[j]);
    KidApart(g, |sh.kids|, j);
  }

  // ----- The parser -----

  /** parse_value on an item that holds nothing but, perhaps, its name. */
  method ParseValue(item: Item, text: string, i: nat) returns (r: Parse<Item>, ghost sh: Shape)
    requires !ParsedValue(text, i).Undefined?
    requires item.child == null && item.data == Plain(item.data.kind, item.data.name)
    modifies item`child, item`data
    ensures Ends(r, item, ParsedValue(text, i))
    ensures r.Parsed? ==>
              Built(sh, item, TreeOf(ParsedValue(text, i).value, old(item.data.name))) && fresh(Nodes(sh) - {item})
    ensures r.Parsed? ==> Fields(item.data, ParsedValue(text, i).value, old(item.data.name))
    decreases |text| - i, 1
  {
    hide ParsedString, ParsedNumber, ParsedArray, ParsedObject, Occurs, Laid, Separate, Nodes, Below, Fields;
    ghost var name := item.data.name;
    sh := Shape(item, []);
    if Occurs("null", text, i) {
      item.data := item.data.(kind := NULL_ITEM);
      Alone(item);
      BuiltFields(sh, item, Null, name);
      return Parsed(item, i + 4), sh;
    }
    if Occurs("false", text, i) {
      item.data := item.data.(kind := FALSE_ITEM);
      Alone(item);
      BuiltFields(sh, item, False, name);
      return Parsed(item, i + 5), sh;
    }
    if Occurs("true", text, i) {
      item.data := item.data.(kind := TRUE_ITEM, value := 1);
      Alone(item);
      BuiltFields(sh, item, True, name);
      return Parsed(item, i + 4), sh;
    }
    if At(text, i) == '\"' {
      r := ParseStringInto(item, text, i);
      Alone(item);
      if r.Parsed? { BuiltFields(sh, item, ParsedValue(text, i).value, name); }
      return;
    }
    if At(text, i) == '-' || IsDigit(At(text, i)) {
      var n := ParseNumber(text, i);
      NumberRead(text, i);
      item.data := item.data.(kind := NUMBER_ITEM, value := n.value.n);
      Alone(item);
      BuiltFields(sh, item, n.value, name);
      return Parsed(item, n.end), sh;
    }
    if At(text, i) == '[' {
      r, sh := ParseArray(item, text, i);
      if r.Parsed? { BuiltFields(sh, item, ParsedValue(text, i).value, name); }
      return;
    }
    if At(text, i) == '{' {
      r, sh := ParseObject(item, text, i);
      if r.Parsed? { BuiltFields(sh, item, ParsedValue(text, i).value, name); }
      return;
    }
    return Rejected(i), sh;
  }

  lemma NumberRead(text: string, i: nat)
    requires At(text, i) == '-' || IsDigit(At(text, i))
    ensures var r := ParsedNumber(text, i); r.Undefined? || (r.Parsed? && r.value.Number?)
  {}

  method ParseStringInto(item: Item, text: string, i: nat) returns (r: Parse<Item>)
    requires !ParsedString(text, i).Undefined?
    modifies item`data
    ensures match ParsedString(text, i)
            case Parsed(s, e) =>
              r == Parsed(item, e) && item.data == old(item.data).(kind := STRING_ITEM, text := Some(s))
            case Rejected(at) => r == Rejected(at)
            case Undefined => false
  {
    var s := ParseString(text, i);
    if s.Rejected? { return Rejected(s.at); }
    item.data := item.data.(kind := STRING_ITEM, text := Some(s.value));
    r := Parsed(item, s.end);
  }

  /** A new last child and the value parsed into it; the C code repeats these lines before and in its loop. */
  method ParseElement(item: Item, last: Item?, text: string, i: nat, ghost sh: Shape, ghost t: Tree)
    returns (child: Item, r: Parse<Item>, ghost grown: Shape)
    requires Built(sh, item, t) && last == KidAt(sh, |sh.kids| - 1) && !ParsedValue(text, i).Undefined?
    modifies item`child, if last == null then {} else {last}
    ensures Ends(r, child, ParsedValue(text, i))
    ensures r.Parsed? ==> var u := TreeOf(ParsedValue(text, i).value, None);
              && Built(grown, item, Tree(t.data, t.kids + [u])) && child == KidAt(grown, |sh.kids|)
              && |grown.kids| == |sh.kids| + 1 && fresh(Nodes(grown) - Nodes(sh))
    decreases |text| - i, 2
  {
    hide ParsedValue, Laid, Separate, Nodes, Below;
    ghost var mine := Nodes(sh);
    assert allocated(mine);
    child := NewChild(item, last, sh, t);
    ghost var g := Grown(sh, Shape(child, []));
    label linked:
    forall j | 0 <= j < |sh.kids|
      ensures child !in Below(sh.kids[j], |sh.kids[j].kids|) && child != sh.kids[j].node
      ensures Below(sh.kids[j], |sh.kids[j].kids|) <= mine && sh.kids[j].node in mine
    {
      HungApart(sh, child, t, j);
    }
    ghost var kid;
    r, kid := ParseValue(child, text, i);
    grown := Grown(sh, kid);
    if r.Parsed? {
      forall j | 0 <= j < |sh.kids| ensures Laid(sh.kids[j], t.kids[j]) {
        assert old@linked(Laid(sh.kids[j], t.kids[j]));
      }
      forall j | 0 <= j < |g.kids| ensures KidLinked(g, j) {
        assert old@linked(KidLinked(g, j));
        if j < |sh.kids| { assert g.kids[j] == sh.kids[j]; }
      }
      assert Hung(sh, child, t);
      Filled(sh, child, kid, t, TreeOf(ParsedValue(text, i).value, None));
      GrownNodes(sh, kid);
      forall o | o in Nodes(grown) - mine ensures fresh(o) {
        if o != child { assert o in Nodes(kid) - {child} && fresh@linked(o); }
      }
    }
  }

  method ParseArray(item: Item, text: string, i: nat) returns (r: Parse<Item>, ghost sh: Shape)
    requires At(text, i) == '[' && !ParsedArray(text, i).Undefined?
    requires item.child == null && item.data == Plain(item.data.kind, item.data.name)
    modifies item`child, item`data
    ensures Ends(r, item, ParsedArray(text, i))
    ensures r.Parsed? ==>
              Built(sh, item, TreeOf(ParsedArray(text, i).value, old(item.data.name))) && fresh(Nodes(sh) - {item})
    decreases |text| - i, 0
  {
    hide Skipped, ParsedValue, Laid, Separate, Below, Built, Join, Snoc, ItemTrees, TreeOf;
    item.data := item.data.(kind := ARRAY_ITEM);
    sh := Shape(item, []);
    Alone(item);
    ghost var items, t := NoItem, Tree(item.data, []);
    ArrayTree(NoItem, item.data.name);
    var value := Skip(text, i + 1);
    if At(text, value) == ']' {
      return Parsed(item, value + 1), sh;
    }
    var start := Skip(text, value);
    ghost var whole := ParsedItems(text, start);
    var child, first;
    child, first, sh := ParseElement(item, null, text, start, sh, t);
    assert allocated(Nodes(sh));
    if first.Rejected? {
      return Rejected(first.at), sh;
    }
    items := Items.Item(ParsedValue(text, start).value, NoItem);
    OneItem(items.value, MoreItems(text, Skipped(text, first.end)));
    value := Skip(text, first.end);
    while At(text, value) == ','
      invariant i < value
      invariant whole == Join(items, MoreItems(text, value))
      invariant Built(sh, item, Tree(t.data, ItemTrees(items))) && fresh(Nodes(sh) - {item})
      invariant |sh.kids| > 0 && child == KidAt(sh, |sh.kids| - 1)
      decreases |text| - value
    {
      LastBuilt(sh, item, Tree(t.data, ItemTrees(items)));
      assert allocated(Nodes(sh));
      value := Skip(text, value + 1);
      JoinEnds(items, ParsedItems(text, value));
      var next;
      child, next, sh := ParseElement(item, child, text, value, sh, Tree(t.data, ItemTrees(items)));
      assert allocated(Nodes(sh));
      if next.Rejected? {
        return Rejected(next.at), sh;
      }
      ghost var v := ParsedValue(text, value).value;
      value := Skip(text, next.end);
      JoinSnoc(items, v, MoreItems(text, value));
      SnocTree(items, v);
      items := Snoc(items, v);
    }
    JoinEnds(items, MoreItems(text, value));
    ArrayTree(items, t.data.name);
    if At(text, value) == ']' {
      return Parsed(item, value + 1), sh;
    }
    return Rejected(value), sh;
  }

  method ParseObject(item: Item, text: string, i: nat) returns (r: Parse<Item>, ghost sh: Shape)
    requires At(text, i) == '{' && !ParsedObject(text, i).Undefined?
    requires item.child == null && item.data == Plain(item.data.kind, item.data.name)
    modifies item`child, item`data
    ensures Ends(r, item, ParsedObject(text, i))
    ensures r.Parsed? ==>
              Built(sh, item, TreeOf(ParsedObject(text, i).value, old(item.data.name))) && fresh(Nodes(sh) - {item})
    decreases |text| - i, 0
  {
    hide Skipped, ParsedValue, ParsedString, Laid, Separate, Below, Built, JoinMembers, SnocMember, MemberTrees, TreeOf;
    item.data := item.data.(kind := OBJECT_ITEM);
    sh := Shape(item, []);
    Alone(item);
    ghost var members, t := NoMember, Tree(item.data, []);
    ObjectTree(NoMember, item.data.name);
    var value := Skip(text, i + 1);
    if At(text, value) == '}' {
      return Parsed(item, value + 1), sh;
    }
    var start := Skip(text, value);
    ghost var whole := ParsedMembers(text, start);
    var child, first;
    ghost var m;
    child, first, m, sh := ParseMember(item, null, text, start, sh, t);
    assert allocated(Nodes(sh));
    if first.Rejected? {
      return Rejected(first.at), sh;
    }
    members := Member(m.0, m.1, NoMember);
    OneMember(m.0, m.1, MoreMembers(text, Skipped(text, first.end)));
    value := Skip(text, first.end);
    while At(text, value) == ','
      invariant i < value
      invariant whole == JoinMembers(members, MoreMembers(text, value))
      invariant Built(sh, item, Tree(t.data, MemberTrees(members))) && fresh(Nodes(sh) - {item})
      invariant |sh.kids| > 0 && child == KidAt(sh, |sh.kids| - 1)
      decreases |text| - value
    {
      LastBuilt(sh, item, Tree(t.data, MemberTrees(members)));
      assert allocated(Nodes(sh));
      value := Skip(text, value + 1);
      JoinMembersEnds(members, ParsedMembers(text, value));
      var next;
      child, next, m, sh := ParseMember(item, child, text, value, sh, Tree(t.data, MemberTrees(members)));
      assert allocated(Nodes(sh));
      if next.Rejected? {
        return Rejected(next.at), sh;
      }
      value := Skip(text, next.end);
      JoinSnocMember(members, m.0, m.1, MoreMembers(text, value));
      SnocMemberTree(members, m.0, m.1);
      members := SnocMember(members, m.0, m.1);
    }
    JoinMembersEnds(members, MoreMembers(text, value));
    ObjectTree(members, t.data.name);
    if At(text, value) == '}' {
      return Parsed(item, value + 1), sh;
    }
    return Rejected(value), sh;
  }

  /** A new last child, its name, a colon and its value. */
  method ParseMember(item: Item, last: Item?, text: string, i: nat, ghost sh: Shape, ghost t: Tree)
    returns (child: Item, r: Parse<Item>, ghost m: (string, Json), ghost grown: Shape)
    requires Built(sh, item, t) && last == KidAt(sh, |sh.kids| - 1) && !ParsedMembers(text, i).Undefined?
    modifies item`child, if last == null then {} else {last}
    ensures match r
            case Parsed(c, e) =>
              && c == child && i < e
              && ParsedMembers(text, i) == AddMember(m.0, m.1, MoreMembers(text, Skipped(text, e)))
              && Built(grown, item, Tree(t.data, t.kids + [TreeOf(m.1, Some(m.0))])) && child == KidAt(grown, |sh.kids|)
              && |grown.kids| == |sh.kids| + 1 && fresh(Nodes(grown) - Nodes(sh))
            case Rejected(at) => ParsedMembers(text, i) == Rejected(at)
            case Undefined => false
    decreases |text| - i, 2
  {
    hide Skipped, ParsedValue, ParsedString, MoreMembers, Laid, Separate, Nodes, Below;
    m, grown := ("", Null), sh;
    ghost var mine := Nodes(sh);
    assert allocated(mine);
    child := NewChild(item, last, sh, t);
    ghost var g := Grown(sh, Shape(child, []));
    label linked:
    forall j | 0 <= j < |sh.kids|
      ensures child !in Below(sh.kids[j], |sh.kids[j].kids|) && child != sh.kids[j].node
      ensures Below(sh.kids[j], |sh.kids[j].kids|) <= mine && sh.kids[j].node in mine
    {
      HungApart(sh, child, t, j);
    }
    r := ParseStringInto(child, text, i);
    if r.Rejected? { return; }
    child.data := child.data.(name := child.data.text, text := None);
    ghost var name := ParsedString(text, i).value;
    var colon := Skip(text, r.end);
    if At(text, colon) != ':' {
      r := Rejected(colon);
      return;
    }
    var start := Skip(text, colon + 1);
    ghost var kid;
    label named:
    r, kid := ParseValue(child, text, start);
    if r.Parsed? {
      m, grown := (name, ParsedValue(text, start).value), Grown(sh, kid);
      forall j | 0 <= j < |sh.kids| ensures Laid(sh.kids[j], t.kids[j]) {
        assert old@linked(Laid(sh.kids[j], t.kids[j]));
      }
      forall j | 0 <= j < |g.kids| ensures KidLinked(g, j) {
        assert old@linked(KidLinked(g, j));
        if j < |sh.kids| { assert g.kids[j] == sh.kids[j]; }
      }
      assert Hung(sh, child, t);
      Filled(sh, child, kid, t, TreeOf(m.1, Some(name)));
      GrownNodes(sh, kid);
      forall o | o in Nodes(grown) - mine ensures fresh(o) {
        if o != child { assert o in Nodes(kid) - {child} && fresh@named(o); }
      }
    }
  }

  /** cJSON_ParseWithOpts: a new tree of items that belong to nothing else, or the position of the error. */
  method ParseWithOpts(text: string, requireEnd: bool) returns (r: Parse<Item>, ghost sh: Shape)
    requires !ParsedText(text, requireEnd).Undefined?
    ensures match ParsedText(text, requireEnd)
            case Parsed(v, e) =>
              r.Parsed? && r.end == e && Built(sh, r.value, TreeOf(v, None)) && fresh(Nodes(sh))
              && r.value.next == null && r.value.prev == null
            case Rejected(at) => r == Rejected(at)
            case Undefined => false
  {
    hide Skipped, ParsedValue, Laid, Separate, Below, Built;
    var c := new Item(Plain(FALSE_ITEM, None));
    var start := Skip(text, 0);
    r, sh := ParseValue(c, text, start);
    assert allocated(Nodes(sh));
    if r.Rejected? || !requireEnd {
      return;
    }
    var end := Skip(text, r.end);
    if At(text, end) != NUL {
      return Rejected(end), sh;
    }
    return Parsed(c, end), sh;
  }

  // ----- What the other operations rely on -----

  function KidNodes(sh: Shape, k: nat): (s: seq<Item>)
    requires k <= |sh.kids|
    ensures |s| == k && forall j :: 0 <= j < k ==> s[j] == sh.kids[j].node
  {
    if k == 0 then [] else KidNodes(sh, k - 1) + [sh.kids[k - 1].node]
  }

  /** The items of a parsed array or object form the chain that editing takes, and the whole unfolds to the tree that
      copying takes. */
  lemma BuiltIsChain(sh: Shape, item: Item, t: Tree)
    requires Built(sh, item, t)
    ensures JsonList.Chain(item, KidNodes(sh, |sh.kids|)) && Unfolds(item, t, Nodes(sh))
  {
    hide Laid, Separate, Nodes, Below, KidNodes;
    LaidParts(sh, t);
    CopyUnfolds(sh, t, Nodes(sh));
    var s := KidNodes(sh, |sh.kids|);
    forall i, j | 0 <= i < j < |s| ensures s[i] != s[j] { KidApart(sh, i, j); }
    forall i | 0 <= i < |s| ensures s[i] != item && JsonList.Linked(s, i) {
      KidApart(sh, i, i);
      assert KidLinked(sh, i);
    }
  }
}
