/** What a structure of items stands for, by the kinds and fields of common/molten_cJSON.h. */
module JsonMeaning {

  import opened JsonCopy
  import opened JsonItem
  import opened JsonTree
  import opened Prelude

  // ----- Reading a value from its items -----

  function ValueOf(t: Tree): Json
    decreases t, |t.kids| + 1
  {
    match t.data.kind
    case 0 => False
    case 1 => True
    case 3 => Number(t.data.value)
    case 4 => String(if t.data.text.Some? then t.data.text.value else "")
    case 5 => Array(ItemsFrom(t, 0))
    case 6 => Object(MembersFrom(t, 0))
    case _ => Null
  }

  function ItemsFrom(t: Tree, k: nat): Items
    requires k <= |t.kids|
    decreases t, |t.kids| - k
  {
    if k == |t.kids| then NoItem else Items.Item(ValueOf(t.kids[k]), ItemsFrom(t, k + 1))
  }

  function MembersFrom(t: Tree, k: nat): Members
    requires k <= |t.kids|
    decreases t, |t.kids| - k
  {
    if k == |t.kids| then NoMember
    else
      var name := t.kids[k].data.name;
      Member(if name.Some? then name.value else "", ValueOf(t.kids[k]), MembersFrom(t, k + 1))
  }

  // ----- The fields of a parsed item -----

  /** The type codes of the header; valueint and valuestring are set where the type uses them and clear elsewhere. */
  predicate Fields(d: Data, v: Json, name: Option<string>) {
    && d.name == name && !d.reference
    && d.kind == (match v case False => 0 case True => 1 case Null => 2 case Number(_) => 3 case String(_) => 4
                          case Array(_) => 5 case Object(_) => 6)
    && d.value == (match v case True => 1 case Number(n) => n case _ => 0)
    && d.text == (match v case String(s) => Some(s) case _ => None)
  }

  // ----- A copy means what the original means -----

  /** The mark that children belong to another item is gone, and nothing else is different. */
  predicate Unmarked(d: Data, e: Data) {
    && d.kind == e.kind && d.value == e.value && d.text == e.text && d.name == e.name && !d.reference
  }

  /** The same structure, node by node, without such marks. */
  predicate OwnCopy(u: Tree, t: Tree)
    decreases t
  {
    && Unmarked(u.data, t.data) && |u.kids| == |t.kids|
    && forall k :: 0 <= k < |t.kids| ==> OwnCopy(u.kids[k], t.kids[k])
  }

  lemma {:induction false} OwnedIsCopy(t: Tree)
    ensures OwnCopy(OwnedTree(t), t)
    decreases t
  {
    hide OwnCopy;
    forall k | 0 <= k < |t.kids| ensures OwnCopy(OwnedTree(t).kids[k], t.kids[k]) {
      OwnedKidsAt(t, |t.kids|, k);
      OwnedIsCopy(t.kids[k]);
    }
    CopyWhole(OwnedTree(t), t);
  }

  lemma CopyWhole(u: Tree, t: Tree)
    requires Unmarked(u.data, t.data) && |u.kids| == |t.kids|
    requires forall k :: 0 <= k < |t.kids| ==> OwnCopy(u.kids[k], t.kids[k])
    ensures OwnCopy(u, t)
  {}

  lemma CopyPart(u: Tree, t: Tree, k: nat)
    requires OwnCopy(u, t)
    ensures Unmarked(u.data, t.data) && |u.kids| == |t.kids| && (k < |t.kids| ==> OwnCopy(u.kids[k], t.kids[k]))
  {}

  /** A copy stands for the same value. */
  lemma {:induction false} CopyMeans(u: Tree, t: Tree)
    requires OwnCopy(u, t)
    ensures ValueOf(u) == ValueOf(t)
    decreases t, |t.kids| + 1
  {
    hide OwnCopy;
    CopyPart(u, t, 0);
    CopyItems(u, t, 0);
    CopyMembers(u, t, 0);
  }

  lemma {:induction false} CopyItems(u: Tree, t: Tree, k: nat)
    requires OwnCopy(u, t) && k <= |t.kids| == |u.kids|
    ensures ItemsFrom(u, k) == ItemsFrom(t, k)
    decreases t, |t.kids| - k
  {
    hide OwnCopy, ValueOf;
    CopyPart(u, t, k);
    if k < |t.kids| {
      CopyMeans(u.kids[k], t.kids[k]);
      CopyItems(u, t, k + 1);
    }
  }

  lemma {:induction false} CopyMembers(u: Tree, t: Tree, k: nat)
    requires OwnCopy(u, t) && k <= |t.kids| == |u.kids|
    ensures MembersFrom(u, k) == MembersFrom(t, k)
    decreases t, |t.kids| - k
  {
    hide OwnCopy, ValueOf;
    CopyPart(u, t, k);
    if k < |t.kids| {
      CopyPart(u.kids[k], t.kids[k], 0);
      CopyMeans(u.kids[k], t.kids[k]);
      CopyMembers(u, t, k + 1);
    }
  }
}
