/** Editing the doubly linked child lists of common/molten_cJSON.c. */
module JsonList {

  import opened JsonItem

  function NodeAt(s: seq<Item>, i: int): Item? {
    if 0 <= i < |s| then s[i] else null
  }

  ghost predicate Distinct(s: seq<Item>) {
    forall i, j :: 0 <= i < j < |s| ==> s[i] != s[j]
  }

  ghost predicate Linked(s: seq<Item>, i: int)
    requires 0 <= i < |s|
    reads s
  {
    s[i].next == NodeAt(s, i + 1) && s[i].prev == NodeAt(s, i - 1)
  }

  /** The children of parent are exactly the nodes of s in order, linked both ways. */
  ghost predicate Chain(parent: Item, s: seq<Item>)
    reads parent, s
  {
    parent !in s && Distinct(s) && parent.child == NodeAt(s, 0) && forall i :: 0 <= i < |s| ==> Linked(s, i)
  }

  // ----- Sequences after an edit -----

  ghost function Inserted(s: seq<Item>, k: nat, x: Item): seq<Item>
    requires k <= |s|
  {
    s[..k] + [x] + s[k..]
  }

  ghost function Removed(s: seq<Item>, k: nat): seq<Item>
    requires k < |s|
  {
    s[..k] + s[k + 1..]
  }

  lemma InsertedAt(s: seq<Item>, k: nat, x: Item, i: int)
    requires k <= |s|
    ensures |Inserted(s, k, x)| == |s| + 1
    ensures NodeAt(Inserted(s, k, x), i) == if i < k then NodeAt(s, i) else if i == k then x else NodeAt(s, i - 1)
  {}

  lemma InsertedDistinct(s: seq<Item>, k: nat, x: Item)
    requires k <= |s| && Distinct(s) && x !in s
    ensures Distinct(Inserted(s, k, x))
  {}

  lemma RemovedAt(s: seq<Item>, k: nat, i: int)
    requires k < |s|
    ensures |Removed(s, k)| == |s| - 1
    ensures NodeAt(Removed(s, k), i) == if i < k then NodeAt(s, i) else NodeAt(s, i + 1)
  {}

  lemma RemovedDistinct(s: seq<Item>, k: nat)
    requires k < |s| && Distinct(s)
    ensures Distinct(Removed(s, k))
  {}

  lemma ReplacedAt(s: seq<Item>, k: nat, x: Item, i: int)
    requires k < |s|
    ensures NodeAt(s[k := x], i) == if i == k then x else NodeAt(s, i)
  {}

  lemma ReplacedDistinct(s: seq<Item>, k: nat, x: Item)
    requires k < |s| && Distinct(s) && x !in s
    ensures Distinct(s[k := x])
  {}

  /** The links of the nodes of s once the one at k has been bypassed. */
  ghost predicate Bypassed(s: seq<Item>, k: nat, j: int)
    requires 0 <= j < |s|
    reads s
  {
    j != k ==>
      && s[j].next == NodeAt(s, if j == k - 1 then k + 1 else j + 1)
      && s[j].prev == NodeAt(s, if j == k + 1 then k - 1 else j - 1)
  }

  lemma RemovedLinked(s: seq<Item>, k: nat, i: int)
    requires k < |s| && 0 <= i < |Removed(s, k)|
    requires forall j :: 0 <= j < |s| ==> Bypassed(s, k, j)
    ensures Linked(Removed(s, k), i)
  {
    hide Removed, NodeAt;
    RemovedAt(s, k, i - 1);
    RemovedAt(s, k, i);
    RemovedAt(s, k, i + 1);
    NodeAtIndex(Removed(s, k), i);
    var j := if i < k then i else i + 1;
    NodeAtIndex(s, j);
    assert Bypassed(s, k, j);
  }

  /** The same once x stands before the node at k. */
  ghost predicate Squeezed(s: seq<Item>, k: nat, x: Item, j: int)
    requires 0 <= j < |s|
    reads s
  {
    && s[j].next == (if j == k - 1 then x else NodeAt(s, j + 1))
    && s[j].prev == (if j == k then x else NodeAt(s, j - 1))
  }

  lemma InsertedLinked(s: seq<Item>, k: nat, x: Item, i: int)
    requires k <= |s| && 0 <= i <= |s|
    requires forall j :: 0 <= j < |s| ==> Squeezed(s, k, x, j)
    requires x.next == NodeAt(s, k) && x.prev == NodeAt(s, k - 1)
    ensures |Inserted(s, k, x)| == |s| + 1 && Linked(Inserted(s, k, x), i)
  {
    hide Inserted, NodeAt;
    InsertedAt(s, k, x, i - 1);
    InsertedAt(s, k, x, i);
    InsertedAt(s, k, x, i + 1);
    NodeAtIndex(Inserted(s, k, x), i);
    if i != k {
      var j := if i < k then i else i - 1;
      NodeAtIndex(s, j);
      assert Squeezed(s, k, x, j);
    }
  }

  /** The same once x stands in the place of the node at k. */
  ghost predicate Swapped(s: seq<Item>, k: nat, x: Item, j: int)
    requires 0 <= j < |s|
    reads s
  {
    j != k ==>
      && s[j].next == (if j == k - 1 then x else NodeAt(s, j + 1))
      && s[j].prev == (if j == k + 1 then x else NodeAt(s, j - 1))
  }

  lemma ReplacedLinked(s: seq<Item>, k: nat, x: Item, i: int)
    requires k < |s| && 0 <= i < |s|
    requires forall j :: 0 <= j < |s| ==> Swapped(s, k, x, j)
    requires x.next == NodeAt(s, k + 1) && x.prev == NodeAt(s, k - 1)
    ensures Linked(s[k := x], i)
  {
    hide NodeAt;
    ReplacedAt(s, k, x, i - 1);
    ReplacedAt(s, k, x, i);
    ReplacedAt(s, k, x, i + 1);
    NodeAtIndex(s[k := x], i);
    NodeAtIndex(s, i);
    assert Swapped(s, k, x, i);
  }

  lemma NodeAtIndex(s: seq<Item>, i: int)
    requires 0 <= i < |s|
    ensures NodeAt(s, i) == s[i]
  {}

  /** Detaching undoes inserting and inserting undoes detaching. */
  lemma EditsUndo(s: seq<Item>, k: nat, x: Item)
    ensures k <= |s| ==> Removed(Inserted(s, k, x), k) == s && Inserted(s, k, x)[k] == x
    ensures k < |s| ==> Inserted(Removed(s, k), k, s[k]) == s
  {}

  lemma SameNode(s: seq<Item>, i: int, j: int)
    requires Distinct(s) && 0 <= i < |s|
    ensures NodeAt(s, i) == NodeAt(s, j) <==> i == j
  {}

  /** The position the walk "while (c && which > 0)" reaches. */
  function Position(which: int, size: nat): (k: nat)
    ensures k <= size
  {
    if which <= 0 then 0 else if which < size then which else size
  }

  /** A negative position is the first one, one past the end the end. */
  lemma PositionIs(which: int, size: nat)
    ensures Position(which, size) <= size && (0 <= which <= size ==> Position(which, size) == which)
    ensures (which < 0 ==> Position(which, size) == 0) && (which > size ==> Position(which, size) == size)
  {}

  method Walk(parent: Item, which: int, ghost s: seq<Item>) returns (c: Item?)
    requires Chain(parent, s)
    ensures c == NodeAt(s, Position(which, |s|))
  {
    c := parent.child;
    var left := which;
    ghost var k := 0;
    while c != null && left > 0
      invariant 0 <= k <= |s| && c == NodeAt(s, k)
      invariant left == which - k && (k > 0 ==> left >= 0)
      decreases |s| - k
    {
      assert Linked(s, k);
      c, left, k := c.next, left - 1, k + 1;
    }
  }

  method GetArraySize(parent: Item, ghost s: seq<Item>) returns (i: nat)
    requires Chain(parent, s)
    ensures i == |s|
  {
    var c := parent.child;
    i := 0;
    while c != null
      invariant i <= |s| && c == NodeAt(s, i)
      decreases |s| - i
    {
      assert Linked(s, i);
      c, i := c.next, i + 1;
    }
  }

  method SuffixObject(prev: Item, item: Item)
    modifies prev`next, item`prev
    ensures prev.next == item && item.prev == prev
  {
    prev.next := item;
    item.prev := prev;
  }

  /** Append. The C code leaves item -> next as it is, so a caller passes an unlinked item. */
  method AddItemToArray(parent: Item, item: Item?, ghost s: seq<Item>)
    requires Chain(parent, s)
    requires item != null ==> item != parent && item !in s && item.next == null && item.prev == null
    modifies parent`child, s, {item}
    ensures item == null ==> Chain(parent, s)
    ensures item != null ==> Chain(parent, Inserted(s, |s|, item))
    ensures item != null ==> item.child == old(item.child) && item.data == old(item.data)
    ensures forall n :: n in s ==> n.child == old(n.child) && n.data == old(n.data)
  {
    if item == null {
      return;
    }
    var c := parent.child;
    if c == null {
      parent.child := item;
    } else {
      ghost var k := 0;
      while c.next != null
        invariant 0 <= k < |s| && c == s[k]
        decreases |s| - k
      {
        assert Linked(s, k);
        c, k := c.next, k + 1;
      }
      assert Linked(s, k);
      SuffixObject(c, item);
    }
    forall j | 0 <= j < |s| ensures Squeezed(s, |s|, item, j) {
      assert old(Linked(s, j));
      SameNode(s, j, |s| - 1);
    }
    FinishInsert(parent, s, |s|, item);
  }

  /** The pointer writes around x amount to inserting it at k. */
  lemma FinishInsert(parent: Item, s: seq<Item>, k: nat, x: Item)
    requires k <= |s| && parent !in s && Distinct(s) && x != parent && x !in s
    requires x.next == NodeAt(s, k) && x.prev == NodeAt(s, k - 1)
    requires parent.child == if k == 0 then x else NodeAt(s, 0)
    requires forall j :: 0 <= j < |s| ==> Squeezed(s, k, x, j)
    ensures Chain(parent, Inserted(s, k, x))
  {
    hide Inserted, NodeAt;
    forall i | 0 <= i <= |s| ensures |Inserted(s, k, x)| == |s| + 1 && Linked(Inserted(s, k, x), i) {
      InsertedLinked(s, k, x, i);
    }
    InsertedDistinct(s, k, x);
    InsertedAt(s, k, x, 0);
    InsertedMembers(s, k, x);
  }

  /** Insert before position which, or append past the end. */
  method InsertItemInArray(parent: Item, which: int, newitem: Item, ghost s: seq<Item>)
    requires Chain(parent, s) && newitem != parent && newitem !in s
    requires Position(which, |s|) == |s| ==> newitem.next == null && newitem.prev == null
    modifies parent`child, s, newitem
    ensures Chain(parent, Inserted(s, Position(which, |s|), newitem))
    ensures newitem.child == old(newitem.child) && newitem.data == old(newitem.data)
    ensures forall n :: n in s ==> n.child == old(n.child) && n.data == old(n.data)
  {
    var c := Walk(parent, which, s);
    ghost var k: int := Position(which, |s|);
    if c == null {
      AddItemToArray(parent, newitem, s);
      return;
    }
    assert Linked(s, k);
    SameNode(s, k, 0);
    newitem.next := c;
    newitem.prev := c.prev;
    c.prev := newitem;
    if c == parent.child {
      parent.child := newitem;
    } else {
      newitem.prev.next := newitem;
    }
    forall j | 0 <= j < |s| ensures Squeezed(s, k, newitem, j) {
      assert old(Linked(s, j));
      SameNode(s, j, k - 1);
      SameNode(s, j, k);
    }
    FinishInsert(parent, s, k, newitem);
  }

  /** Unlink and return the item at position which, or null past the end. */
  method DetachItemFromArray(parent: Item, which: int, ghost s: seq<Item>) returns (c: Item?)
    requires Chain(parent, s)
    modifies parent`child, s
    ensures var k := Position(which, |s|);
            c == NodeAt(s, k)
            && (k < |s| ==> Chain(parent, Removed(s, k)) && s[k].next == null && s[k].prev == null)
            && (k == |s| ==> Chain(parent, s))
    ensures forall n :: n in s ==> n.child == old(n.child) && n.data == old(n.data)
  {
    c := Walk(parent, which, s);
    if c == null {
      return;
    }
    ghost var k: int := Position(which, |s|);
    assert Linked(s, k);
    SameNode(s, k, 0);
    if c.prev != null { c.prev.next := c.next; }
    if c.next != null { c.next.prev := c.prev; }
    if c == parent.child { parent.child := c.next; }
    c.prev, c.next := null, null;
    forall j | 0 <= j < |s| ensures Bypassed(s, k, j) {
      assert old(Linked(s, j));
      SameNode(s, j, k);
      SameNode(s, j, k - 1);
      SameNode(s, j, k + 1);
    }
    FinishRemove(parent, s, k);
  }

  lemma FinishRemove(parent: Item, s: seq<Item>, k: nat)
    requires k < |s| && parent !in s && Distinct(s)
    requires parent.child == if k == 0 then NodeAt(s, 1) else NodeAt(s, 0)
    requires forall j :: 0 <= j < |s| ==> Bypassed(s, k, j)
    ensures Chain(parent, Removed(s, k))
  {
    hide Removed, NodeAt;
    RemovedAt(s, k, 0);
    forall i | 0 <= i < |Removed(s, k)| ensures Linked(Removed(s, k), i) { RemovedLinked(s, k, i); }
    RemovedDistinct(s, k);
    RemovedMembers(s, k);
  }

  /** Detaching an item and inserting it again at the same position restores the list. */
  method DetachAndInsert(parent: Item, which: int, ghost s: seq<Item>) returns (c: Item?)
    requires Chain(parent, s)
    modifies parent`child, s
    ensures Chain(parent, s) && c == NodeAt(s, Position(which, |s|))
    ensures forall n :: n in s ==> n.child == old(n.child) && n.data == old(n.data)
  {
    c := DetachItemFromArray(parent, which, s);
    if c != null {
      ghost var k := Position(which, |s|);
      EditsUndo(s, k, c);
      RemovedMembers(s, k);
      InsertItemInArray(parent, which, c, Removed(s, k));
    }
  }

  /** Put newitem in the place of the item at position which; nothing happens past the end. */
  method ReplaceItemInArray(parent: Item, which: int, newitem: Item, ghost s: seq<Item>)
    requires Chain(parent, s) && newitem != parent && newitem !in s
    modifies parent`child, s, newitem
    ensures var k := Position(which, |s|);
            && (k < |s| ==> Chain(parent, s[k := newitem]) && s[k].next == null && s[k].prev == null)
            && (k == |s| ==> Chain(parent, s) && newitem.next == old(newitem.next) && newitem.prev == old(newitem.prev))
    ensures newitem.child == old(newitem.child) && newitem.data == old(newitem.data)
    ensures forall n :: n in s ==> n.child == old(n.child) && n.data == old(n.data)
  {
    var c := Walk(parent, which, s);
    if c == null {
      return;
    }
    ghost var k: int := Position(which, |s|);
    assert Linked(s, k);
    SameNode(s, k, 0);
    newitem.next := c.next;
    newitem.prev := c.prev;
    if newitem.next != null { newitem.next.prev := newitem; }
    if c == parent.child {
      parent.child := newitem;
    } else {
      newitem.prev.next := newitem;
    }
    c.next, c.prev := null, null;
    forall j | 0 <= j < |s| ensures Swapped(s, k, newitem, j) {
      assert old(Linked(s, j));
      SameNode(s, j, k);
      SameNode(s, j, k - 1);
      SameNode(s, j, k + 1);
    }
    FinishReplace(parent, s, k, newitem);
  }

  lemma FinishReplace(parent: Item, s: seq<Item>, k: nat, x: Item)
    requires k < |s| && parent !in s && Distinct(s) && x != parent && x !in s
    requires x.next == NodeAt(s, k + 1) && x.prev == NodeAt(s, k - 1)
    requires parent.child == if k == 0 then x else NodeAt(s, 0)
    requires forall j :: 0 <= j < |s| ==> Swapped(s, k, x, j)
    ensures Chain(parent, s[k := x])
  {
    hide NodeAt;
    var t := s[k := x];
    forall i | 0 <= i < |t| ensures Linked(t, i) { ReplacedLinked(s, k, x, i); }
    ReplacedDistinct(s, k, x);
    ReplacedAt(s, k, x, 0);
  }

  lemma InsertedMembers(s: seq<Item>, k: nat, x: Item)
    requires k <= |s|
    ensures forall n :: n in Inserted(s, k, x) ==> n == x || n in s
  {}

  lemma RemovedMembers(s: seq<Item>, k: nat)
    requires k < |s|
    ensures forall n :: n in Removed(s, k) ==> n in s
  {}
}
