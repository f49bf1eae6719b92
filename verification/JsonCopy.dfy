/** cJSON_Duplicate: a deep copy of a linked item structure. */
module JsonCopy {

  import opened JsonItem

  datatype Tree = Tree(data: Data, kids: seq<Tree>)

  function Owned(d: Data): Data {
    d.(reference := false)
  }

  // ----- What an item structure means; references may share their children -----

  ghost predicate Unfolds(item: Item, t: Tree, heap: set<Item>)
    reads heap
    decreases t, |t.kids| + 1
  {
    item in heap && item.data == t.data && ChainFrom(item.child, t, 0, heap)
  }

  /** The list from c on unfolds to the children of t from number k on. */
  ghost predicate ChainFrom(c: Item?, t: Tree, k: nat, heap: set<Item>)
    requires k <= |t.kids|
    reads heap
    decreases t, |t.kids| - k
  {
    if k == |t.kids| then c == null
    else c != null && Unfolds(c, t.kids[k], heap) && ChainFrom(c.next, t, k + 1, heap)
  }

  /** The tree without reference marks. */
  function OwnedTree(t: Tree): Tree
    decreases t, |t.kids| + 1
  {
    Tree(Owned(t.data), OwnedKids(t, |t.kids|))
  }

  function OwnedKids(t: Tree, k: nat): (ts: seq<Tree>)
    requires k <= |t.kids|
    ensures |ts| == k
    decreases t, k
  {
    if k == 0 then [] else OwnedKids(t, k - 1) + [OwnedTree(t.kids[k - 1])]
  }

  lemma {:induction false} OwnedKidsAt(t: Tree, k: nat, j: nat)
    requires j < k <= |t.kids|
    ensures OwnedKids(t, k)[j] == OwnedTree(t.kids[j])
  {
    if j < k - 1 { OwnedKidsAt(t, k - 1, j); }
  }

  // ----- Copies: every node belongs to one place -----

  datatype Shape = Shape(node: Item, kids: seq<Shape>)

  ghost function Nodes(sh: Shape): set<Item>
    decreases sh, |sh.kids| + 1
  {
    {sh.node} + Below(sh, |sh.kids|)
  }

  ghost function Below(sh: Shape, k: nat): (r: set<Item>)
    requires k <= |sh.kids|
    ensures forall j :: 0 <= j < k ==> Nodes(sh.kids[j]) <= r
    decreases sh, k
  {
    if k == 0 then {} else Below(sh, k - 1) + Nodes(sh.kids[k - 1])
  }

  ghost predicate Separate(sh: Shape)
    decreases sh
  {
    && sh.node !in Below(sh, |sh.kids|)
    && (forall j :: 0 <= j < |sh.kids| ==> Separate(sh.kids[j]))
    && (forall i, j :: 0 <= i < j < |sh.kids| ==> Nodes(sh.kids[i]) !! Nodes(sh.kids[j]))
  }

  function KidAt(sh: Shape, j: int): Item? {
    if 0 <= j < |sh.kids| then sh.kids[j].node else null
  }

  ghost predicate KidLinked(sh: Shape, j: nat)
    requires j < |sh.kids|
    reads sh.kids[j].node
  {
    sh.kids[j].node.next == KidAt(sh, j + 1) && sh.kids[j].node.prev == KidAt(sh, j - 1)
  }

  /** The nodes of sh hold t, with consistent links between siblings. */
  ghost predicate Laid(sh: Shape, t: Tree)
    reads sh.node`data, sh.node`child, Below(sh, |sh.kids|)
    decreases sh
  {
    && sh.node.data == t.data && |sh.kids| == |t.kids|
    && sh.node.child == KidAt(sh, 0)
    && forall j :: 0 <= j < |sh.kids| ==> KidLinked(sh, j) && Laid(sh.kids[j], t.kids[j])
  }

  // ----- One more child -----

  ghost function Grown(sh: Shape, kid: Shape): Shape {
    Shape(sh.node, sh.kids + [kid])
  }

  lemma {:induction false} BelowSame(sh: Shape, kid: Shape, k: nat)
    requires k <= |sh.kids|
    ensures Below(Grown(sh, kid), k) == Below(sh, k)
  {
    if k > 0 { BelowSame(sh, kid, k - 1); }
  }

  lemma GrownNodes(sh: Shape, kid: Shape)
    ensures Nodes(Grown(sh, kid)) == Nodes(sh) + Nodes(kid)
  {
    BelowSame(sh, kid, |sh.kids|);
  }

  lemma GrownSeparate(sh: Shape, kid: Shape)
    requires Separate(sh) && Separate(kid) && Nodes(sh) !! Nodes(kid)
    ensures Separate(Grown(sh, kid))
  {
    BelowSame(sh, kid, |sh.kids|);
  }

  /** Where the node of a child can occur: in no other child, and not below itself. */
  lemma KidApart(sh: Shape, i: nat, j: nat)
    requires Separate(sh) && i < |sh.kids| && j < |sh.kids|
    ensures sh.kids[i].node !in Below(sh.kids[j], |sh.kids[j].kids|)
    ensures i != j ==> sh.kids[i].node != sh.kids[j].node
    ensures sh.kids[i].node != sh.node
  {
    assert sh.kids[i].node in Nodes(sh.kids[i]) && sh.kids[j].node in Nodes(sh.kids[j]);
  }

  // ----- The copy -----

  ghost function Partial(t: Tree, k: nat): Tree
    requires k <= |t.kids|
  {
    Tree(Owned(t.data), OwnedKids(t, k))
  }

  lemma ChainStep(c: Item?, t: Tree, k: nat, heap: set<Item>)
    requires k <= |t.kids| && ChainFrom(c, t, k, heap)
    ensures c == null <==> k == |t.kids|
    ensures c != null ==> c in heap && Unfolds(c, t.kids[k], heap) && ChainFrom(c.next, t, k + 1, heap)
  {
    if k < |t.kids| { assert Unfolds(c, t.kids[k], heap); }
  }

  lemma Leaf(node: Item, t: Tree)
    requires node.child == null && node.data == Owned(t.data)
    ensures Nodes(Shape(node, [])) == {node} && Separate(Shape(node, [])) && Laid(Shape(node, []), Partial(t, 0))
  {}

  lemma LastKid(sh: Shape)
    requires Separate(sh)
    ensures sh.node in Nodes(sh) && Below(sh, |sh.kids|) <= Nodes(sh)
    ensures |sh.kids| > 0 ==> var last := sh.kids[|sh.kids| - 1].node; last in Nodes(sh) && last != sh.node
  {
    if |sh.kids| > 0 { KidApart(sh, |sh.kids| - 1, |sh.kids| - 1); }
  }

  method Duplicate(item: Item, recurse: bool, ghost t: Tree, ghost heap: set<Item>)
    returns (newitem: Item, ghost sh: Shape)
    requires Unfolds(item, t, heap)
    ensures sh.node == newitem && newitem.next == null && newitem.prev == null
    ensures var d, e := newitem.data, item.data;
            d.kind == e.kind && d.value == e.value && d.text == e.text && d.name == e.name && !d.reference
    ensures !recurse ==> newitem.child == null
    ensures fresh(Nodes(sh)) && Separate(sh)
    ensures Laid(sh, if recurse then OwnedTree(t) else Partial(t, 0))
    decreases t
  {
    hide Laid, Separate, Below, Nodes, ChainFrom;
    newitem := new Item(Owned(item.data));
    sh := Shape(newitem, []);
    Leaf(newitem, t);
    if !recurse { return; }
    var cptr, nptr: Item? := item.child, null;
    ghost var k := 0;
    while cptr != null
      invariant k <= |t.kids| && ChainFrom(cptr, t, k, heap)
      invariant sh.node == newitem && newitem.next == null && newitem.prev == null
      invariant newitem.data == Owned(item.data)
      invariant |sh.kids| == k && nptr == KidAt(sh, k - 1)
      invariant fresh(Nodes(sh)) && Separate(sh)
      invariant Laid(sh, Partial(t, k))
      decreases |t.kids| - k
    {
      ChainStep(cptr, t, k, heap);
      LastKid(sh);
      ghost var mine := Nodes(sh);
      assert allocated(mine);
      var newchild, kid := Duplicate(cptr, true, t.kids[k], heap);
      assert mine !! Nodes(kid);
      LastKid(kid);
      GrownNodes(sh, kid);
      GrownSeparate(sh, kid);
      Attach(newitem, nptr, newchild, sh, kid, Partial(t, k), OwnedTree(t.kids[k]));
      sh := Grown(sh, kid);
      nptr := newchild;
      cptr := cptr.next;
      k := k + 1;
    }
    ChainStep(cptr, t, k, heap);
  }

  lemma LaidParts(sh: Shape, t: Tree)
    requires Laid(sh, t)
    ensures sh.node.data == t.data && |sh.kids| == |t.kids| && sh.node.child == KidAt(sh, 0)
    ensures forall j :: 0 <= j < |sh.kids| ==> KidLinked(sh, j)
    ensures forall j :: 0 <= j < |sh.kids| ==> Laid(sh.kids[j], t.kids[j])
  {}

  lemma LaidWhole(sh: Shape, t: Tree)
    requires sh.node.data == t.data && |sh.kids| == |t.kids| && sh.node.child == KidAt(sh, 0)
    requires forall j :: 0 <= j < |sh.kids| ==> KidLinked(sh, j)
    requires forall j :: 0 <= j < |sh.kids| ==> Laid(sh.kids[j], t.kids[j])
    ensures Laid(sh, t)
  {}

  /** The link fields written when a child is hung behind the others touch no finished copy. */
  lemma AttachApart(sh: Shape, kid: Shape, j: nat)
    requires Separate(sh) && Separate(kid) && Nodes(sh) !! Nodes(kid) && j < |sh.kids|
    ensures var below := Below(sh.kids[j], |sh.kids[j].kids|);
            && sh.node !in below && kid.node !in below && sh.kids[|sh.kids| - 1].node !in below
            && sh.kids[j].node != sh.node && sh.kids[j].node != kid.node
            && (j < |sh.kids| - 1 ==> sh.kids[j].node != sh.kids[|sh.kids| - 1].node)
  {
    KidApart(sh, |sh.kids| - 1, j);
    assert sh.kids[j].node in Nodes(sh.kids[j]);
    assert Nodes(sh.kids[j]) <= Nodes(sh);
  }

  lemma KidOwnApart(sh: Shape, kid: Shape)
    requires Separate(kid) && Nodes(sh) !! Nodes(kid)
    ensures var below := Below(kid, |kid.kids|);
            && sh.node !in below && kid.node !in below && sh.node != kid.node
            && (|sh.kids| > 0 ==> sh.kids[|sh.kids| - 1].node !in below && sh.kids[|sh.kids| - 1].node != kid.node)
  {
    if |sh.kids| > 0 {
      var last := sh.kids[|sh.kids| - 1];
      assert last.node in Nodes(last) && Nodes(last) <= Nodes(sh);
    }
  }

  /** Hangs a finished copy behind the children already there. */
  method Attach(parent: Item, last: Item?, newchild: Item,
                ghost sh: Shape, ghost kid: Shape, ghost t: Tree, ghost u: Tree)
    requires sh.node == parent && kid.node == newchild && last == KidAt(sh, |sh.kids| - 1)
    requires Separate(sh) && Separate(kid) && Nodes(sh) !! Nodes(kid)
    requires Laid(sh, t) && Laid(kid, u) && newchild.next == null && newchild.prev == null
    modifies parent`child, newchild`prev, if last == null then {} else {last}
    ensures Laid(Grown(sh, kid), Tree(t.data, t.kids + [u]))
  {
    hide Separate, Laid, Below, Nodes;
    ghost var n := |sh.kids|;
    LaidParts(sh, t);
    KidOwnApart(sh, kid);
    forall j | 0 <= j < n
      ensures var below := Below(sh.kids[j], |sh.kids[j].kids|);
              && sh.node !in below && kid.node !in below && sh.kids[n - 1].node !in below
              && sh.kids[j].node != sh.node && sh.kids[j].node != kid.node
              && (j < n - 1 ==> sh.kids[j].node != sh.kids[n - 1].node)
    {
      AttachApart(sh, kid, j);
    }
    if last != null {
      last.next := newchild;
      newchild.prev := last;
    } else {
      parent.child := newchild;
    }
    forall j | 0 <= j < n ensures Laid(sh.kids[j], t.kids[j]) && KidLinked(Grown(sh, kid), j) {
      assert old(KidLinked(sh, j));
      assert old(Laid(sh.kids[j], t.kids[j]));
    }
    LaidWhole(Grown(sh, kid), Tree(t.data, t.kids + [u]));
  }

  // ----- A copy reads back as the tree it was made from -----

  /** Read as an input, a copy unfolds to exactly the tree it holds, so it can itself be copied. */
  lemma {:induction false} CopyUnfolds(sh: Shape, t: Tree, heap: set<Item>)
    requires Laid(sh, t) && Nodes(sh) <= heap
    ensures Unfolds(sh.node, t, heap)
    decreases t, |t.kids| + 1
  {
    hide Laid;
    LaidParts(sh, t);
    CopyChain(sh, t, 0, heap);
  }

  lemma {:induction false} CopyChain(sh: Shape, t: Tree, k: nat, heap: set<Item>)
    requires Laid(sh, t) && Nodes(sh) <= heap && k <= |t.kids|
    ensures ChainFrom(KidAt(sh, k), t, k, heap)
    decreases t, |t.kids| - k
  {
    hide Laid;
    LaidParts(sh, t);
    if k < |t.kids| {
      assert KidLinked(sh, k);
      CopyUnfolds(sh.kids[k], t.kids[k], heap);
      CopyChain(sh, t, k + 1, heap);
    }
  }

  /** A copy holds one node for every node of the tree, however much the original shared. */
  lemma {:induction false} CopySize(sh: Shape, t: Tree)
    requires Laid(sh, t) && Separate(sh)
    ensures |Nodes(sh)| == TreeSize(t)
    decreases t, |t.kids| + 1
  {
    hide Laid;
    LaidParts(sh, t);
    KidsSize(sh, t, |t.kids|);
  }

  function TreeSize(t: Tree): nat
    decreases t, |t.kids| + 1
  {
    1 + KidsTotal(t, |t.kids|)
  }

  function KidsTotal(t: Tree, k: nat): nat
    requires k <= |t.kids|
    decreases t, k
  {
    if k == 0 then 0 else KidsTotal(t, k - 1) + TreeSize(t.kids[k - 1])
  }

  lemma {:induction false} KidsSize(sh: Shape, t: Tree, k: nat)
    requires Laid(sh, t) && Separate(sh) && k <= |t.kids| == |sh.kids|
    ensures |Below(sh, k)| == KidsTotal(t, k)
    decreases t, k
  {
    hide Laid, Separate, Nodes, Below, TreeSize;
    LaidParts(sh, t);
    if k == 0 {
      BelowNothing(sh);
    } else {
      KidsSize(sh, t, k - 1);
      SeparateKid(sh, k - 1);
      CopySize(sh.kids[k - 1], t.kids[k - 1]);
    }
  }

  lemma BelowNothing(sh: Shape)
    ensures Below(sh, 0) == {}
  {}

  lemma SeparateKid(sh: Shape, j: nat)
    requires Separate(sh) && j < |sh.kids|
    ensures Separate(sh.kids[j]) && |Below(sh, j + 1)| == |Below(sh, j)| + |Nodes(sh.kids[j])|
  {
    hide Nodes;
    BelowDisjoint(sh, j, j);
    UnionSize(Below(sh, j), Nodes(sh.kids[j]));
  }

  lemma UnionSize(a: set<Item>, b: set<Item>)
    requires a !! b
    ensures |a + b| == |a| + |b|
  {}

  lemma {:induction false} BelowDisjoint(sh: Shape, n: nat, k: nat)
    requires Separate(sh) && n <= k < |sh.kids|
    ensures Below(sh, n) !! Nodes(sh.kids[k])
    decreases n
  {
    hide Nodes;
    if n > 0 { BelowDisjoint(sh, n - 1, k); }
  }
}
