/** Span contexts of molten_span.c in level-id mode, and the ids build_span_id_level gives them. */
module Span {

  import opened CText
  import opened Decimal
  import opened MoStack
  import opened Prelude

  datatype Ctx = Ctx(id: string, count: nat)

  // ----- Ids -----

  /** sprintf("%s.%d"): the parent's id, a dot and the child number. */
  function ChildId(parent: string, n: nat): string {
    parent + "." + OfInt(n)
  }

  const MAX_SPANS_LEN := 5

  /** The first child number of more than MAX_SPANS_LEN digits. */
  const TOO_MANY := 100_000

  /** The C code reserves five digits, a dot and a terminator, which is enough exactly below 100000. */
  lemma IdFits(parent: string, n: nat)
    ensures |ChildId(parent, n)| + 1 <= 2 + MAX_SPANS_LEN + |parent| <==> n < TOO_MANY
  {
    OfNatLength(n, 5);
    assert Power10(5) == TOO_MANY;
  }

  /** The id that is kept: a terminator is stored at the end of the reserved room. */
  function StoredId(parent: string, n: nat): string {
    var text, room := ChildId(parent, n), |parent| + 1 + MAX_SPANS_LEN;
    if |text| <= room then text else text[..room]
  }

  lemma StoredWhole(parent: string, n: nat)
    ensures StoredId(parent, n) == ChildId(parent, n) <==> n < TOO_MANY
    ensures |parent| < |StoredId(parent, n)|
  {
    IdFits(parent, n);
  }

  /** Child 100000 is stored under the id of child 10000. */
  lemma FirstCut(parent: string)
    ensures StoredId(parent, TOO_MANY) == ChildId(parent, 10_000) == StoredId(parent, 10_000)
  {
    hide OfInt, OfNat;
    StoredWhole(parent, 10_000);
    SixDigits();
    CutBehind(parent, OfInt(10_000), '0');
  }

  lemma SixDigits()
    ensures OfInt(TOO_MANY) == OfInt(10_000) + "0" && |OfInt(10_000)| == MAX_SPANS_LEN
  {}

  lemma CutBehind(parent: string, digits: string, c: char)
    requires |digits| == MAX_SPANS_LEN
    ensures (parent + "." + (digits + [c]))[..|parent| + 1 + MAX_SPANS_LEN] == parent + "." + digits
  {}

  ghost predicate NoDot(s: string) {
    forall i :: 0 <= i < |s| ==> s[i] != '.'
  }

  lemma OfIntNoDot(n: nat)
    ensures NoDot(OfInt(n))
  {
    OfNatAllDigits(n);
  }

  /** Dotted ids are unambiguous: the text determines the parent and the child number. */
  lemma ChildIdInjective(p: string, m: nat, q: string, n: nat)
    requires ChildId(p, m) == ChildId(q, n)
    ensures p == q && m == n
  {
    OfIntNoDot(m);
    OfIntNoDot(n);
    LastDot(p, OfInt(m), q, OfInt(n));
    OfNatInjective(m, n);
  }

  lemma NoDotBehind(p: string, a: string, k: nat)
    requires NoDot(a)
    ensures |p| < k < |p + "." + a| ==> (p + "." + a)[k] != '.'
  {
    if |p| < k < |p + "." + a| { assert (p + "." + a)[k] == a[k - |p| - 1]; }
  }

  lemma LastDot(p: string, a: string, q: string, b: string)
    requires NoDot(a) && NoDot(b) && p + "." + a == q + "." + b
    ensures p == q && a == b
  {
    var s := p + "." + a;
    assert s[|p|] == '.' && s[|q|] == '.';
    NoDotBehind(p, a, |q|);
    NoDotBehind(q, b, |p|);
    assert p == s[..|p|] && q == s[..|q|];
    assert a == s[|p| + 1..] && b == s[|q| + 1..];
  }

  // ----- Which contexts share an id -----

  /** The digits that are kept of a child number. */
  function Lead(n: nat): string {
    if |OfInt(n)| <= MAX_SPANS_LEN then OfInt(n) else OfInt(n)[..MAX_SPANS_LEN]
  }

  lemma StoredLead(parent: string, n: nat)
    ensures StoredId(parent, n) == parent + "." + Lead(n)
  {}

  /** Stored ids determine the parent's id and the first five digits of the number, and nothing else. */
  lemma StoredIdSame(p: string, m: nat, q: string, n: nat)
    ensures StoredId(p, m) == StoredId(q, n) <==> p == q && Lead(m) == Lead(n)
  {
    hide StoredId;
    StoredLead(p, m);
    StoredLead(q, n);
    OfIntNoDot(m);
    OfIntNoDot(n);
    if StoredId(p, m) == StoredId(q, n) { LastDot(p, Lead(m), q, Lead(n)); }
  }

  /** The id of the context reached from root by the child numbers of path. */
  function PathId(root: string, path: seq<nat>): string {
    if path == [] then root else StoredId(PathId(root, path[..|path| - 1]), path[|path| - 1])
  }

  ghost predicate SameLeads(p: seq<nat>, q: seq<nat>) {
    |p| == |q| && forall i :: 0 <= i < |p| ==> Lead(p[i]) == Lead(q[i])
  }

  lemma {:induction false} PathLonger(root: string, path: seq<nat>)
    ensures path != [] ==> |root| < |PathId(root, path)|
  {
    hide StoredId;
    if path != [] {
      var n := |path| - 1;
      PathLonger(root, path[..n]);
      StoredWhole(PathId(root, path[..n]), path[n]);
    }
  }

  /** Two contexts under one root carry the same id exactly when they lie equally deep and each number on the way to
      one agrees in its first five digits with that on the way to the other. */
  lemma {:induction false} PathIdSame(root: string, p: seq<nat>, q: seq<nat>)
    ensures PathId(root, p) == PathId(root, q) <==> SameLeads(p, q)
  {
    hide Lead, StoredId;
    PathLonger(root, p);
    PathLonger(root, q);
    if p != [] && q != [] {
      var p', q', m, n := p[..|p| - 1], q[..|q| - 1], p[|p| - 1], q[|q| - 1];
      PathIdSame(root, p', q');
      StoredIdSame(PathId(root, p'), m, PathId(root, q'), n);
      LeadsSnoc(p', q', m, n);
      assert p == p' + [m] && q == q' + [n];
    }
  }

  lemma LeadsSnoc(p: seq<nat>, q: seq<nat>, m: nat, n: nat)
    ensures SameLeads(p + [m], q + [n]) <==> SameLeads(p, q) && Lead(m) == Lead(n)
  {
    hide Lead;
    var a, b := p + [m], q + [n];
    assert forall i :: 0 <= i < |p| ==> a[i] == p[i];
    assert forall i :: 0 <= i < |q| ==> b[i] == q[i];
    assert a[|p|] == m && b[|q|] == n;
  }

  // ----- The stack of contexts -----

  function Last(s: seq<Ctx>): Ctx
    requires s != []
  {
    s[|s| - 1]
  }

  /** The stack after k more children were numbered under its top. */
  function Bumped(s: seq<Ctx>, k: nat): (r: seq<Ctx>)
    ensures |r| == |s|
  {
    if s == [] then [] else s[|s| - 1 := Ctx(Last(s).id, Last(s).count + k)]
  }

  function NewId(s: seq<Ctx>): string {
    if s == [] then "1" else StoredId(Last(s).id, Last(s).count)
  }

  function Pushed(s: seq<Ctx>): seq<Ctx> {
    Bumped(s, 1) + [Ctx(NewId(s), 1)]
  }

  lemma PushedShape(s: seq<Ctx>, i: nat)
    requires s != [] && i <= |s|
    ensures |Pushed(s)| == |s| + 1
    ensures Pushed(s)[i] == if i < |s| - 1 then s[i]
                            else if i == |s| - 1 then Ctx(Last(s).id, Last(s).count + 1)
                            else Ctx(NewId(s), 1)
  {}

  function PushedWithId(s: seq<Ctx>, id: string): seq<Ctx> {
    Bumped(s, 1) + [Ctx(id, 1)]
  }

  function Popped(s: seq<Ctx>): seq<Ctx> {
    if s == [] then [] else s[..|s| - 1]
  }

  /** On top of s stands a context of that id whose first child will be number 1; the old top has numbered one
      more, and nothing else is different. */
  ghost predicate OneMore(s: seq<Ctx>, t: seq<Ctx>, id: string) {
    && |t| == |s| + 1 && t[|s|].id == id && t[|s|].count == 1
    && (forall i :: 0 <= i < |s| ==> t[i].id == s[i].id)
    && (forall i :: 0 <= i < |s| ==> t[i].count == s[i].count + if i == |s| - 1 then 1 else 0)
  }

  lemma PushedIsOneMore(s: seq<Ctx>, id: string)
    ensures OneMore(s, PushedWithId(s, id), id) && OneMore(s, Pushed(s), NewId(s))
  {
    hide NewId;
  }

  /** The id printed into its buffer of 2 + MAX_SPANS_LEN + strlen(parent) characters; the array goes on with
      the memory behind the buffer as far as it is written to. The text ends at n. */
  method BuildSpanIdLevel(parent: Option<string>, count: nat) returns (id: array<char>, n: nat)
    ensures fresh(id) && n < id.Length && id[n] == NUL
    ensures id[..n] == if parent.None? then "1" else StoredId(parent.value, count)
    ensures id.Length == (if parent.None? then 2 else 2 + MAX_SPANS_LEN + |parent.value|)
       <==> parent.None? || count < TOO_MANY
  {
    if parent.Some? {
      var text := ChildId(parent.value, count);
      IdFits(parent.value, count);
      var len := 2 + MAX_SPANS_LEN + |parent.value|;
      id := new char[if |text| < len then len else |text| + 1](_ => NUL);
      n := CopyText(text, id, 0);
      id[n] := NUL;
      id[len - 1] := NUL;
      if n >= len { n := len - 1; }
      assert id[..n] == text[..n];
    } else {
      id := new char[2];
      id[0], id[1], n := '1', NUL, 1;
    }
  }

  method PushSpanContext(stack: Stack<Ctx>)
    requires stack.Valid()
    modifies stack, stack.elements
    ensures stack.Valid() && stack.Contents() == Pushed(old(stack.Contents()))
    ensures var s := old(stack.Contents());
            OneMore(s, stack.Contents(), if s == [] then "1" else StoredId(Last(s).id, Last(s).count))
    ensures stack.elements == old(stack.elements) || fresh(stack.elements)
  {
    hide OneMore, StoredId;
    PushedIsOneMore(stack.Contents(), "");
    var parent := stack.Top();
    var id, n;
    if parent.Some? {
      id, n := BuildSpanIdLevel(Some(parent.value.id), parent.value.count);
      stack.SetTop(Ctx(parent.value.id, parent.value.count + 1));
    } else {
      id, n := BuildSpanIdLevel(None, 0);
    }
    var _ := stack.PushElement(Ctx(id[..n], 1));
  }

  method PushSpanContextWithId(stack: Stack<Ctx>, id: string)
    requires stack.Valid()
    modifies stack, stack.elements
    ensures stack.Valid() && stack.Contents() == PushedWithId(old(stack.Contents()), id)
    ensures OneMore(old(stack.Contents()), stack.Contents(), id)
    ensures stack.elements == old(stack.elements) || fresh(stack.elements)
  {
    hide OneMore;
    PushedIsOneMore(stack.Contents(), id);
    var parent := stack.Top();
    if parent.Some? {
      stack.SetTop(Ctx(parent.value.id, parent.value.count + 1));
    }
    var _ := stack.PushElement(Ctx(id, 1));
  }

  method PopSpanContext(stack: Stack<Ctx>)
    requires stack.Valid()
    modifies stack`top, stack`destroyed
    ensures stack.Valid() && stack.Contents() == Popped(old(stack.Contents()))
  {
    var _ := stack.PopElement();
  }

  method RetrieveSpanId(stack: Stack<Ctx>) returns (id: Option<string>)
    requires stack.Valid()
    ensures id == if stack.Contents() == [] then None else Some(Last(stack.Contents()).id)
  {
    var context := stack.Top();
    id := if context.None? then None else Some(context.value.id);
  }

  method RetrieveParentSpanId(stack: Stack<Ctx>) returns (id: Option<string>)
    requires stack.Valid()
    ensures id == ParentId(stack.Contents())
  {
    var context := stack.SecElement();
    id := if context.None? then None else Some(context.value.id);
  }

  /** The id of the second element. */
  function ParentId(s: seq<Ctx>): Option<string> {
    if |s| < 2 then None else Some(s[|s| - 2].id)
  }
}
