/** Runs of pushes and pops on the span stack, and when two ids of a run are the same. */
module SpanRuns {

  import opened Decimal
  import opened Span

  datatype Op = PushOp | PushIdOp(id: string) | PopOp

  /** An id as it comes about: the "1" of an empty stack, one that is handed in, or the number of a child. */
  datatype Issue = First | Given(id: string) | Child(parent: string, num: nat)

  function Id(e: Issue): string {
    match e
    case First => "1"
    case Given(id) => id
    case Child(parent, num) => StoredId(parent, num)
  }

  /** The stack and every id issued so far, in order. */
  datatype Trace = Trace(stack: seq<Ctx>, issued: seq<Issue>)

  function NewIssue(s: seq<Ctx>): (e: Issue)
    ensures Id(e) == NewId(s)
  {
    if s == [] then First else Child(Last(s).id, Last(s).count)
  }

  function Step(t: Trace, op: Op): Trace {
    match op
    case PopOp => Trace(Popped(t.stack), t.issued)
    case PushOp => Trace(Pushed(t.stack), t.issued + [NewIssue(t.stack)])
    case PushIdOp(id) => Trace(PushedWithId(t.stack, id), t.issued + [Given(id)])
  }

  function Run(root: Ctx, ops: seq<Op>, n: nat): Trace
    requires n <= |ops|
  {
    if n == 0 then Trace([root], []) else Step(Run(root, ops, n - 1), ops[n - 1])
  }

  lemma RunNone(root: Ctx, ops: seq<Op>)
    ensures Run(root, ops, 0) == Trace([root], [])
  {}

  lemma RunNext(root: Ctx, ops: seq<Op>, n: nat)
    requires n < |ops|
    ensures Run(root, ops, n + 1) == Step(Run(root, ops, n), ops[n])
  {}

  // ----- What a run keeps -----

  ghost predicate IsIssued(id: string, issued: seq<Issue>) {
    exists k :: 0 <= k < |issued| && Id(issued[k]) == id
  }

  ghost predicate Known(id: string, root: Ctx, issued: seq<Issue>) {
    id == root.id || IsIssued(id, issued)
  }

  /** An issued id has a smaller number than the next one its parent will give. */
  ghost predicate Behind(e: Issue, c: Ctx) {
    e.Child? && e.parent == c.id ==> e.num < c.count
  }

  /** Distinct ids; siblings strictly increase. */
  ghost predicate Apart(e: Issue, f: Issue) {
    Id(e) != Id(f) && (e.Child? && f.Child? && e.parent == f.parent ==> e.num < f.num)
  }

  /** Not the root's id, and a child's parent is known. */
  ghost predicate Descends(e: Issue, root: Ctx, issued: seq<Issue>) {
    Id(e) != root.id && (e.Child? ==> Known(e.parent, root, issued))
  }

  ghost predicate IssuedInv(issued: seq<Issue>, root: Ctx) {
    && (forall k :: 0 <= k < |issued| ==> Descends(issued[k], root, issued))
    && (forall k, l :: 0 <= k < l < |issued| ==> Apart(issued[k], issued[l]))
  }

  ghost predicate Inv(t: Trace, root: Ctx) {
    && (forall i, j :: 0 <= i < j < |t.stack| ==> t.stack[i].id != t.stack[j].id)
    && (forall i :: 0 <= i < |t.stack| ==> Known(t.stack[i].id, root, t.issued))
    && (forall k, i :: 0 <= k < |t.issued| && 0 <= i < |t.stack| ==> Behind(t.issued[k], t.stack[i]))
    && IssuedInv(t.issued, root)
  }

  lemma KnownGrows(id: string, root: Ctx, issued: seq<Issue>, e: Issue)
    ensures Known(id, root, issued) || id == Id(e) ==> Known(id, root, issued + [e])
  {
    IssuedMore(id, issued, e);
  }

  lemma IssuedMore(id: string, issued: seq<Issue>, e: Issue)
    ensures IsIssued(id, issued) || id == Id(e) ==> IsIssued(id, issued + [e])
  {
    var more := issued + [e];
    assert more[|issued|] == e;
    if IsIssued(id, issued) {
      var k :| 0 <= k < |issued| && Id(issued[k]) == id;
      assert Id(more[k]) == id;
    }
  }

  /** A new context with an id that is not known yet: numbered by the top, or an id of its own. */
  ghost predicate IsNew(t: Trace, e: Issue, root: Ctx) {
    && !Known(Id(e), root, t.issued)
    && (e.Child? ==> t.stack != [] && e.parent == Last(t.stack).id && e.num == Last(t.stack).count)
  }

  function Extended(t: Trace, e: Issue): Trace {
    Trace(Bumped(t.stack, 1) + [Ctx(Id(e), 1)], t.issued + [e])
  }

  lemma ExtendedShape(t: Trace, e: Issue, i: nat)
    requires i <= |t.stack|
    ensures |Extended(t, e).stack| == |t.stack| + 1
    ensures Extended(t, e).stack[i] == if i == |t.stack| then Ctx(Id(e), 1)
                                       else if i == |t.stack| - 1 then Ctx(t.stack[i].id, t.stack[i].count + 1)
                                       else t.stack[i]
  {}

  lemma StackKnown(t: Trace, root: Ctx, i: nat)
    requires Inv(t, root) && i < |t.stack|
    ensures Known(t.stack[i].id, root, t.issued)
  {}

  /** The parts of the invariant for a new context, one at a time. */
  lemma ExtendedBehind(t: Trace, e: Issue, root: Ctx, k: nat, i: nat)
    requires Inv(t, root) && IsNew(t, e, root) && k <= |t.issued| && i <= |t.stack|
    ensures var u := Extended(t, e); |u.stack| == |t.stack| + 1 && Behind(u.issued[k], u.stack[i])
  {
    hide Known, Apart, Id, Extended;
    ExtendedShape(t, e, i);
    ExtendedIssued(t, e);
    if k < |t.issued| {
      assert Descends(t.issued[k], root, t.issued);
      if i < |t.stack| { assert Behind(t.issued[k], t.stack[i]); }
    } else if e.Child? {
      StackKnown(t, root, |t.stack| - 1);
      if i < |t.stack| - 1 { assert t.stack[i].id != t.stack[|t.stack| - 1].id; }
    }
  }

  lemma ExtendedIssued(t: Trace, e: Issue)
    ensures Extended(t, e).issued == t.issued + [e]
  {}

  lemma ExtendedKnown(t: Trace, e: Issue, root: Ctx, i: nat)
    requires Inv(t, root) && i <= |t.stack|
    ensures var u := Extended(t, e); |u.stack| == |t.stack| + 1 && Known(u.stack[i].id, root, u.issued)
  {
    hide Known, Extended, Id;
    ExtendedShape(t, e, i);
    ExtendedIssued(t, e);
    if i < |t.stack| {
      StackKnown(t, root, i);
      KnownGrows(t.stack[i].id, root, t.issued, e);
    } else {
      KnownGrows(Id(e), root, t.issued, e);
    }
  }

  lemma ExtendedApart(t: Trace, e: Issue, root: Ctx, k: nat)
    requires Inv(t, root) && IsNew(t, e, root) && k < |t.issued|
    ensures Apart(t.issued[k], e)
  {
    hide Id;
    if e.Child? { assert Behind(t.issued[k], t.stack[|t.stack| - 1]); }
  }

  lemma ExtendedDescends(t: Trace, e: Issue, root: Ctx, k: nat)
    requires Inv(t, root) && IsNew(t, e, root) && k <= |t.issued|
    ensures var u := Extended(t, e); Descends(u.issued[k], root, u.issued)
  {
    hide IsIssued, Id, Extended, Apart, Behind;
    ExtendedIssued(t, e);
    if k < |t.issued| {
      assert Descends(t.issued[k], root, t.issued);
      if t.issued[k].Child? { KnownGrows(t.issued[k].parent, root, t.issued, e); }
    } else if e.Child? {
      StackKnown(t, root, |t.stack| - 1);
      KnownGrows(e.parent, root, t.issued, e);
    }
  }

  lemma ExtendedKeepsInv(t: Trace, e: Issue, root: Ctx)
    requires Inv(t, root) && IsNew(t, e, root)
    ensures Inv(Extended(t, e), root)
  {
    hide Known, Apart, Behind, Descends, Id, Extended;
    var u := Extended(t, e);
    ExtendedShape(t, e, 0);
    ExtendedIssued(t, e);
    forall i, j | 0 <= i < j < |u.stack| ensures u.stack[i].id != u.stack[j].id {
      ExtendedShape(t, e, i);
      ExtendedShape(t, e, j);
      if j == |t.stack| { StackKnown(t, root, i); }
    }
    forall i | 0 <= i < |u.stack| ensures Known(u.stack[i].id, root, u.issued) { ExtendedKnown(t, e, root, i); }
    forall k, i | 0 <= k < |u.issued| && 0 <= i < |u.stack| ensures Behind(u.issued[k], u.stack[i]) {
      ExtendedBehind(t, e, root, k, i);
    }
    forall k | 0 <= k < |u.issued| ensures Descends(u.issued[k], root, u.issued) { ExtendedDescends(t, e, root, k); }
    forall k, l | 0 <= k < l < |u.issued| ensures Apart(u.issued[k], u.issued[l]) {
      if l == |t.issued| { ExtendedApart(t, e, root, k); }
    }
  }

  lemma PopKeepsInv(t: Trace, root: Ctx)
    requires Inv(t, root)
    ensures Inv(Step(t, PopOp), root)
  {
    hide Known, Apart, Behind, Descends;
  }

  lemma InitialInv(root: Ctx)
    ensures Inv(Trace([root], []), root) && IssuedInv([], root)
  {}

  // ----- When the next id is new -----

  /** An id that no context has numbered: the root's, one handed in, or the "1" of an empty stack. */
  ghost predicate IsSource(id: string, root: Ctx, issued: seq<Issue>) {
    id == root.id || exists k :: 0 <= k < |issued| && !issued[k].Child? && Id(issued[k]) == id
  }

  /** An earlier child of c has the first five digits of its next number. */
  ghost predicate LeadTaken(c: Ctx, issued: seq<Issue>) {
    exists k :: 0 <= k < |issued| && SharesLead(issued[k], c)
  }

  ghost predicate SharesLead(e: Issue, c: Ctx) {
    e.Child? && e.parent == c.id && Lead(e.num) == Lead(c.count)
  }

  /** What a push must find for its id to be new. */
  ghost predicate NextFits(t: Trace, root: Ctx) {
    if t.stack == [] then !Known("1", root, t.issued)
    else
      var top := Last(t.stack);
      && !IsSource(StoredId(top.id, top.count), root, t.issued)
      && (top.count < TOO_MANY || !LeadTaken(top, t.issued))
  }

  ghost predicate StepFits(t: Trace, op: Op, root: Ctx) {
    match op
    case PushOp => NextFits(t, root)
    case PushIdOp(id) => !Known(id, root, t.issued)
    case PopOp => true
  }

  ghost predicate RunFits(root: Ctx, ops: seq<Op>) {
    forall n :: 0 <= n < |ops| ==> StepFits(Run(root, ops, n), ops[n], root)
  }

  lemma LeadSame(m: nat, n: nat)
    requires m < TOO_MANY && n < TOO_MANY && Lead(m) == Lead(n)
    ensures m == n
  {
    StoredWhole("", m);
    StoredWhole("", n);
    StoredIdSame("", m, "", n);
    ChildIdInjective("", m, "", n);
  }

  /** While the number has five digits, its being larger than those before is enough. */
  lemma NextIsNew(t: Trace, root: Ctx)
    requires Inv(t, root) && NextFits(t, root)
    ensures !Known(NewId(t.stack), root, t.issued)
  {
    hide StoredId, Lead;
    if t.stack != [] {
      var top := t.stack[|t.stack| - 1];
      forall k | 0 <= k < |t.issued| ensures Id(t.issued[k]) != NewId(t.stack) {
        var e := t.issued[k];
        assert Behind(e, top);
        if e.Child? && Id(e) == NewId(t.stack) {
          StoredIdSame(e.parent, e.num, top.id, top.count);
          assert SharesLead(e, top);
          if top.count < TOO_MANY { LeadSame(e.num, top.count); }
        }
      }
    }
  }

  lemma NextIsKnown(t: Trace, root: Ctx)
    requires !NextFits(t, root)
    ensures Known(NewId(t.stack), root, t.issued)
  {
    hide StoredId, Lead;
    if t.stack != [] {
      var top := Last(t.stack);
      if !IsSource(NewId(t.stack), root, t.issued) {
        var k :| 0 <= k < |t.issued| && SharesLead(t.issued[k], top);
        StoredIdSame(t.issued[k].parent, t.issued[k].num, top.id, top.count);
        assert Id(t.issued[k]) == NewId(t.stack);
      }
    }
  }

  /** The id a push adds, and that it extends the trace. */
  function Added(t: Trace, op: Op): Issue
    requires !op.PopOp?
  {
    if op.PushOp? then NewIssue(t.stack) else Given(op.id)
  }

  lemma StepExtends(t: Trace, op: Op)
    requires !op.PopOp?
    ensures Step(t, op) == Extended(t, Added(t, op))
  {
    hide Bumped;
  }

  lemma AddedNew(t: Trace, op: Op, root: Ctx)
    requires !op.PopOp? && Inv(t, root) && StepFits(t, op, root)
    ensures IsNew(t, Added(t, op), root)
  {
    hide Inv, NextFits, Known;
    if op.PushOp? { NextIsNew(t, root); }
  }

  lemma StepKeepsInv(t: Trace, op: Op, root: Ctx)
    requires Inv(t, root) && StepFits(t, op, root)
    ensures Inv(Step(t, op), root)
  {
    hide Inv, StepFits, Extended, IsNew, Added;
    if op.PopOp? {
      PopKeepsInv(t, root);
    } else {
      AddedNew(t, op, root);
      StepExtends(t, op);
      ExtendedKeepsInv(t, Added(t, op), root);
    }
  }

  /** The invariant holds along any run in which each step fits. */
  lemma {:induction false} RunInv(root: Ctx, ops: seq<Op>, n: nat)
    requires n <= |ops| && RunFits(root, ops)
    ensures Inv(Run(root, ops, n), root)
  {
    hide Inv, Step, StepFits;
    if n == 0 {
      InitialInv(root);
    } else {
      RunInv(root, ops, n - 1);
      assert StepFits(Run(root, ops, n - 1), ops[n - 1], root);
      StepKeepsInv(Run(root, ops, n - 1), ops[n - 1], root);
    }
  }

  /** In any such run the parent of a child's id is the root's or an issued id, and the numbers under one parent
      increase. */
  lemma IssuedInOrder(root: Ctx, ops: seq<Op>, k: nat, l: nat)
    requires RunFits(root, ops) && k < l < |Run(root, ops, |ops|).issued|
    ensures var issued := Run(root, ops, |ops|).issued;
            && (issued[k].Child? ==> Known(issued[k].parent, root, issued))
            && (issued[k].Child? && issued[l].Child? && issued[k].parent == issued[l].parent ==>
                  issued[k].num < issued[l].num)
  {
    hide Known, Run, Id, RunFits;
    RunInv(root, ops, |ops|);
    var issued := Run(root, ops, |ops|).issued;
    assert Apart(issued[k], issued[l]) && Descends(issued[k], root, issued);
  }

  // ----- When all ids are different -----

  /** No two of the ids, the root's included, are the same. */
  ghost predicate AllDistinct(root: Ctx, issued: seq<Issue>) {
    && (forall k :: 0 <= k < |issued| ==> Id(issued[k]) != root.id)
    && (forall k, l :: 0 <= k < l < |issued| ==> Id(issued[k]) != Id(issued[l]))
  }

  lemma StepGrows(t: Trace, op: Op)
    ensures t.issued <= Step(t, op).issued
  {}

  lemma {:induction false} IssuedGrows(root: Ctx, ops: seq<Op>, n: nat, m: nat)
    requires n <= m <= |ops|
    ensures Run(root, ops, n).issued <= Run(root, ops, m).issued
  {
    hide Step;
    if n < m {
      IssuedGrows(root, ops, n, m - 1);
      StepGrows(Run(root, ops, m - 1), ops[m - 1]);
    }
  }

  /** A step that does not fit issues a known id. */
  lemma MisfitRepeats(root: Ctx, ops: seq<Op>, n: nat)
    requires n < |ops| && !StepFits(Run(root, ops, n), ops[n], root)
    ensures !AllDistinct(root, Run(root, ops, |ops|).issued)
  {
    hide Run, Step, Id, NextFits, NewId, NewIssue;
    var t, op, all := Run(root, ops, n), ops[n], Run(root, ops, |ops|).issued;
    if op.PushOp? { NextIsKnown(t, root); }
    var e := Added(t, op);
    RunNext(root, ops, n);
    AddedLast(t, op);
    IssuedGrows(root, ops, n + 1, |ops|);
    assert all[|t.issued|] == e && Known(Id(e), root, t.issued);
    if Id(e) != root.id {
      var k :| 0 <= k < |t.issued| && Id(t.issued[k]) == Id(e);
      assert all[k] == t.issued[k];
    }
  }

  lemma AddedLast(t: Trace, op: Op)
    requires !op.PopOp?
    ensures Step(t, op).issued == t.issued + [Added(t, op)]
    ensures Id(Added(t, op)) == if op.PushOp? then NewId(t.stack) else op.id
  {}

  /** From any root and over any pushes, with or without an id of their own, and pops: all ids are different exactly
      when each id handed in is new, the next id of a top that numbers is not one of those that came from outside, and
      beyond five digits no earlier child of it shares them; on an empty stack, when "1" is new. */
  lemma UniqueIds(root: Ctx, ops: seq<Op>)
    ensures AllDistinct(root, Run(root, ops, |ops|).issued) <==> RunFits(root, ops)
  {
    hide Run, StepFits;
    if RunFits(root, ops) {
      RunInv(root, ops, |ops|);
      InvDistinct(Run(root, ops, |ops|), root);
    } else {
      var n :| 0 <= n < |ops| && !StepFits(Run(root, ops, n), ops[n], root);
      MisfitRepeats(root, ops, n);
    }
  }

  lemma InvDistinct(t: Trace, root: Ctx)
    requires Inv(t, root)
    ensures AllDistinct(root, t.issued)
  {
    hide Id, Known;
    forall k | 0 <= k < |t.issued| ensures Id(t.issued[k]) != root.id { assert Descends(t.issued[k], root, t.issued); }
    forall k, l | 0 <= k < l < |t.issued| ensures Id(t.issued[k]) != Id(t.issued[l]) {
      assert Apart(t.issued[k], t.issued[l]);
    }
  }

  // ----- Above a root, without ids from outside -----

  /** The top can number one more child with at most five digits. */
  predicate Numberable(s: seq<Ctx>) {
    s != [] && Last(s).count < TOO_MANY
  }

  /** Every id continues the root's. */
  ghost predicate Longer(t: Trace, root: Ctx) {
    && (forall i :: 0 <= i < |t.stack| ==> |root.id| <= |t.stack[i].id|)
    && (forall k :: 0 <= k < |t.issued| ==> t.issued[k].Child?)
  }

  ghost predicate TreeInv(t: Trace, root: Ctx) {
    t.stack != [] && Inv(t, root) && Longer(t, root)
  }

  lemma NumberableFits(t: Trace, root: Ctx)
    requires Longer(t, root) && Numberable(t.stack)
    ensures NextFits(t, root)
  {
    hide StoredId, Id;
    var top := t.stack[|t.stack| - 1];
    StoredWhole(top.id, top.count);
  }

  lemma PushLonger(t: Trace, root: Ctx)
    requires Longer(t, root) && t.stack != []
    ensures Longer(Step(t, PushOp), root) && Step(t, PushOp).stack != []
  {
    hide StoredId;
    var top := t.stack[|t.stack| - 1];
    StoredWhole(top.id, top.count);
  }

  lemma PopLonger(t: Trace, root: Ctx)
    requires Longer(t, root)
    ensures Longer(Step(t, PopOp), root)
    ensures |t.stack| > 1 ==> Step(t, PopOp).stack != []
  {}

  lemma PushKeepsTreeInv(t: Trace, root: Ctx)
    requires TreeInv(t, root) && Numberable(t.stack)
    ensures TreeInv(Step(t, PushOp), root)
  {
    hide Inv, Longer, NextFits, Step, Numberable;
    NumberableFits(t, root);
    StepKeepsInv(t, PushOp, root);
    PushLonger(t, root);
  }

  lemma PopKeepsTreeInv(t: Trace, root: Ctx)
    requires TreeInv(t, root) && |t.stack| > 1
    ensures TreeInv(Step(t, PopOp), root)
  {
    hide Inv, Longer, Step;
    PopKeepsInv(t, root);
    PopLonger(t, root);
  }

  lemma InitialTreeInv(root: Ctx)
    ensures TreeInv(Trace([root], []), root)
  {
    hide Inv;
    InitialInv(root);
  }

  lemma TreeInvParts(t: Trace, root: Ctx)
    requires TreeInv(t, root)
    ensures t.stack != [] && Inv(t, root)
  {}

  /** No push meets an empty stack or a top that has numbered 99999 children. */
  ghost predicate PushesFit(root: Ctx, ops: seq<Op>) {
    forall n :: 0 <= n < |ops| && ops[n] == PushOp ==> Numberable(Run(root, ops, n).stack)
  }

  /** No push meets an empty stack. */
  ghost predicate AboveRoot(root: Ctx, ops: seq<Op>) {
    forall n :: 0 <= n < |ops| && ops[n] == PushOp ==> Run(root, ops, n).stack != []
  }

  ghost predicate NoneGiven(ops: seq<Op>) {
    forall n :: 0 <= n < |ops| ==> !ops[n].PushIdOp?
  }

  lemma {:induction false} RunLonger(root: Ctx, ops: seq<Op>, n: nat)
    requires n <= |ops| && NoneGiven(ops) && PushesFit(root, ops)
    ensures Longer(Run(root, ops, n), root)
  {
    hide Longer, Step;
    if n == 0 {
      RootLonger(root);
    } else {
      var t := Run(root, ops, n - 1);
      RunLonger(root, ops, n - 1);
      assert !ops[n - 1].PushIdOp?;
      if ops[n - 1] == PushOp { PushLonger(t, root); } else { PopLonger(t, root); }
    }
  }

  lemma RootLonger(root: Ctx)
    ensures Longer(Trace([root], []), root)
  {}

  // ----- Every smaller number was issued -----

  ghost predicate Numbered(c: Ctx, m: nat, issued: seq<Issue>) {
    IsIssued(ChildId(c.id, m), issued)
  }

  /** The contexts on the stack have issued each number from 1 up to their count, at most 99999. */
  ghost predicate Complete(t: Trace) {
    && (forall i :: 0 <= i < |t.stack| ==> t.stack[i].count <= TOO_MANY)
    && (forall i, m: nat :: 0 <= i < |t.stack| && 1 <= m < t.stack[i].count ==> Numbered(t.stack[i], m, t.issued))
  }

  lemma PushComplete(t: Trace)
    requires Complete(t) && Numberable(t.stack)
    ensures Complete(Step(t, PushOp))
  {
    hide IsIssued, Pushed, NewId, ChildId, StoredId;
    var u, s := Step(t, PushOp), t.stack;
    PushedShape(s, 0);
    forall i | 0 <= i < |u.stack| ensures u.stack[i].count <= TOO_MANY { PushedShape(s, i); }
    forall i, m: nat | 0 <= i < |u.stack| && 1 <= m < u.stack[i].count ensures Numbered(u.stack[i], m, u.issued) {
      PushedShape(s, i);
      IssuedMore(ChildId(s[i].id, m), t.issued, NewIssue(s));
      if m < s[i].count {
        assert Numbered(s[i], m, t.issued);
      } else {
        StoredWhole(s[i].id, m);
      }
    }
  }

  lemma PopComplete(t: Trace)
    requires Complete(t)
    ensures Complete(Step(t, PopOp))
  {
    hide Numbered;
  }

  lemma {:induction false} RunComplete(root: Ctx, ops: seq<Op>, n: nat)
    requires n <= |ops| && root.count == 1 && NoneGiven(ops)
    requires forall k :: 0 <= k < n && ops[k] == PushOp ==> Numberable(Run(root, ops, k).stack)
    ensures Complete(Run(root, ops, n))
  {
    hide Complete, Step;
    if n == 0 {
      RootComplete(root);
    } else {
      RunComplete(root, ops, n - 1);
      assert !ops[n - 1].PushIdOp?;
      if ops[n - 1] == PushOp { PushComplete(Run(root, ops, n - 1)); } else { PopComplete(Run(root, ops, n - 1)); }
    }
  }

  lemma RootComplete(root: Ctx)
    requires root.count == 1
    ensures Complete(Trace([root], []))
  {}

  /** A top that has numbered 99999 children gives the next one the id of child 10000. */
  lemma OneTooMany(t: Trace)
    requires Complete(t) && t.stack != [] && !Numberable(t.stack)
    ensures IsIssued(NewId(t.stack), t.issued)
  {
    hide IsIssued, ChildId, StoredId;
    var top := t.stack[|t.stack| - 1];
    FirstCut(top.id);
    assert Numbered(top, 10_000, t.issued);
  }

  /** The first push that does not fit. */
  lemma {:induction false} FirstMisfit(root: Ctx, ops: seq<Op>, n: nat) returns (k: nat)
    requires n < |ops| && ops[n] == PushOp && !Numberable(Run(root, ops, n).stack)
    ensures k < |ops| && ops[k] == PushOp && !Numberable(Run(root, ops, k).stack)
    ensures forall j :: 0 <= j < k && ops[j] == PushOp ==> Numberable(Run(root, ops, j).stack)
  {
    hide Run, Numberable;
    if j :| 0 <= j < n && ops[j] == PushOp && !Numberable(Run(root, ops, j).stack) {
      k := FirstMisfit(root, ops, j);
    } else {
      k := n;
    }
  }

  /** Without ids from outside, from the root "1" or above a root with an id of its own, all ids are different exactly
      when no push meets an empty stack or a top that has numbered 99999 children. */
  lemma UniqueNumbers(root: Ctx, ops: seq<Op>)
    requires NoneGiven(ops) && root.count == 1 && (root.id == "1" || AboveRoot(root, ops))
    ensures AllDistinct(root, Run(root, ops, |ops|).issued) <==> PushesFit(root, ops)
  {
    hide Run, Numberable, Longer, StepFits, AllDistinct;
    UniqueIds(root, ops);
    if PushesFit(root, ops) {
      forall n | 0 <= n < |ops| ensures StepFits(Run(root, ops, n), ops[n], root) {
        RunLonger(root, ops, n);
        PlainFits(Run(root, ops, n), ops[n], root);
      }
    } else {
      var n :| 0 <= n < |ops| && ops[n] == PushOp && !Numberable(Run(root, ops, n).stack);
      n := FirstMisfit(root, ops, n);
      RunComplete(root, ops, n);
      FullMisfits(Run(root, ops, n), root);
      MisfitRepeats(root, ops, n);
    }
  }

  lemma PlainFits(t: Trace, op: Op, root: Ctx)
    requires Longer(t, root) && !op.PushIdOp? && (op == PushOp ==> Numberable(t.stack))
    ensures StepFits(t, op, root)
  {
    hide Longer, NextFits, Numberable;
    if op == PushOp { NumberableFits(t, root); }
  }

  lemma FullMisfits(t: Trace, root: Ctx)
    requires Complete(t) && !Numberable(t.stack) && (t.stack == [] ==> root.id == "1")
    ensures !StepFits(t, PushOp, root)
  {
    hide Complete, StoredId, Lead;
    if t.stack != [] {
      var top := Last(t.stack);
      OneTooMany(t);
      var k :| 0 <= k < |t.issued| && Id(t.issued[k]) == NewId(t.stack);
      if t.issued[k].Child? {
        StoredIdSame(t.issued[k].parent, t.issued[k].num, top.id, top.count);
        assert SharesLead(t.issued[k], top);
      } else {
        assert IsSource(NewId(t.stack), root, t.issued);
      }
    }
  }

  // ----- A request in which ids repeat -----

  /** k children of the root, one after the other. */
  function Siblings(k: nat): (ops: seq<Op>)
    ensures |ops| == 2 * k
  {
    if k == 0 then [] else Siblings(k - 1) + [PushOp, PopOp]
  }

  lemma PushPop(t: Trace)
    requires |t.stack| == 1
    ensures Step(Step(t, PushOp), PopOp).stack == [Ctx(t.stack[0].id, t.stack[0].count + 1)]
  {
    hide NewId;
  }

  lemma {:induction false} SiblingsRun(root: Ctx, k: nat, n: nat)
    requires n <= k
    ensures Run(root, Siblings(k), 2 * n).stack == [Ctx(root.id, root.count + n)]
    ensures n < k ==> Siblings(k)[2 * n] == PushOp && Siblings(k)[2 * n + 1] == PopOp
  {
    hide Run, Step, Siblings;
    if n < k { SiblingsAt(k, n); }
    if n == 0 {
      RunNone(root, Siblings(k));
    } else {
      var t := Run(root, Siblings(k), 2 * n - 2);
      SiblingsRun(root, k, n - 1);
      RunNext(root, Siblings(k), 2 * n - 2);
      RunNext(root, Siblings(k), 2 * n - 1);
      PushPop(t);
    }
  }

  lemma {:induction false} SiblingsAt(k: nat, n: nat)
    requires n < k
    ensures Siblings(k)[2 * n] == PushOp && Siblings(k)[2 * n + 1] == PopOp
  {
    if n < k - 1 { SiblingsAt(k - 1, n); }
  }

  /** k children of the root repeat an id exactly from 100000 on. */
  lemma SiblingsRepeat(k: nat)
    ensures var root := Ctx("1", 1);
            AllDistinct(root, Run(root, Siblings(k), 2 * k).issued) <==> k < TOO_MANY
  {
    hide AllDistinct, Run, Siblings;
    var root, ops := Ctx("1", 1), Siblings(k);
    SiblingsPlain(k);
    UniqueNumbers(root, ops);
    if k >= TOO_MANY {
      SiblingsRun(root, k, TOO_MANY - 1);
    } else {
      forall n | 0 <= n < |ops| && ops[n] == PushOp ensures Numberable(Run(root, ops, n).stack) {
        SiblingsRun(root, k, n / 2);
        SiblingsAt(k, n / 2);
      }
    }
  }

  lemma SiblingsPlain(k: nat)
    ensures NoneGiven(Siblings(k))
  {
    hide Siblings;
    forall n | 0 <= n < 2 * k ensures !Siblings(k)[n].PushIdOp? { SiblingsAt(k, n / 2); }
  }

  // ----- Under an id that was handed in -----

  function ChildrenOf(id: string, k: nat): seq<Issue> {
    if k == 0 then [] else ChildrenOf(id, k - 1) + [Child(id, k)]
  }

  /** Contexts that are pushed directly above an id handed in are numbered under it from 1 on; the root's count is one
      higher. */
  lemma {:induction false} GivenChildren(root: Ctx, id: string, k: nat, n: nat)
    requires n <= k
    ensures var ops := [PushIdOp(id)] + Siblings(k);
            Run(root, ops, 1 + 2 * n)
            == Trace([Ctx(root.id, root.count + 1), Ctx(id, 1 + n)], [Given(id)] + ChildrenOf(id, n))
  {
    hide Run, Siblings, StoredId, Step, ChildrenOf;
    var ops := [PushIdOp(id)] + Siblings(k);
    if n == 0 {
      RunNone(root, ops);
      RunNext(root, ops, 0);
      GivenStart(root, id);
    } else {
      GivenChildren(root, id, k, n - 1);
      SiblingsAt(k, n - 1);
      OneFurther(PushIdOp(id), Siblings(k), 2 * n - 2);
      OneFurther(PushIdOp(id), Siblings(k), 2 * n - 1);
      RunNext(root, ops, 2 * n - 1);
      RunNext(root, ops, 2 * n);
      GivenStep(root, id, n);
    }
  }

  lemma GivenStart(root: Ctx, id: string)
    ensures Step(Trace([root], []), PushIdOp(id))
         == Trace([Ctx(root.id, root.count + 1), Ctx(id, 1)], [Given(id)] + ChildrenOf(id, 0))
  {}

  lemma OneFurther(op: Op, ops: seq<Op>, n: nat)
    requires n < |ops|
    ensures ([op] + ops)[n + 1] == ops[n]
  {}

  lemma GivenStep(root: Ctx, id: string, n: nat)
    requires n > 0
    ensures var t := Trace([Ctx(root.id, root.count + 1), Ctx(id, n)], [Given(id)] + ChildrenOf(id, n - 1));
            Step(Step(t, PushOp), PopOp)
            == Trace([Ctx(root.id, root.count + 1), Ctx(id, 1 + n)], [Given(id)] + ChildrenOf(id, n))
  {
    hide StoredId;
    assert [Given(id)] + ChildrenOf(id, n - 1) + [Child(id, n)] == [Given(id)] + ChildrenOf(id, n);
  }

  lemma {:induction false} ChildrenOfAt(id: string, k: nat, j: nat)
    requires j < k
    ensures |ChildrenOf(id, k)| == k && Id(ChildrenOf(id, k)[j]) == StoredId(id, j + 1)
  {
    hide StoredId;
    if j < k - 1 {
      ChildrenOfAt(id, k - 1, j);
    } else {
      ChildrenLength(id, k - 1);
    }
  }

  lemma {:induction false} ChildrenLength(id: string, k: nat)
    ensures |ChildrenOf(id, k)| == k
  {
    if k > 0 { ChildrenLength(id, k - 1); }
  }
}
