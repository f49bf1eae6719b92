/** Recorded ids of call trees with very many calls under one frame, and examples of repeated ids. */
module WideCalls {

  import opened CallTree
  import opened IssuedIds
  import opened Prelude
  import opened RecordedIds
  import opened Span

  // ----- Too many children -----

  lemma {:induction false} StoredHas(c: Call, p: string, n: nat, m: nat)
    requires n <= m < n + Children(c)
    ensures Logged(StoredId(p, m), Stored(c, p, n))
    decreases c
  {
    hide StoredId, Logged;
    if Pushes(c) {
      LoggedSnoc(StoredId(p, n), StoredBody(c.body, StoredId(p, n), 1), Record(Some(StoredId(p, n)), Some(p)));
    } else {
      StoredBodyHas(c.body, p, n, m);
    }
  }

  lemma {:induction false} StoredBodyHas(b: Body, p: string, n: nat, m: nat)
    requires n <= m < n + ChildrenBody(b)
    ensures Logged(StoredId(p, m), StoredBody(b, p, n))
    decreases b
  {
    hide Stored, Children, Bails, Logged, StoredId;
    var k := n + Children(b.call);
    var rest := if Bails(b.call) then [] else StoredBody(b.rest, p, k);
    if m < k { StoredHas(b.call, p, n, m); } else { StoredBodyHas(b.rest, p, k, m); }
    LoggedJoin(StoredId(p, m), Stored(b.call, p, n), rest);
  }

  lemma LoggedTwice(id: string, a: seq<Record>, b: seq<Record>)
    requires Logged(id, a) && Logged(id, b)
    ensures !DistinctLog(a + b)
  {
    var q :| 0 <= q < |a| && a[q].id == Some(id);
    var r :| 0 <= r < |b| && b[r].id == Some(id);
    assert (a + b)[q].id == (a + b)[|a| + r].id;
  }

  /** Two children that are stored under one id are recorded under it. */
  lemma {:induction false} SharedId(b: Body, p: string, n: nat, m: nat, m': nat)
    requires n <= m < m' < n + ChildrenBody(b) && StoredId(p, m) == StoredId(p, m')
    ensures !DistinctLog(StoredBody(b, p, n))
    decreases b
  {
    hide Bails, StoredId, DistinctLog, Logged;
    var c, rest := b.call, b.rest;
    var k := n + Children(c);
    var log, more := Stored(c, p, n), if Bails(c) then [] else StoredBody(rest, p, k);
    if m' < k {
      SharedId(c.body, p, n, m, m');
    } else if m >= k {
      SharedId(rest, p, k, m, m');
    } else {
      StoredHas(c, p, n, m);
      StoredBodyHas(rest, p, k, m');
      LoggedTwice(StoredId(p, m), log, more);
    }
    if DistinctLog(log + more) { DistinctParts(log, more); }
  }

  lemma {:induction false} WideRepeats(c: Call, p: string, n: nat)
    requires !Narrow(c)
    ensures !DistinctLog(Stored(c, p, n))
    decreases c
  {
    hide StoredId, DistinctLog, NarrowBody, ChildrenBody, StoredBody;
    var q, k := if Pushes(c) then StoredId(p, n) else p, if Pushes(c) then 1 else n;
    var log := StoredBody(c.body, q, k);
    if NarrowBody(c.body) { TooManyShare(c.body, q); } else { BodyWideRepeats(c.body, q, k); }
    if DistinctLog(Stored(c, p, n)) {
      if Pushes(c) { DistinctParts(log, [Record(Some(q), Some(p))]); }
    }
  }

  lemma TooManyShare(b: Body, p: string)
    requires !Room(1, ChildrenBody(b))
    ensures !DistinctLog(StoredBody(b, p, 1))
  {
    FirstCut(p);
    SharedId(b, p, 1, 10_000, TOO_MANY);
  }

  lemma {:induction false} BodyWideRepeats(b: Body, p: string, n: nat)
    requires !NarrowBody(b)
    ensures !DistinctLog(StoredBody(b, p, n))
    decreases b
  {
    hide Stored, Narrow, Children, Bails, DistinctLog;
    var c, k := b.call, n + Children(b.call);
    var more := if Bails(c) then [] else StoredBody(b.rest, p, k);
    if !Narrow(c) { WideRepeats(c, p, n); } else { BodyWideRepeats(b.rest, p, k); }
    if DistinctLog(Stored(c, p, n) + more) { DistinctParts(Stored(c, p, n), more); }
  }

  /** Above a context without children and without a leak, all recorded ids are different exactly when no context
      numbers more than 99999 children. */
  lemma UniqueWithoutLeaks(c: Call, s: seq<Ctx>)
    requires s != [] && Last(s).count == 1 && Leaks(c) == 0
    ensures DistinctLog(Exec(c, s).log) <==> Narrow(c) && Room(1, Children(c))
  {
    hide Exec, DistinctLog, Rerecords, RoomIn, Room, Narrow, Leaks, Stored, Children, StoredBody, ChildrenBody;
    RoomWithoutLeaks(c, s);
    if Narrow(c) && Room(1, Children(c)) {
      ResidueLeaks(c);
      RecordedIdsUnique(c, s);
    } else {
      StoredWhenKept(c, s);
      if Narrow(c) { OnTopTooMany(c, Last(s).id); } else { WideRepeats(c, Last(s).id, 1); }
    }
  }

  lemma OnTopTooMany(c: Call, p: string)
    requires !Room(1, Children(c))
    ensures !DistinctLog(Stored(c, p, 1))
  {
    hide ChildrenBody, StoredBody, DistinctLog;
    TooManyShare(c.body, p);
  }

  // ----- Examples -----

  /** A matched frame records and pops its context even when it bails out. */
  lemma FrameAlone(s: seq<Ctx>)
    requires s != []
    ensures var own, parent, kept := NewId(s), Last(s).id, s[..|s| - 1] + [Ctx(Last(s).id, Last(s).count + 1)];
            && Exec(Matched(Return), s) == Outcome(kept, [Record(Some(own), Some(parent))], false)
            && Exec(Matched(Bailout), s) == Outcome(kept, [Record(Some(own), Some(parent))], true)
  {
    hide NewId, Pushed, Popped, TopId, ParentId, Exec;
    OneContext(s);
    FrameIs(Return, s);
    FrameIs(Bailout, s);
  }

  lemma FrameIs(b: Body, s: seq<Ctx>)
    requires b.Return? || b.Bailout?
    ensures var t := Pushed(s);
            Exec(Matched(b), s) == Outcome(Popped(t), [Record(TopId(t), ParentId(t))], b.Bailout?)
  {
    hide Pushed, Popped, TopId, ParentId;
    var t := Pushed(s);
    assert ExecBody(b, t) == Outcome(t, [], b.Bailout?);
    assert [] + [Record(TopId(t), ParentId(t))] == [Record(TopId(t), ParentId(t))];
  }

  /** A curl call does so only after a successful parse and a normal return. */
  lemma CurlAlone(s: seq<Ctx>)
    requires s != []
    ensures var own, parent, kept := NewId(s), Last(s).id, s[..|s| - 1] + [Ctx(Last(s).id, Last(s).count + 1)];
            && Exec(Curl(true, true, Return), s) == Outcome(kept, [Record(Some(own), Some(parent))], false)
            && Exec(Curl(true, true, Bailout), s) == Outcome(kept + [Ctx(own, 1)], [], true)
            && Exec(Curl(true, false, Return), s) == Outcome(kept + [Ctx(own, 1)], [], false)
  {
    hide NewId, Pushed, Popped, TopId, ParentId;
    OneContext(s);
  }

  /** A call that pushes nothing leaves no trace. */
  lemma NothingPushed(s: seq<Ctx>, parsed: bool)
    ensures Exec(Curl(false, parsed, Return), s) == Outcome(s, [], false)
    ensures Exec(Skipped(Bailout), s) == Outcome(s, [], true)
  {}

  lemma OneContext(s: seq<Ctx>)
    requires s != []
    ensures var kept := s[..|s| - 1] + [Ctx(Last(s).id, Last(s).count + 1)];
            && Pushed(s) == kept + [Ctx(NewId(s), 1)] && Popped(Pushed(s)) == kept
            && TopId(Pushed(s)) == Some(NewId(s)) && ParentId(Pushed(s)) == Some(Last(s).id)
  {
    hide NewId;
  }

  /** k matched calls, one after the other. */
  function Row(k: nat): Body {
    if k == 0 then Return else Then(Matched(Return), Row(k - 1))
  }

  lemma {:induction false} RowShape(k: nat)
    ensures ChildrenBody(Row(k)) == k && LeaksBody(Row(k)) == 0 && !BailsBody(Row(k)) && NarrowBody(Row(k))
  {
    if k > 0 { RowShape(k - 1); }
  }

  /** A matched function that makes k matched calls records an id twice exactly from k = 100000 on. */
  lemma RowRepeats(k: nat, s: seq<Ctx>)
    requires s != [] && Last(s).count == 1
    ensures DistinctLog(Exec(Matched(Row(k)), s).log) <==> k < TOO_MANY
  {
    hide Row, Exec, DistinctLog;
    RowShape(k);
    UniqueWithoutLeaks(Matched(Row(k)), s);
  }

  /** A failed parse that is harmless: nothing is recorded twice. */
  lemma LeakAlone(s: seq<Ctx>)
    requires s != []
    ensures var once := Matched(Then(Curl(true, false, Return), Return));
            Leaks(once) == 1 && DistinctLog(Exec(once, s).log)
  {}

  const FAILED := Curl(true, false, Return)

  /** A successful curl call around it pops the context of the failed one and leaves its own. */
  lemma LeakInside(t: seq<Ctx>)
    requires t != []
    ensures var o, left := Exec(Curl(true, true, Then(FAILED, Return)), t), Bumped(Pushed(t), 1);
            o.stack == left && !o.bailed && o.log == [Record(TopId(left), TopId(left))]
  {
    hide StoredId;
    TopOfPushed(t, 1);
    var u := Pushed(t);
    assert ExecBody(Then(FAILED, Return), u).stack == Pushed(u);
    assert Popped(Pushed(u)) == Bumped(u, 1);
    assert ParentId(Pushed(u)) == TopId(u);
  }

  /** Its id is recorded for it and again for a matched frame around it, whose own id is not recorded. */
  lemma LeakRepeatsId(s: seq<Ctx>)
    requires s != []
    ensures var frame := NewId(s);
            var curl := StoredId(frame, 1);
            Exec(Matched(Then(Curl(true, true, Then(FAILED, Return)), Return)), s).log
            == [Record(Some(curl), Some(curl)), Record(Some(curl), Some(frame))]
  {
    hide StoredId, Bumped, Pushed, NewId;
    var t := Pushed(s);
    TopOfPushed(s, 0);
    NumberedFirst(t);
    TopOfPushed(t, 1);
    LeakInside(t);
  }

  lemma NumberedFirst(t: seq<Ctx>)
    requires t != [] && Last(t).count == 1
    ensures NewId(t) == StoredId(Last(t).id, 1)
  {}
}
