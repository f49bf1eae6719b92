/** When two recorded spans of a call tree carry the same id. */
module RecordedIds {

  import opened CallTree
  import opened IssuedIds
  import opened MoStack
  import opened Prelude
  import opened Span
  import opened SpanRuns

  // ----- Read off the tree -----

  /** The contexts a call leaves behind, bottom up: whether each was recorded already. A successful curl call
      with a leak inside records its own context and pops a leaked one. */
  function Residue(c: Call): seq<bool>
    decreases c
  {
    var left := ResidueBody(c.body);
    if !Pushes(c) then left
    else if c.Matched? then ([false] + left)[..|left|]
    else if c.parsed && !Bails(c) then ([true] + left)[..|left|]
    else [false] + left
  }

  function ResidueBody(b: Body): seq<bool>
    decreases b
  {
    match b
    case Return => []
    case Bailout => []
    case Then(c, rest) => Residue(c) + if Bails(c) then [] else ResidueBody(rest)
  }

  predicate RecordedOnTop(left: seq<bool>) {
    left != [] && left[|left| - 1]
  }

  /** Some matched frame finds a recorded context on top when it is recorded itself. */
  predicate Rerecords(c: Call)
    decreases c
  {
    RerecordsBody(c.body) || (c.Matched? && RecordedOnTop(ResidueBody(c.body)))
  }

  predicate RerecordsBody(b: Body)
    decreases b
  {
    match b
    case Return => false
    case Bailout => false
    case Then(c, rest) => Rerecords(c) || (!Bails(c) && RerecordsBody(rest))
  }

  // ----- Where recorded ids come from -----

  ghost predicate Logged(id: string, log: seq<Record>) {
    exists r :: 0 <= r < |log| && log[r].id == Some(id)
  }

  ghost predicate Sourced(log: seq<Record>, issued: seq<Issue>) {
    forall r :: 0 <= r < |log| ==> log[r].id.Some? && IsIssued(log[r].id.value, issued)
  }

  ghost predicate DistinctLog(log: seq<Record>) {
    forall q, r :: 0 <= q < r < |log| ==> log[q].id != log[r].id
  }

  /** No id issued twice. */
  ghost predicate Disjoint(a: seq<Issue>, b: seq<Issue>) {
    forall id :: IsIssued(id, a) ==> !IsIssued(id, b)
  }

  lemma LoggedJoin(id: string, a: seq<Record>, b: seq<Record>)
    ensures Logged(id, a + b) <==> Logged(id, a) || Logged(id, b)
  {
    if Logged(id, a) {
      var r :| 0 <= r < |a| && a[r].id == Some(id);
      assert (a + b)[r].id == Some(id);
    }
    if Logged(id, b) {
      var r :| 0 <= r < |b| && b[r].id == Some(id);
      assert (a + b)[|a| + r].id == Some(id);
    }
  }

  lemma IssuedJoin(id: string, a: seq<Issue>, b: seq<Issue>)
    ensures IsIssued(id, a + b) <==> IsIssued(id, a) || IsIssued(id, b)
  {
    hide Id;
    if IsIssued(id, a) {
      var k :| 0 <= k < |a| && Id(a[k]) == id;
      assert Id((a + b)[k]) == id;
    }
    if IsIssued(id, b) {
      var k :| 0 <= k < |b| && Id(b[k]) == id;
      assert Id((a + b)[|a| + k]) == id;
    }
  }

  lemma SourcedNotLogged(id: string, log: seq<Record>, issued: seq<Issue>)
    requires Sourced(log, issued) && !IsIssued(id, issued)
    ensures !Logged(id, log)
  {
    hide IsIssued;
  }

  lemma SourcedJoin(a: seq<Record>, b: seq<Record>, i: seq<Issue>, j: seq<Issue>)
    requires Sourced(a, i) && Sourced(b, j)
    ensures Sourced(a + b, i + j)
  {
    hide IsIssued;
    forall r | 0 <= r < |a + b|
      ensures (a + b)[r].id.Some? && IsIssued((a + b)[r].id.value, i + j)
    {
      IssuedJoin((a + b)[r].id.value, i, j);
    }
  }

  lemma DistinctJoin(a: seq<Record>, b: seq<Record>, i: seq<Issue>, j: seq<Issue>)
    requires Sourced(a, i) && Sourced(b, j) && Disjoint(i, j)
    ensures DistinctLog(a + b) <==> DistinctLog(a) && DistinctLog(b)
  {
    hide IsIssued;
    var c := a + b;
    assert forall r :: 0 <= r < |a| ==> c[r] == a[r];
    assert forall r :: 0 <= r < |b| ==> c[|a| + r] == b[r];
    assert forall q, r :: 0 <= q < |a| && 0 <= r < |b| ==> a[q].id != b[r].id;
  }

  lemma DistinctSnoc(a: seq<Record>, x: Record)
    requires x.id.Some?
    ensures DistinctLog(a + [x]) <==> DistinctLog(a) && !Logged(x.id.value, a)
  {
    var c := a + [x];
    assert forall r :: 0 <= r < |a| ==> c[r] == a[r];
    assert c[|a|] == x;
    if Logged(x.id.value, a) {
      var r :| 0 <= r < |a| && a[r].id == x.id;
      assert c[r].id == c[|a|].id;
    }
  }

  lemma LoggedSnoc(id: string, a: seq<Record>, x: Record)
    ensures Logged(id, a + [x]) <==> Logged(id, a) || x.id == Some(id)
  {
    LoggedJoin(id, a, [x]);
    assert Logged(id, [x]) <==> [x][0].id == Some(id);
  }

  /** Later ids differ from earlier ones. */
  lemma IssuesDisjoint(s: seq<Ctx>, a: seq<Issue>, b: seq<Issue>, c: seq<Issue>, root: Ctx)
    requires TreeInv(Trace(s, a + b + c), root)
    ensures Disjoint(b, c)
  {
    hide Id, Apart, Known, Behind, Descends;
    var all := a + b + c;
    forall id | IsIssued(id, b) ensures !IsIssued(id, c) {
      var k :| 0 <= k < |b| && Id(b[k]) == id;
      if IsIssued(id, c) {
        var l :| 0 <= l < |c| && Id(c[l]) == id;
        DifferentIds(all, root, |a| + k, |a| + |b| + l);
      }
    }
  }

  lemma StackIdsDiffer(s: seq<Ctx>, issued: seq<Issue>, root: Ctx, i: nat)
    requires TreeInv(Trace(s, issued), root) && i < |s| - 1
    ensures s[i].id != s[|s| - 1].id
  {
    hide Known, Behind, IssuedInv;
    assert s[i].id != s[|s| - 1].id;
  }

  // ----- What a call leaves and records, followed through the tree -----

  ghost predicate Fits(id: string, log: seq<Record>, issued: seq<Issue>, mark: bool) {
    IsIssued(id, issued) && (mark <==> Logged(id, log))
  }

  /** Of the contexts left above s, each id was issued by the call, and the marks say which were recorded;
      no id was recorded twice unless again says so. */
  ghost predicate Tracks(o: Outcome, s: seq<Ctx>, issued: seq<Issue>, marks: seq<bool>, again: bool) {
    && |o.stack| == |s| + |marks|
    && (forall i :: 0 <= i < |s| ==> o.stack[i].id == s[i].id)
    && (forall p :: 0 <= p < |marks| ==> Fits(o.stack[|s| + p].id, o.log, issued, marks[p]))
    && Sourced(o.log, issued)
    && (DistinctLog(o.log) <==> !again)
  }

  lemma TracksNothing(s: seq<Ctx>, bailed: bool)
    ensures Tracks(Outcome(s, [], bailed), s, [], [], false)
  {}

  lemma TracksThen(o: Outcome, o': Outcome, s: seq<Ctx>, i: seq<Issue>, i': seq<Issue>,
                   marks: seq<bool>, marks': seq<bool>, again: bool, again': bool)
    requires Tracks(o, s, i, marks, again) && Tracks(o', o.stack, i', marks', again') && Disjoint(i, i')
    ensures Tracks(Outcome(o'.stack, o.log + o'.log, o'.bailed), s, i + i', marks + marks', again || again')
  {
    hide IsIssued, Logged, Sourced, DistinctLog;
    SourcedJoin(o.log, o'.log, i, i');
    DistinctJoin(o.log, o'.log, i, i');
    forall p | 0 <= p < |marks + marks'|
      ensures Fits(o'.stack[|s| + p].id, o.log + o'.log, i + i', (marks + marks')[p])
    {
      var id := o'.stack[|s| + p].id;
      IssuedJoin(id, i, i');
      LoggedJoin(id, o.log, o'.log);
      if p < |marks| {
        assert id == o.stack[|s| + p].id;
        assert Fits(id, o.log, i, marks[p]);
        SourcedNotLogged(id, o'.log, i');
      } else {
        var q := p - |marks|;
        assert id == o'.stack[|o.stack| + q].id;
        assert Fits(id, o'.log, i', marks'[q]);
        SourcedNotLogged(id, o.log, i);
      }
    }
  }

  /** A body run above a new context e of s. */
  ghost predicate TracksInside(o: Outcome, s: seq<Ctx>, e: Issue, i: seq<Issue>, marks: seq<bool>, again: bool) {
    && s != [] && Tracks(o, Pushed(s), i, marks, again)
    && Id(e) == NewId(s) && Disjoint([e], i)
  }

  lemma InsideIds(o: Outcome, s: seq<Ctx>, e: Issue, i: seq<Issue>, marks: seq<bool>, again: bool)
    requires TracksInside(o, s, e, i, marks, again)
    ensures |o.stack| == |s| + 1 + |marks|
    ensures forall k :: 0 <= k < |s| ==> o.stack[k].id == s[k].id
    ensures o.stack[|s|].id == Id(e) && !Logged(Id(e), o.log) && IsIssued(Id(e), [e] + i)
    ensures Sourced(o.log, [e] + i)
    ensures forall p :: 0 <= p < |marks| ==> Fits(o.stack[|s| + 1 + p].id, o.log, [e] + i, marks[p])
  {
    hide Logged, Sourced, DistinctLog, Id, NewId, Pushed;
    PushedShape(s, 0);
    forall k | 0 <= k <= |s| ensures o.stack[k].id == if k < |s| then s[k].id else Id(e) { PushedShape(s, k); }
    assert [e][0] == e;
    assert IsIssued(Id(e), [e]);
    IssuedJoin(Id(e), [e], i);
    SourcedNotLogged(Id(e), o.log, i);
    SourcedMore(o.log, e, i);
    forall p | 0 <= p < |marks| ensures Fits(o.stack[|s| + 1 + p].id, o.log, [e] + i, marks[p]) {
      IssuedJoin(o.stack[|s| + 1 + p].id, [e], i);
      assert Fits(o.stack[|Pushed(s)| + p].id, o.log, i, marks[p]);
    }
  }

  lemma SourcedMore(log: seq<Record>, e: Issue, i: seq<Issue>)
    requires Sourced(log, i)
    ensures Sourced(log, [e] + i)
  {
    hide IsIssued;
    forall r | 0 <= r < |log| ensures log[r].id.Some? && IsIssued(log[r].id.value, [e] + i) {
      IssuedJoin(log[r].id.value, [e], i);
    }
  }

  lemma SourcedOne(log: seq<Record>, x: Record, issued: seq<Issue>)
    requires Sourced(log, issued) && x.id.Some? && IsIssued(x.id.value, issued)
    ensures Sourced(log + [x], issued)
  {
    hide IsIssued;
  }

  lemma TracksLeak(o: Outcome, s: seq<Ctx>, e: Issue, i: seq<Issue>, marks: seq<bool>, again: bool)
    requires TracksInside(o, s, e, i, marks, again)
    ensures Tracks(o, s, [e] + i, [false] + marks, again)
  {
    hide TracksInside, Logged, IsIssued, Sourced, Id;
    InsideIds(o, s, e, i, marks, again);
    InsideDistinct(o, s, e, i, marks, again);
    forall p | 0 <= p < |marks| + 1 ensures Fits(o.stack[|s| + p].id, o.log, [e] + i, ([false] + marks)[p]) {
      if p > 0 { assert Fits(o.stack[|s| + 1 + (p - 1)].id, o.log, [e] + i, marks[p - 1]); }
    }
  }

  lemma InsideDistinct(o: Outcome, s: seq<Ctx>, e: Issue, i: seq<Issue>, marks: seq<bool>, again: bool)
    requires TracksInside(o, s, e, i, marks, again)
    ensures DistinctLog(o.log) <==> !again
  {}

  /** Recording x and popping the top, for a top whose id stands nowhere else on the stack. */
  lemma TracksRecorded(o: Outcome, s: seq<Ctx>, e: Issue, i: seq<Issue>, marks: seq<bool>, again: bool,
                       x: Record, own: bool, bailed: bool)
    requires TracksInside(o, s, e, i, marks, again)
    requires forall q :: 0 <= q < |o.stack| - 1 ==> o.stack[q].id != Last(o.stack).id
    requires o.stack != [] && x.id == Some(if own then Id(e) else Last(o.stack).id)
    ensures Tracks(Outcome(Popped(o.stack), o.log + [x], bailed), s, [e] + i, ([own] + marks)[..|marks|],
                   again || (!own && RecordedOnTop(marks)))
  {
    hide TracksInside, Logged, IsIssued, Sourced, Id, DistinctLog;
    InsideIds(o, s, e, i, marks, again);
    InsideDistinct(o, s, e, i, marks, again);
    DistinctSnoc(o.log, x);
    var n := |marks|;
    if n > 0 { assert Fits(o.stack[|s| + 1 + (n - 1)].id, o.log, [e] + i, marks[n - 1]); }
    SourcedOne(o.log, x, [e] + i);
    forall p | 0 <= p < n
      ensures Fits(Popped(o.stack)[|s| + p].id, o.log + [x], [e] + i, ([own] + marks)[..n][p])
    {
      var id := o.stack[|s| + p].id;
      LoggedSnoc(id, o.log, x);
      assert id != Last(o.stack).id;
      if p > 0 {
        assert Fits(o.stack[|s| + 1 + (p - 1)].id, o.log, [e] + i, marks[p - 1]);
        assert id != Id(e) by { InsideStack(o, s, e, i, marks, again, p - 1); }
      }
    }
  }

  lemma InsideStack(o: Outcome, s: seq<Ctx>, e: Issue, i: seq<Issue>, marks: seq<bool>, again: bool, p: nat)
    requires TracksInside(o, s, e, i, marks, again) && p < |marks|
    ensures |o.stack| == |s| + 1 + |marks| && o.stack[|s| + 1 + p].id != Id(e)
  {
    hide Logged, Sourced, Id, DistinctLog;
    assert [e][0] == e;
    assert IsIssued(Id(e), [e]);
    assert Fits(o.stack[|Pushed(s)| + p].id, o.log, i, marks[p]);
  }

  lemma {:induction false} CallTracked(c: Call, s: seq<Ctx>, issued: seq<Issue>, root: Ctx)
    requires TreeInv(Trace(s, issued), root) && RoomIn(c, s)
    ensures Tracks(Exec(c, s), s, Issues(c, s), Residue(c), Rerecords(c))
    decreases c
  {
    hide TreeInv, Tracks, TracksInside, Pushed, Popped, NewIssue, ParentId, Id, NewId, Last;
    if !Pushes(c) {
      BodyTracked(c.body, s, issued, root);
    } else {
      var e, t, inside, left := NewIssue(s), Pushed(s), IssuesBody(c.body, Pushed(s)), ResidueBody(c.body);
      var o := ExecBody(c.body, t);
      ExecBodyBails(c.body, t);
      InsideTracked(c, s, issued, root);
      PushedTop(s);
      if c.Matched? {
        var x := Record(TopId(o.stack), ParentId(o.stack));
        TracksRecorded(o, s, e, inside, left, RerecordsBody(c.body), x, false, o.bailed);
      } else if c.parsed && !Bails(c) {
        var x := Record(TopId(t), ParentId(o.stack));
        TracksRecorded(o, s, e, inside, left, RerecordsBody(c.body), x, true, false);
      } else {
        TracksLeak(o, s, e, inside, left, RerecordsBody(c.body));
      }
    }
  }

  lemma {:induction false} InsideTracked(c: Call, s: seq<Ctx>, issued: seq<Issue>, root: Ctx)
    requires TreeInv(Trace(s, issued), root) && Pushes(c) && RoomIn(c, s)
    ensures var o, inside := ExecBody(c.body, Pushed(s)), IssuesBody(c.body, Pushed(s));
            && o.stack != []
            && (forall q :: 0 <= q < |o.stack| - 1 ==> o.stack[q].id != Last(o.stack).id)
            && TracksInside(o, s, NewIssue(s), inside, ResidueBody(c.body), RerecordsBody(c.body))
    decreases c, 0
  {
    hide TreeInv, Tracks, Pushed, Popped, Id, NewId, Disjoint, ExecBody, IssuesBody, ResidueBody, RerecordsBody;
    var e, t, inside := NewIssue(s), Pushed(s), IssuesBody(c.body, Pushed(s));
    var o := ExecBody(c.body, t);
    Rooted(s, issued, root);
    Pushing(s, issued, root);
    BodyTracked(c.body, t, issued + [e], root);
    BodyKeepsInv(c.body, t, issued + [e], root);
    Rooted(o.stack, issued + [e] + inside, root);
    IssuesDisjoint(o.stack, issued, [e], inside, root);
    forall q | 0 <= q < |o.stack| - 1 ensures o.stack[q].id != Last(o.stack).id {
      StackIdsDiffer(o.stack, issued + [e] + inside, root, q);
    }
  }

  lemma {:induction false} BodyTracked(b: Body, s: seq<Ctx>, issued: seq<Issue>, root: Ctx)
    requires TreeInv(Trace(s, issued), root) && RoomInBody(b, s)
    ensures Tracks(ExecBody(b, s), s, IssuesBody(b, s), ResidueBody(b), RerecordsBody(b))
    decreases b
  {
    hide TreeInv, Tracks, Exec, Issues, Residue, Rerecords, Bails, Disjoint;
    if b.Then? {
      var c, rest, o := b.call, b.rest, Exec(b.call, s);
      ExecBails(c, s);
      CallTracked(c, s, issued, root);
      if Bails(c) {
        assert Issues(c, s) + [] == Issues(c, s) && Residue(c) + [] == Residue(c);
      } else {
        ExecKeepsInv(c, s, issued, root);
        BodyTracked(rest, o.stack, issued + Issues(c, s), root);
        BodyKeepsInv(rest, o.stack, issued + Issues(c, s), root);
        var o' := ExecBody(rest, o.stack);
        IssuesDisjoint(o'.stack, issued, Issues(c, s), IssuesBody(rest, o.stack), root);
        TracksThen(o, o', s, Issues(c, s), IssuesBody(rest, o.stack), Residue(c), ResidueBody(rest),
                   Rerecords(c), RerecordsBody(rest));
      }
    } else {
      TracksNothing(s, b.Bailout?);
    }
  }

  // ----- A recorded context that is recorded again -----

  /** The contexts left above s that are marked were recorded. */
  ghost predicate Marked(o: Outcome, s: seq<Ctx>, marks: seq<bool>) {
    && |o.stack| == |s| + |marks|
    && (forall i :: 0 <= i < |s| ==> o.stack[i].id == s[i].id)
    && (forall p :: 0 <= p < |marks| && marks[p] ==> Logged(o.stack[|s| + p].id, o.log))
  }

  lemma MarkedThen(o: Outcome, o': Outcome, s: seq<Ctx>, marks: seq<bool>, marks': seq<bool>)
    requires Marked(o, s, marks) && Marked(o', o.stack, marks')
    ensures Marked(Outcome(o'.stack, o.log + o'.log, o'.bailed), s, marks + marks')
  {
    hide Logged;
    forall p | 0 <= p < |marks + marks'| && (marks + marks')[p]
      ensures Logged(o'.stack[|s| + p].id, o.log + o'.log)
    {
      LoggedJoin(o'.stack[|s| + p].id, o.log, o'.log);
      if p >= |marks| { assert o'.stack[|s| + p] == o'.stack[|o.stack| + (p - |marks|)]; }
    }
  }

  /** A new context above s is recorded or not, and so are the last of those left behind. */
  lemma MarkedRecorded(o: Outcome, s: seq<Ctx>, marks: seq<bool>, x: Record, own: bool, bailed: bool)
    requires Marked(o, Pushed(s), marks) && (own ==> x.id == Some(NewId(s)))
    ensures Marked(o, s, [false] + marks)
    ensures Marked(Outcome(Popped(o.stack), o.log + [x], bailed), s, ([own] + marks)[..|marks|])
  {
    hide Logged, NewId;
    PushedKeepsIds(s);
    var n := |marks|;
    forall p | 0 <= p < n + 1 && ([own] + marks)[p] ensures Logged(o.stack[|s| + p].id, o.log + [x]) {
      LoggedSnoc(o.stack[|s| + p].id, o.log, x);
      if p > 0 { assert marks[p - 1] && o.stack[|s| + p] == o.stack[|Pushed(s)| + (p - 1)]; }
    }
    forall p | 0 <= p < n + 1 && ([false] + marks)[p] ensures Logged(o.stack[|s| + p].id, o.log) {
      assert marks[p - 1] && o.stack[|s| + p] == o.stack[|Pushed(s)| + (p - 1)];
    }
  }

  lemma PushedKeepsIds(s: seq<Ctx>)
    ensures |Pushed(s)| == |s| + 1 && Pushed(s)[|s|].id == NewId(s)
    ensures forall i :: 0 <= i < |s| ==> Pushed(s)[i].id == s[i].id
  {}

  lemma {:induction false} CallMarked(c: Call, s: seq<Ctx>)
    ensures Marked(Exec(c, s), s, Residue(c))
    decreases c
  {
    hide Marked, Pushed, Popped, ParentId, NewId, Last;
    if !Pushes(c) {
      BodyMarked(c.body, s);
    } else {
      var o := ExecBody(c.body, Pushed(s));
      ExecBodyBails(c.body, Pushed(s));
      BodyMarked(c.body, Pushed(s));
      PushedTop(s);
      var left, own := ResidueBody(c.body), c.Curl?;
      var x := Record(if own then TopId(Pushed(s)) else TopId(o.stack), ParentId(o.stack));
      MarkedRecorded(o, s, left, x, own, o.bailed);
    }
  }

  lemma {:induction false} BodyMarked(b: Body, s: seq<Ctx>)
    ensures Marked(ExecBody(b, s), s, ResidueBody(b))
    decreases b
  {
    hide Exec, Residue, Bails, Marked;
    if b.Then? {
      var c, rest, o := b.call, b.rest, Exec(b.call, s);
      ExecBails(c, s);
      CallMarked(c, s);
      if Bails(c) {
        assert Residue(c) + [] == Residue(c);
      } else {
        BodyMarked(rest, o.stack);
        MarkedThen(o, ExecBody(rest, o.stack), s, Residue(c), ResidueBody(rest));
      }
    } else {
      NothingMarked(s, b.Bailout?);
    }
  }

  lemma NothingMarked(s: seq<Ctx>, bailed: bool)
    ensures Marked(Outcome(s, [], bailed), s, [])
  {}

  lemma DistinctParts(a: seq<Record>, b: seq<Record>)
    requires DistinctLog(a + b)
    ensures DistinctLog(a) && DistinctLog(b)
  {
    var c := a + b;
    assert forall r :: 0 <= r < |a| ==> c[r] == a[r];
    assert forall r :: 0 <= r < |b| ==> c[|a| + r] == b[r];
  }

  lemma MarkedTop(o: Outcome, s: seq<Ctx>, marks: seq<bool>)
    requires Marked(o, s, marks) && RecordedOnTop(marks)
    ensures o.stack != [] && Logged(Last(o.stack).id, o.log)
  {
    hide Logged;
    assert o.stack[|o.stack| - 1] == o.stack[|s| + (|marks| - 1)];
  }

  /** However many children there are, such a frame records an id a second time. */
  lemma {:induction false} RerecordedTwice(c: Call, s: seq<Ctx>)
    requires Rerecords(c)
    ensures !DistinctLog(Exec(c, s).log)
    decreases c
  {
    hide Marked, Pushed, Popped, ParentId, DistinctLog, Logged, RecordedOnTop, Last, Residue;
    var t := if Pushes(c) then Pushed(s) else s;
    var o, log := ExecBody(c.body, t), Exec(c, s).log;
    ExecBodyBails(c.body, t);
    if DistinctLog(log) {
      LogOfBody(c, s);
      if RerecordsBody(c.body) {
        BodyRerecordedTwice(c.body, t);
        DistinctParts(o.log, log[|o.log|..]);
      } else {
        BodyMarked(c.body, t);
        MarkedTop(o, t, ResidueBody(c.body));
        DistinctSnoc(o.log, Record(TopId(o.stack), ParentId(o.stack)));
      }
    }
  }

  lemma LogOfBody(c: Call, s: seq<Ctx>)
    ensures var o := ExecBody(c.body, if Pushes(c) then Pushed(s) else s);
            |o.log| <= |Exec(c, s).log| && Exec(c, s).log == o.log + Exec(c, s).log[|o.log|..]
  {
    hide Pushed, Popped, TopId, ParentId;
  }

  lemma {:induction false} BodyRerecordedTwice(b: Body, s: seq<Ctx>)
    requires RerecordsBody(b)
    ensures !DistinctLog(ExecBody(b, s).log)
    decreases b
  {
    hide Exec, Rerecords, Bails, DistinctLog;
    var c, rest, o := b.call, b.rest, Exec(b.call, s);
    ExecBails(c, s);
    if DistinctLog(ExecBody(b, s).log) {
      if !Bails(c) { DistinctParts(o.log, ExecBody(rest, o.stack).log); }
      if Rerecords(c) { RerecordedTwice(c, s); } else { BodyRerecordedTwice(rest, o.stack); }
    }
  }

  // ----- The exact conditions -----

  /** Above any stack, two spans of a call are recorded under one id if a matched frame in it finds an already recorded
      context on top, and, while child numbers keep to five digits, only then. */
  lemma RecordedIdsUnique(c: Call, s: seq<Ctx>)
    requires s != []
    ensures Rerecords(c) ==> !DistinctLog(Exec(c, s).log)
    ensures RoomIn(c, s) ==> (DistinctLog(Exec(c, s).log) <==> !Rerecords(c))
  {
    hide Exec, TreeInv, DistinctLog, Rerecords, Residue, Issues, RoomIn;
    if Rerecords(c) { RerecordedTwice(c, s); }
    if RoomIn(c, s) {
      var base, top := s[..|s| - 1], [Last(s)];
      assert s == base + top;
      FrameExec(c, base, top);
      InitialTreeInv(Last(s));
      CallTracked(c, top, [], Last(s));
      TracksDistinct(Exec(c, top), top, Issues(c, top), Residue(c), Rerecords(c));
    }
  }

  lemma TracksDistinct(o: Outcome, s: seq<Ctx>, issued: seq<Issue>, marks: seq<bool>, again: bool)
    requires Tracks(o, s, issued, marks, again)
    ensures DistinctLog(o.log) <==> !again
  {}

  /** A call leaves as many contexts as it leaks, so without a leak no frame finds a recorded one on top. */
  lemma {:induction false} ResidueLeaks(c: Call)
    ensures |Residue(c)| == Leaks(c) && (Rerecords(c) ==> Leaks(c) > 0)
    decreases c
  {
    BodyResidueLeaks(c.body);
  }

  lemma {:induction false} BodyResidueLeaks(b: Body)
    ensures |ResidueBody(b)| == LeaksBody(b) && (RerecordsBody(b) ==> LeaksBody(b) > 0)
    decreases b
  {
    hide Residue, Rerecords, Leaks, Bails;
    if b.Then? {
      ResidueLeaks(b.call);
      BodyResidueLeaks(b.rest);
    }
  }
}
