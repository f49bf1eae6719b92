/** The ids a call tree issues, leaks included. */
module IssuedIds {

  import opened CallTree
  import opened MoStack
  import opened Prelude
  import opened Span
  import opened SpanRuns

  // ----- The ids a call issues -----

  function Issues(c: Call, s: seq<Ctx>): seq<Issue>
    decreases c
  {
    if Pushes(c) then [NewIssue(s)] + IssuesBody(c.body, Pushed(s)) else IssuesBody(c.body, s)
  }

  function IssuesBody(b: Body, s: seq<Ctx>): seq<Issue>
    decreases b
  {
    match b
    case Return => []
    case Bailout => []
    case Then(c, rest) => Issues(c, s) + if Bails(c) then [] else IssuesBody(rest, Exec(c, s).stack)
  }

  /** No push of the call meets an empty stack or a top that has numbered 99999 children. */
  predicate RoomIn(c: Call, s: seq<Ctx>)
    decreases c
  {
    if Pushes(c) then Numberable(s) && RoomInBody(c.body, Pushed(s)) else RoomInBody(c.body, s)
  }

  predicate RoomInBody(b: Body, s: seq<Ctx>)
    decreases b
  {
    match b
    case Return => true
    case Bailout => true
    case Then(c, rest) => RoomIn(c, s) && (Bails(c) || RoomInBody(rest, Exec(c, s).stack))
  }

  /** Without a leak that is read off the tree alone. */
  lemma {:induction false} RoomWithoutLeaks(c: Call, s: seq<Ctx>)
    requires s != [] && Leaks(c) == 0
    ensures RoomIn(c, s) <==> Narrow(c) && Room(Last(s).count, Children(c))
    decreases c
  {
    hide Pushed, Bumped, ChildrenBody;
    BodyRoomWithoutLeaks(c.body, s);
    TopOfPushed(s, 0);
    BodyRoomWithoutLeaks(c.body, Pushed(s));
  }

  lemma {:induction false} BodyRoomWithoutLeaks(b: Body, s: seq<Ctx>)
    requires s != [] && LeaksBody(b) == 0
    ensures RoomInBody(b, s) <==> NarrowBody(b) && Room(Last(s).count, ChildrenBody(b))
    decreases b
  {
    hide Exec, RoomIn, Bails, Leaks, Narrow, Children;
    if b.Then? {
      RoomWithoutLeaks(b.call, s);
      Restores(b.call, s);
      if !Bails(b.call) { BodyRoomWithoutLeaks(b.rest, Bumped(s, Children(b.call))); }
    }
  }

  lemma Rooted(s: seq<Ctx>, issued: seq<Issue>, root: Ctx)
    requires TreeInv(Trace(s, issued), root)
    ensures s != []
  {}

  lemma Pushing(s: seq<Ctx>, issued: seq<Issue>, root: Ctx)
    requires TreeInv(Trace(s, issued), root) && Numberable(s)
    ensures s != [] && TreeInv(Trace(Pushed(s), issued + [NewIssue(s)]), root)
  {
    hide TreeInv, Pushed, NewIssue;
    Rooted(s, issued, root);
    PushKeepsTreeInv(Trace(s, issued), root);
  }

  lemma Popping(s: seq<Ctx>, issued: seq<Issue>, root: Ctx)
    requires TreeInv(Trace(s, issued), root) && |s| > 1
    ensures TreeInv(Trace(Popped(s), issued), root)
  {
    hide TreeInv, Popped;
    PopKeepsTreeInv(Trace(s, issued), root);
  }

  lemma {:induction false} ExecKeepsInv(c: Call, s: seq<Ctx>, issued: seq<Issue>, root: Ctx)
    requires TreeInv(Trace(s, issued), root) && RoomIn(c, s)
    ensures TreeInv(Trace(Exec(c, s).stack, issued + Issues(c, s)), root)
    decreases c
  {
    hide TreeInv, Pushed, Popped, NewIssue, TopId, ParentId;
    if Pushes(c) {
      var e, t, inside := NewIssue(s), Pushed(s), IssuesBody(c.body, Pushed(s));
      Pushing(s, issued, root);
      PushedPopped(s);
      ExecBodyBails(c.body, t);
      HeightBody(c.body, t);
      BodyKeepsInv(c.body, t, issued + [e], root);
      assert issued + [e] + inside == issued + ([e] + inside);
      Popping(ExecBody(c.body, t).stack, issued + Issues(c, s), root);
    } else {
      BodyKeepsInv(c.body, s, issued, root);
    }
  }

  lemma {:induction false} BodyKeepsInv(b: Body, s: seq<Ctx>, issued: seq<Issue>, root: Ctx)
    requires TreeInv(Trace(s, issued), root) && RoomInBody(b, s)
    ensures TreeInv(Trace(ExecBody(b, s).stack, issued + IssuesBody(b, s)), root)
    decreases b
  {
    hide TreeInv, Exec, Bails, Issues;
    if b.Then? {
      var first, t := Issues(b.call, s), Exec(b.call, s).stack;
      ExecBails(b.call, s);
      ExecKeepsInv(b.call, s, issued, root);
      if Bails(b.call) {
        assert first + [] == first;
      } else {
        BodyKeepsInv(b.rest, t, issued + first, root);
        assert issued + first + IssuesBody(b.rest, t) == issued + (first + IssuesBody(b.rest, t));
      }
    } else {
      assert issued + [] == issued;
    }
  }

  lemma PushedTop(s: seq<Ctx>)
    ensures TopId(Pushed(s)) == Some(Id(NewIssue(s)))
  {}

  // ----- The contexts below the top do not matter -----

  lemma FramePushed(base: seq<Ctx>, s: seq<Ctx>)
    requires s != []
    ensures Pushed(base + s) == base + Pushed(s) && |Pushed(s)| == |s| + 1
  {}

  lemma FrameTop(base: seq<Ctx>, s: seq<Ctx>)
    requires |s| > 1
    ensures Popped(base + s) == base + Popped(s)
    ensures TopId(base + s) == TopId(s) && ParentId(base + s) == ParentId(s)
  {}

  lemma {:induction false} FrameExec(c: Call, base: seq<Ctx>, s: seq<Ctx>)
    requires s != []
    ensures Exec(c, base + s) == Exec(c, s).(stack := base + Exec(c, s).stack) && Exec(c, s).stack != []
    ensures RoomIn(c, base + s) == RoomIn(c, s) && Issues(c, base + s) == Issues(c, s)
    decreases c
  {
    hide Pushed, Popped, TopId, ParentId;
    var t := Pushed(s);
    FramePushed(base, s);
    HeightBody(c.body, s);
    HeightBody(c.body, t);
    FrameBody(c.body, base, s);
    FrameBody(c.body, base, t);
    var o := ExecBody(c.body, t);
    FrameTop(base, o.stack);
    PushedPopped(o.stack);
    PushedTop(s);
    PushedTop(base + s);
    SameNewIssue(base, s);
  }

  lemma SameNewIssue(base: seq<Ctx>, s: seq<Ctx>)
    requires s != []
    ensures NewIssue(base + s) == NewIssue(s)
  {}

  lemma {:induction false} FrameBody(b: Body, base: seq<Ctx>, s: seq<Ctx>)
    requires s != []
    ensures ExecBody(b, base + s) == ExecBody(b, s).(stack := base + ExecBody(b, s).stack) && ExecBody(b, s).stack != []
    ensures RoomInBody(b, base + s) == RoomInBody(b, s) && IssuesBody(b, base + s) == IssuesBody(b, s)
    decreases b
  {
    hide Exec;
    if b.Then? {
      FrameExec(b.call, base, s);
      ExecBails(b.call, s);
      if !Exec(b.call, s).bailed { FrameBody(b.rest, base, Exec(b.call, s).stack); }
    }
  }

  // ----- When a call issues an id twice -----

  ghost predicate Repeats(issued: seq<Issue>) {
    exists k, l :: 0 <= k < l < |issued| && Id(issued[k]) == Id(issued[l])
  }

  lemma RepeatsMore(a: seq<Issue>, b: seq<Issue>)
    requires Repeats(a)
    ensures Repeats(a + b)
  {
    hide Id;
    var k, l :| 0 <= k < l < |a| && Id(a[k]) == Id(a[l]);
    assert Id((a + b)[k]) == Id((a + b)[l]);
  }

  lemma PushingComplete(s: seq<Ctx>, issued: seq<Issue>)
    requires Complete(Trace(s, issued)) && Numberable(s)
    ensures Complete(Trace(Pushed(s), issued + [NewIssue(s)]))
  {
    hide Complete, Pushed, NewIssue;
    PushComplete(Trace(s, issued));
  }

  lemma PoppingComplete(s: seq<Ctx>, issued: seq<Issue>)
    requires Complete(Trace(s, issued))
    ensures Complete(Trace(Popped(s), issued))
  {
    hide Complete, Popped;
    PopComplete(Trace(s, issued));
  }

  lemma {:induction false} CallComplete(c: Call, s: seq<Ctx>, issued: seq<Issue>)
    requires Complete(Trace(s, issued)) && RoomIn(c, s)
    ensures Complete(Trace(Exec(c, s).stack, issued + Issues(c, s)))
    decreases c
  {
    hide Complete, Pushed, Popped, NewIssue, TopId, ParentId;
    if Pushes(c) {
      var e, t, inside := NewIssue(s), Pushed(s), IssuesBody(c.body, Pushed(s));
      PushingComplete(s, issued);
      BodyComplete(c.body, t, issued + [e]);
      assert issued + [e] + inside == issued + ([e] + inside);
      PoppingComplete(ExecBody(c.body, t).stack, issued + Issues(c, s));
    } else {
      BodyComplete(c.body, s, issued);
    }
  }

  lemma {:induction false} BodyComplete(b: Body, s: seq<Ctx>, issued: seq<Issue>)
    requires Complete(Trace(s, issued)) && RoomInBody(b, s)
    ensures Complete(Trace(ExecBody(b, s).stack, issued + IssuesBody(b, s)))
    decreases b
  {
    hide Complete, Exec, RoomIn, Bails, Issues;
    if b.Then? {
      var first, t := Issues(b.call, s), Exec(b.call, s).stack;
      ExecBails(b.call, s);
      CallComplete(b.call, s, issued);
      if Bails(b.call) {
        assert first + [] == first;
      } else {
        BodyComplete(b.rest, t, issued + first);
        assert issued + first + IssuesBody(b.rest, t) == issued + (first + IssuesBody(b.rest, t));
      }
    } else {
      assert issued + [] == issued;
    }
  }

  lemma {:induction false} CallMisfitRepeats(c: Call, s: seq<Ctx>, issued: seq<Issue>)
    requires s != [] && Complete(Trace(s, issued)) && !RoomIn(c, s)
    ensures Repeats(issued + Issues(c, s))
    decreases c
  {
    hide Complete, Pushed, NewIssue, Repeats, Numberable;
    if Pushes(c) {
      var e, t, inside := NewIssue(s), Pushed(s), IssuesBody(c.body, Pushed(s));
      PushedPopped(s);
      assert issued + [e] + inside == issued + ([e] + inside);
      if Numberable(s) {
        PushingComplete(s, issued);
        BodyMisfitRepeats(c.body, t, issued + [e]);
      } else {
        OneTooMany(Trace(s, issued));
        KnownRepeats(issued, e);
        RepeatsMore(issued + [e], inside);
      }
    } else {
      BodyMisfitRepeats(c.body, s, issued);
    }
  }

  lemma KnownRepeats(issued: seq<Issue>, e: Issue)
    requires IsIssued(Id(e), issued)
    ensures Repeats(issued + [e])
  {
    hide Id;
    var all := issued + [e];
    var k :| 0 <= k < |issued| && Id(issued[k]) == Id(e);
    assert Id(all[k]) == Id(all[|issued|]);
  }

  lemma {:induction false} BodyMisfitRepeats(b: Body, s: seq<Ctx>, issued: seq<Issue>)
    requires s != [] && Complete(Trace(s, issued)) && !RoomInBody(b, s)
    ensures Repeats(issued + IssuesBody(b, s))
    decreases b
  {
    hide Complete, Exec, RoomIn, Bails, Issues, Repeats;
    var first, t := Issues(b.call, s), Exec(b.call, s).stack;
    var more := if Bails(b.call) then [] else IssuesBody(b.rest, t);
    assert issued + first + more == issued + (first + more);
    if RoomIn(b.call, s) {
      CallComplete(b.call, s, issued);
      Height(b.call, s);
      BodyMisfitRepeats(b.rest, t, issued + first);
    } else {
      CallMisfitRepeats(b.call, s, issued);
      RepeatsMore(issued + first, more);
    }
  }

  /** Above a context without children the ids a call issues, leaks included, are all different exactly when no push
      meets a top that has numbered 99999 children. */
  lemma IssuedIdsUnique(c: Call, s: seq<Ctx>)
    requires s != [] && Last(s).count == 1
    ensures Repeats(Issues(c, s)) <==> !RoomIn(c, s)
  {
    hide Complete, TreeInv, RoomIn, Issues, Repeats, Exec;
    var base, root := s[..|s| - 1], Last(s);
    assert s == base + [root];
    FrameExec(c, base, [root]);
    assert [] + Issues(c, [root]) == Issues(c, [root]);
    if RoomIn(c, s) {
      InitialTreeInv(root);
      ExecKeepsInv(c, [root], [], root);
      InvDiffers(Exec(c, [root]).stack, Issues(c, [root]), root);
    } else {
      RootComplete(root);
      CallMisfitRepeats(c, [root], []);
    }
  }

  lemma DifferentIds(issued: seq<Issue>, root: Ctx, k: nat, l: nat)
    requires IssuedInv(issued, root) && k < l < |issued|
    ensures Id(issued[k]) != Id(issued[l])
  {
    hide Id, Known;
    assert Apart(issued[k], issued[l]);
  }

  lemma InvDiffers(s: seq<Ctx>, issued: seq<Issue>, root: Ctx)
    requires TreeInv(Trace(s, issued), root)
    ensures !Repeats(issued)
  {
    hide Id, Known;
    forall k, l | 0 <= k < l < |issued| ensures Id(issued[k]) != Id(issued[l]) { DifferentIds(issued, root, k, l); }
  }
}
