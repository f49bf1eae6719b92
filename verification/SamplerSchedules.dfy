/** Schedules that exceed the limit: one that attains the bound between two resets, one within a single minute. */
module SamplerSchedules {

  import opened SampledMinute
  import opened SharedSampler

  /** What is known after running evs from s. */
  datatype Outcome = Outcome(state: State, sampled: nat, resets: nat, ofMinute: nat, resetsInMinute: nat,
                             forward: bool)

  ghost function After(s: State, evs: seq<Event>, limit: int, m: int): Outcome
    requires Scheduled(evs, |s.pcs|)
  {
    Outcome(Run(s, evs, |evs|), SampledIn(s, evs, |evs|, limit), ResetsIn(s, evs, |evs|, limit),
            SampledOf(s, evs, |evs|, limit, m), ResetsDuring(s, evs, |evs|, limit, m), Forward(s, evs, |evs|))
  }

  function Add(a: Outcome, e: Event, limit: int, m: int): Outcome
    requires e.w < |a.state.pcs|
  {
    var f := EffectOf(a.state, e, limit);
    Outcome(Fire(a.state, e), a.sampled + (if f == Sampled then 1 else 0), a.resets + (if f == Reset then 1 else 0),
            a.ofMinute + (if DecidesFor(a.state, e, limit, m) then 1 else 0),
            a.resetsInMinute + (if ResetsAt(a.state, e, limit, m) then 1 else 0), a.forward && InTime(a.state, e))
  }

  lemma {:induction false} Prefix(s: State, evs: seq<Event>, e: Event, n: nat, limit: int, m: int)
    requires n <= |evs| && Scheduled(evs, |s.pcs|) && e.w < |s.pcs|
    ensures Scheduled(evs + [e], |s.pcs|)
    ensures Run(s, evs + [e], n) == Run(s, evs, n)
    ensures SampledIn(s, evs + [e], n, limit) == SampledIn(s, evs, n, limit)
    ensures ResetsIn(s, evs + [e], n, limit) == ResetsIn(s, evs, n, limit)
    ensures SampledOf(s, evs + [e], n, limit, m) == SampledOf(s, evs, n, limit, m)
    ensures ResetsDuring(s, evs + [e], n, limit, m) == ResetsDuring(s, evs, n, limit, m)
    ensures Forward(s, evs + [e], n) == Forward(s, evs, n)
  {
    hide Fire, EffectOf, DecidesFor, ResetsAt, InTime;
    if n > 0 { Prefix(s, evs, e, n - 1, limit, m); }
  }

  lemma OneMore(s: State, evs: seq<Event>, e: Event, limit: int, m: int)
    requires Scheduled(evs, |s.pcs|) && e.w < |s.pcs|
    ensures Scheduled(evs + [e], |s.pcs|)
    ensures After(s, evs + [e], limit, m) == Add(After(s, evs, limit, m), e, limit, m)
  {
    hide Fire, EffectOf, DecidesFor, ResetsAt, InTime;
    Prefix(s, evs, e, |evs|, limit, m);
  }

  lemma Nothing(s: State, limit: int, m: int)
    ensures After(s, [], limit, m) == Outcome(s, 0, 0, 0, 0, true)
  {}

  /** Three steps of worker w. */
  lemma ThreeMore(s: State, evs: seq<Event>, e: Event, limit: int, m: int) returns (more: seq<Event>)
    requires Scheduled(evs, |s.pcs|) && e.w < |s.pcs|
    ensures Scheduled(more, |s.pcs|)
    ensures var a := After(s, evs, limit, m);
            After(s, more, limit, m) == Add(Add(Add(a, e, limit, m), e, limit, m), e, limit, m)
  {
    hide Run, SampledIn, ResetsIn, SampledOf, ResetsDuring, Forward, Fire, EffectOf, DecidesFor, ResetsAt, InTime;
    OneMore(s, evs, e, limit, m);
    OneMore(s, evs + [e], e, limit, m);
    OneMore(s, evs + [e] + [e], e, limit, m);
    more := evs + [e] + [e] + [e];
  }

  /** A whole request of an idle worker in the minute stored, while the limit leaves room for it. */
  lemma {:induction false} Requests(s: State, evs: seq<Event>, w: nat, n: nat, limit: int, m: int)
    returns (more: seq<Event>)
    requires Scheduled(evs, |s.pcs|) && w < |s.pcs|
    requires var a := After(s, evs, limit, m);
             a.state.pcs[w] == Idle && a.state.lastMin == m == a.state.clock && a.state.num + n < limit && a.forward
    ensures Scheduled(more, |s.pcs|)
    ensures var a := After(s, evs, limit, m);
            After(s, more, limit, m) ==
            a.(state := a.state.(num := a.state.num + n), sampled := a.sampled + n, ofMinute := a.ofMinute + n)
  {
    hide Run, SampledIn, ResetsIn, SampledOf, ResetsDuring, Forward;
    if n == 0 {
      more := evs;
    } else {
      var before := Requests(s, evs, w, n - 1, limit, m);
      var a := After(s, before, limit, m);
      more := ThreeMore(s, before, Event(w, m), limit, m);
      OneMore(s, more, Event(w, m), limit, m);
      more := more + [Event(w, m)];
      assert After(s, more, limit, m).state.pcs == a.state.pcs;
    }
  }

  // ----- The bound between two resets is reached -----

  lemma {:induction false} Gather(p: nat, k: nat, limit: int) returns (evs: seq<Event>)
    requires k <= p
    ensures Scheduled(evs, p)
    ensures var a := After(Initial(p, 0), evs, limit, 1);
            && a.state.lastMin == 0 && a.state.clock == 0 && a.forward
            && (forall i :: 0 <= i < k ==> a.state.pcs[i] == ToRead(0))
            && (forall i :: k <= i < p ==> a.state.pcs[i] == Idle)
  {
    hide Run, SampledIn, ResetsIn, SampledOf, ResetsDuring, Forward, AllIdle;
    var s := Initial(p, 0);
    if k == 0 {
      evs := [];
      forall i | 0 <= i < p ensures s.pcs[i] == Idle { AllIdleAt(p, i); }
      Nothing(s, limit, 1);
    } else {
      var first := Gather(p, k - 1, limit);
      evs := ThreeMore(s, first, Event(k - 1, 0), limit, 1);
    }
  }

  /** The first k of the decisions already due. */
  lemma {:induction false} Drain(s: State, k: nat, limit: int) returns (evs: seq<Event>)
    requires k < |s.pcs| && s.num == 0 && s.clock == 1 && limit >= 1
    requires s.pcs[|s.pcs| - 1] == ToStamp(1) && forall i :: 0 <= i < |s.pcs| - 1 ==> s.pcs[i] == ToRead(0)
    ensures Scheduled(evs, |s.pcs|)
    ensures var a := After(s, evs, limit, 1);
            && a.sampled == k && a.resets == 0 && a.forward && a.state.num == 0 && a.state.clock == 1
            && a.state.pcs[|s.pcs| - 1] == ToStamp(1)
            && forall i :: k <= i < |s.pcs| - 1 ==> a.state.pcs[i] == ToRead(0)
  {
    hide Run, SampledIn, ResetsIn, SampledOf, ResetsDuring, Forward;
    if k == 0 {
      evs := [];
      Nothing(s, limit, 1);
    } else {
      var first := Drain(s, k - 1, limit);
      OneMore(s, first, Event(k - 1, 0), limit, 1);
      evs := first + [Event(k - 1, 0)];
    }
  }

  /** From idle workers, under a clock that never goes back, some schedule has a reset after which
      limit + P - 1 requests are sampled before the next one. */
  lemma OversamplingReached(p: nat, limit: int)
    returns (before: seq<Event>, zeroing: Event, evs: seq<Event>)
    requires p >= 1 && limit >= 1
    ensures Scheduled(before, p) && Scheduled(evs, p) && zeroing.w < p
    ensures var s := Run(Initial(p, 0), before, |before|);
            && Forward(Initial(p, 0), before, |before|)
            && s.pcs[zeroing.w].ToReset? && Forward(Fire(s, zeroing), evs, |evs|)
            && ResetsIn(Fire(s, zeroing), evs, |evs|, limit) == 0
            && SampledIn(Fire(s, zeroing), evs, |evs|, limit) == limit + p - 1
  {
    hide Run, SampledIn, ResetsIn, SampledOf, ResetsDuring, Forward, AllIdle;
    var s0, last := Initial(p, 0), p - 1;
    zeroing := Event(last, 1);
    before := Gather(p, last, limit);
    OneMore(s0, before, zeroing, limit, 1);
    OneMore(s0, before + [zeroing], zeroing, limit, 1);
    before := before + [zeroing] + [zeroing];
    var t := Fire(Run(s0, before, |before|), zeroing);
    evs := Drain(t, last, limit);
    OneMore(t, evs, zeroing, limit, 1);
    OneMore(t, evs + [zeroing], zeroing, limit, 1);
    evs := Requests(t, evs + [zeroing] + [zeroing], last, limit - 1, limit, 1);
  }

  // ----- One minute, many resets -----

  /** The first spent workers are idle again, those up to armed have seen that another minute is stored, those up to
      idle have not started, and the others have read minute 0 and not compared it. */
  function Standing(i: nat, spent: nat, armed: nat, idle: nat): Pc {
    if i < spent then Idle else if i < armed then ToReset(1) else if i < idle then Idle else ToCompare(0)
  }

  ghost predicate Stands(a: Outcome, p: nat, spent: nat, armed: nat, idle: nat) {
    && |a.state.pcs| == p && a.forward && a.state.clock <= 1
    && forall i :: 0 <= i < p ==> a.state.pcs[i] == Standing(i, spent, armed, idle)
  }

  /** Workers 1 to p - 1 start in minute 0. */
  lemma {:induction false} StartOld(p: nat, k: nat, limit: int) returns (evs: seq<Event>)
    requires 0 < k <= p
    ensures Scheduled(evs, p)
    ensures var a := After(Initial(p, 0), evs, limit, 1);
            && Stands(a, p, 0, 0, k) && a.state.lastMin == 0 == a.state.clock
            && a.ofMinute == 0 && a.resetsInMinute == 0
    decreases p - k
  {
    hide Run, SampledIn, ResetsIn, SampledOf, ResetsDuring, Forward, AllIdle;
    var s := Initial(p, 0);
    if k == p {
      evs := [];
      forall i | 0 <= i < p ensures s.pcs[i] == Idle { AllIdleAt(p, i); }
      Nothing(s, limit, 1);
    } else {
      var first := StartOld(p, k + 1, limit);
      OneMore(s, first, Event(k, 0), limit, 1);
      evs := first + [Event(k, 0)];
    }
  }

  /** The first j of k idle workers read minute 1 and see that minute 0 is stored. */
  lemma {:induction false} Arm(p: nat, k: nat, j: nat, limit: int, first: seq<Event>) returns (evs: seq<Event>)
    requires j <= k <= p && Scheduled(first, p)
    requires var a := After(Initial(p, 0), first, limit, 1); Stands(a, p, 0, 0, k) && a.state.lastMin == 0
    ensures Scheduled(evs, p)
    ensures var a, b := After(Initial(p, 0), first, limit, 1), After(Initial(p, 0), evs, limit, 1);
            && Stands(b, p, 0, j, k) && b.state.lastMin == 0 && (j > 0 ==> b.state.clock == 1)
            && b.ofMinute == a.ofMinute && b.resetsInMinute == a.resetsInMinute
  {
    hide Run, SampledIn, ResetsIn, SampledOf, ResetsDuring, Forward, AllIdle;
    if j == 0 {
      evs := first;
    } else {
      var before := Arm(p, k, j - 1, limit, first);
      var e := Event(j - 1, 1);
      OneMore(Initial(p, 0), before, e, limit, 1);
      OneMore(Initial(p, 0), before + [e], e, limit, 1);
      evs := before + [e] + [e];
    }
  }

  /** The first j of k armed workers reset the counter and use up the limit, each on its own. */
  lemma {:induction false} Spend(p: nat, k: nat, j: nat, limit: int, armed: seq<Event>) returns (evs: seq<Event>)
    requires j <= k <= p && limit >= 1 && Scheduled(armed, p)
    requires var a := After(Initial(p, 0), armed, limit, 1); Stands(a, p, 0, k, k) && a.state.clock == 1
    ensures Scheduled(evs, p)
    ensures var a, b := After(Initial(p, 0), armed, limit, 1), After(Initial(p, 0), evs, limit, 1);
            && Stands(b, p, j, k, k) && b.state.clock == 1 && (j > 0 ==> b.state.lastMin == 1)
            && b.ofMinute == a.ofMinute + j * limit && b.resetsInMinute == a.resetsInMinute + j
  {
    hide Run, SampledIn, ResetsIn, SampledOf, ResetsDuring, Forward, AllIdle;
    if j == 0 {
      evs := armed;
    } else {
      var s := Initial(p, 0);
      var before := Spend(p, k, j - 1, limit, armed);
      var next := ThreeMore(s, before, Event(j - 1, 1), limit, 1);
      evs := Requests(s, next, j - 1, limit - 1, limit, 1);
      assert j * limit == (j - 1) * limit + limit;
    }
  }

  /** Worker k of minute 0 resets the counter and stores its minute again. */
  lemma Reopen(p: nat, k: nat, limit: int, before: seq<Event>) returns (evs: seq<Event>)
    requires k < p && Scheduled(before, p)
    requires var a := After(Initial(p, 0), before, limit, 1);
             Stands(a, p, k, k, k) && a.state.lastMin == 1 == a.state.clock
    ensures Scheduled(evs, p)
    ensures var a, b := After(Initial(p, 0), before, limit, 1), After(Initial(p, 0), evs, limit, 1);
            && Stands(b, p, 0, 0, k + 1) && b.state.lastMin == 0
            && b.ofMinute == a.ofMinute && b.resetsInMinute == a.resetsInMinute + 1
  {
    hide Run, SampledIn, ResetsIn, SampledOf, ResetsDuring, Forward, AllIdle;
    var s, e := Initial(p, 0), Event(k, 1);
    var three := ThreeMore(s, before, e, limit, 1);
    OneMore(s, three, e, limit, 1);
    evs := three + [e];
  }

  function Triangle(k: nat): nat {
    if k == 0 then 0 else Triangle(k - 1) + k
  }

  lemma {:induction false} TriangleIs(k: nat)
    ensures 2 * Triangle(k) == k * k + k
  {
    if k > 0 {
      TriangleIs(k - 1);
      assert k * k == (k - 1) * (k - 1) + 2 * k - 1;
    }
  }

  /** The first k workers have been through: each of the later ones reopened the minute for all before it. */
  lemma {:induction false} Stage(p: nat, k: nat, limit: int) returns (evs: seq<Event>)
    requires 0 < k <= p && limit >= 1
    ensures Scheduled(evs, p)
    ensures var a := After(Initial(p, 0), evs, limit, 1);
            && Stands(a, p, k, k, k) && a.state.lastMin == 1 == a.state.clock
            && a.ofMinute == Triangle(k) * limit && a.resetsInMinute == Triangle(k) + k - 1
  {
    hide Run, SampledIn, ResetsIn, SampledOf, ResetsDuring, Forward, AllIdle;
    if k == 1 {
      evs := StartOld(p, 1, limit);
      assert Triangle(1) == 1;
    } else {
      evs := Stage(p, k - 1, limit);
      evs := Reopen(p, k - 1, limit, evs);
    }
    evs := Arm(p, k, k, limit, evs);
    evs := Spend(p, k, k, limit, evs);
    assert Triangle(k) * limit == Triangle(k - 1) * limit + k * limit;
  }

  /** From idle workers and under a clock that never goes back P workers can sample P * (P + 1) / 2 times the limit
      within one minute: one late worker after the other stores the minute before again, and all that are through
      find it and reset. No schedule has more resets in one minute, as MinuteResets says. */
  lemma MinuteExceeded(p: nat, limit: int) returns (evs: seq<Event>)
    requires p >= 1 && limit >= 1
    ensures Scheduled(evs, p) && Forward(Initial(p, 0), evs, |evs|)
    ensures SampledOf(Initial(p, 0), evs, |evs|, limit, 1) == p * (p + 1) / 2 * limit
    ensures ResetsDuring(Initial(p, 0), evs, |evs|, limit, 1) == (p * p + 3 * p - 2) / 2
  {
    hide Run, SampledIn, ResetsIn, SampledOf, ResetsDuring, Forward, AllIdle;
    evs := Stage(p, p, limit);
    TriangleIs(p);
    assert p * (p + 1) == p * p + p;
  }
}
