/** How many requests of one minute several workers sample under a clock that never goes back. */
module SampledMinute {

  import Sampler
  import opened SharedSampler

  /** No minute read or stored is later than the clock. */
  ghost predicate Timely(s: State) {
    s.lastMin <= s.clock && forall i :: 0 <= i < |s.pcs| ==> s.pcs[i].Idle? || s.pcs[i].min <= s.clock
  }

  lemma TimelyStep(s: State, e: Event)
    requires Timely(s) && e.w < |s.pcs| && InTime(s, e)
    ensures Timely(Fire(s, e)) && s.clock <= Fire(s, e).clock
    ensures !s.pcs[e.w].Idle? ==> Fire(s, e).clock == s.clock
  {
    assert s.pcs[e.w].Idle? || s.pcs[e.w].min <= s.clock;
  }

  // ----- How many resets are still possible in minute m -----

  /** A worker of an earlier minute that may still store it. */
  predicate Old(pc: Pc, m: int) {
    (pc.ToCompare? || pc.ToReset? || pc.ToStamp?) && pc.min != m
  }

  function Olds(pcs: seq<Pc>, n: nat, m: int): nat
    requires n <= |pcs|
  {
    if n == 0 then 0 else Olds(pcs, n - 1, m) + if Old(pcs[n - 1], m) then 1 else 0
  }

  /** The next reset of worker pc: its own, if it is under way, or one it finds necessary while last_min is not m. */
  function Weight(pc: Pc, open: bool, m: int): nat {
    if pc.ToReset? || (pc.ToCompare? && pc.min != m) then 1
    else if pc.ToStamp? then 0
    else if open then 1 else 0
  }

  function WeightTo(pcs: seq<Pc>, n: nat, open: bool, m: int): nat
    requires n <= |pcs|
  {
    if n == 0 then 0 else WeightTo(pcs, n - 1, open, m) + Weight(pcs[n - 1], open, m)
  }

  /** When the first of q old workers stores its minute, it and the p - q others that are not old may each reset
      once more; and so on for the remaining ones. */
  function Reopened(q: nat, p: nat): nat
    requires q <= p
  {
    if q == 0 then 0 else Reopened(q - 1, p) + (p - q + 1)
  }

  function Load(s: State, m: int): nat {
    var p := |s.pcs|;
    OldsBound(s.pcs, p, m);
    WeightTo(s.pcs, p, s.lastMin != m, m) + Reopened(Olds(s.pcs, p, m), p)
  }

  lemma {:induction false} OldsBound(pcs: seq<Pc>, n: nat, m: int)
    requires n <= |pcs|
    ensures Olds(pcs, n, m) <= n
  {
    if n > 0 { OldsBound(pcs, n - 1, m); }
  }

  lemma {:induction false} OldsUpdate(pcs: seq<Pc>, i: nat, pc: Pc, n: nat, m: int)
    requires i < |pcs| && n <= |pcs|
    ensures Olds(pcs[i := pc], n, m) + (if i < n && Old(pcs[i], m) then 1 else 0)
         == Olds(pcs, n, m) + (if i < n && Old(pc, m) then 1 else 0)
  {
    hide Old;
    if n > 0 { OldsUpdate(pcs, i, pc, n - 1, m); }
  }

  lemma {:induction false} WeightUpdate(pcs: seq<Pc>, i: nat, pc: Pc, n: nat, open: bool, m: int)
    requires i < |pcs| && n <= |pcs|
    ensures WeightTo(pcs[i := pc], n, open, m) + (if i < n then Weight(pcs[i], open, m) else 0)
         == WeightTo(pcs, n, open, m) + (if i < n then Weight(pc, open, m) else 0)
  {
    hide Weight;
    if n > 0 { WeightUpdate(pcs, i, pc, n - 1, open, m); }
  }

  /** Storing another minute than m concerns only the workers that are not old. */
  lemma {:induction false} WeightOpens(pcs: seq<Pc>, n: nat, m: int)
    requires n <= |pcs|
    ensures WeightTo(pcs, n, false, m) <= WeightTo(pcs, n, true, m)
    ensures WeightTo(pcs, n, true, m) + Olds(pcs, n, m) <= WeightTo(pcs, n, false, m) + n
  {
    if n > 0 { WeightOpens(pcs, n - 1, m); }
  }

  lemma {:induction false} WeightBound(pcs: seq<Pc>, n: nat, open: bool, m: int)
    requires n <= |pcs|
    ensures WeightTo(pcs, n, open, m) <= n
  {
    if n > 0 { WeightBound(pcs, n - 1, open, m); }
  }

  lemma {:induction false} ReopenedGrows(q: nat, r: nat, p: nat)
    requires q <= r <= p
    ensures Reopened(q, p) <= Reopened(r, p)
  {
    if q < r { ReopenedGrows(q, r - 1, p); }
  }

  lemma {:induction false} ReopenedIs(q: nat, p: nat)
    requires q <= p
    ensures 2 * Reopened(q, p) == 2 * q * p - q * q + q
  {
    if q > 0 {
      ReopenedIs(q - 1, p);
      assert 2 * q * p == 2 * (q - 1) * p + 2 * p && q * q == (q - 1) * (q - 1) + 2 * q - 1;
    }
  }

  /** No minute can see more resets than this: when it begins, at least one worker is not old. */
  function MostResets(p: nat): nat {
    if p == 0 then 0 else p + Reopened(p - 1, p)
  }

  lemma MostResetsIs(p: nat)
    requires p > 0
    ensures MostResets(p) == (p * p + 3 * p - 2) / 2
  {
    ReopenedIs(p - 1, p);
    assert 2 * (p - 1) * p == 2 * (p * p) - 2 * p && (p - 1) * (p - 1) == p * p - 2 * p + 1;
  }

  lemma LoadBegins(s: State, w: nat, m: int)
    requires w < |s.pcs| && !Old(s.pcs[w], m)
    ensures Load(s, m) <= MostResets(|s.pcs|)
  {
    var p := |s.pcs|;
    WeightBound(s.pcs, p, s.lastMin != m, m);
    OldsLess(s.pcs, p, w, m);
    ReopenedGrows(Olds(s.pcs, p, m), p - 1, p);
  }

  lemma {:induction false} OldsLess(pcs: seq<Pc>, n: nat, w: nat, m: int)
    requires w < n <= |pcs| && !Old(pcs[w], m)
    ensures Olds(pcs, n, m) <= n - 1
  {
    hide Old;
    if w < n - 1 { OldsLess(pcs, n - 1, w, m); } else { OldsBound(pcs, n - 1, m); }
  }

  /** Every reset uses one up, and no step adds any. */
  lemma LoadStep(s: State, e: Event, m: int)
    requires Timely(s) && e.w < |s.pcs| && s.clock == m && Fire(s, e).clock == m
    ensures Load(Fire(s, e), m) + (if s.pcs[e.w].ToReset? then 1 else 0) <= Load(s, m)
  {
    hide WeightTo, Olds;
    var p, t, pc, open := |s.pcs|, Fire(s, e), s.pcs[e.w], s.lastMin != m;
    assert pc.Idle? || pc.min <= m;
    WeightUpdate(s.pcs, e.w, t.pcs[e.w], p, open, m);
    WeightUpdate(s.pcs, e.w, t.pcs[e.w], p, true, m);
    WeightUpdate(s.pcs, e.w, t.pcs[e.w], p, false, m);
    WeightOpens(s.pcs, p, m);
    WeightOpens(t.pcs, p, m);
    OldsUpdate(s.pcs, e.w, t.pcs[e.w], p, m);
    OldsBound(s.pcs, p, m);
    OldsBound(t.pcs, p, m);
  }

  lemma {:induction false} ResetsInv(s: State, evs: seq<Event>, n: nat, m: int, limit: int)
    requires n <= |evs| && Scheduled(evs, |s.pcs|) && Timely(s) && s.clock < m && Forward(s, evs, n)
    ensures var t, r := Run(s, evs, n), ResetsDuring(s, evs, n, limit, m);
            && Timely(t) && r <= MostResets(|s.pcs|)
            && (t.clock < m ==> r == 0) && (t.clock == m ==> r + Load(t, m) <= MostResets(|s.pcs|))
  {
    hide Timely, Load, MostResets, InTime;
    if n > 0 {
      ResetsInv(s, evs, n - 1, m, limit);
      var t, e := Run(s, evs, n - 1), evs[n - 1];
      TimelyStep(t, e);
      var u := Fire(t, e);
      if u.clock == m {
        if t.clock == m { LoadStep(t, e, m); } else { LoadBegins(u, e.w, m); }
      }
    }
  }

  /** With a clock that never goes back, P workers reset the counter at most (P * P + 3 * P - 2) / 2 times while it
      shows one minute. */
  lemma MinuteResets(s: State, evs: seq<Event>, m: int, limit: int)
    requires Timely(s) && s.clock < m && |s.pcs| > 0
    requires Scheduled(evs, |s.pcs|) && Forward(s, evs, |evs|)
    ensures var p := |s.pcs|; ResetsDuring(s, evs, |evs|, limit, m) <= (p * p + 3 * p - 2) / 2
  {
    hide Run, ResetsDuring, Forward, Timely, Load;
    ResetsInv(s, evs, |evs|, m, limit);
    MostResetsIs(|s.pcs|);
  }

  // ----- Requests of minute m in flight -----

  function InFlight(pcs: seq<Pc>, n: nat, m: int): nat
    requires n <= |pcs|
  {
    if n == 0 then 0 else InFlight(pcs, n - 1, m) + if IsOf(pcs[n - 1], m) then 1 else 0
  }

  lemma {:induction false} InFlightUpdate(pcs: seq<Pc>, i: nat, pc: Pc, n: nat, m: int)
    requires i < |pcs| && n <= |pcs|
    ensures InFlight(pcs[i := pc], n, m) + (if i < n && IsOf(pcs[i], m) then 1 else 0)
         == InFlight(pcs, n, m) + (if i < n && IsOf(pc, m) then 1 else 0)
  {
    if n > 0 { InFlightUpdate(pcs, i, pc, n - 1, m); }
  }

  lemma {:induction false} InFlightBound(pcs: seq<Pc>, n: nat, i: nat, m: int)
    requires n <= |pcs|
    ensures InFlight(pcs, n, m) <= n
    ensures i < n && !IsOf(pcs[i], m) ==> InFlight(pcs, n, m) <= n - 1
  {
    if n > 0 { InFlightBound(pcs, n - 1, i, m); }
  }

  // ----- The account of minute m -----

  /** began: a reset has happened since the clock reached m; from then on book and due account for every
      request sampled; resets and sampled count those of minute m. */
  datatype Ledger = Ledger(began: bool, book: Book, due: nat, resets: nat, sampled: nat)

  /** No request of minute m is past its own reset. */
  ghost predicate NotYet(s: State, m: int) {
    && s.lastMin < m
    && forall i :: 0 <= i < |s.pcs| && IsOf(s.pcs[i], m) ==> s.pcs[i].ToCompare? || s.pcs[i].ToReset?
  }

  /** What one window can sample. */
  function PerWindow(s: State, limit: int): nat {
    |s.pcs| + Quota(limit)
  }

  ghost predicate Counting(l: Ledger, s: State, m: int, limit: int, base: nat, most: nat) {
    && l.resets + Load(s, m) <= most
    && if l.began then
         && Inv(l.book, s, l.due, limit) && l.sampled <= l.book.sampled
         && l.due + Quota(limit) <= base + l.resets * PerWindow(s, limit)
       else l.sampled == 0 && l.resets == 0 && NotYet(s, m)
  }

  ghost predicate Closed(l: Ledger, s: State, m: int, limit: int, base: nat, most: nat) {
    l.sampled + InFlight(s.pcs, |s.pcs|, m) + 1 <= base + most * PerWindow(s, limit) + |s.pcs|
  }

  ghost predicate Within(l: Ledger, s: State, m: int, limit: int, base: nat, most: nat) {
    && Timely(s) && (l.sampled == 0 || limit >= 1)
    && if s.clock < m then l.sampled == 0 && l.resets == 0 && !l.began && most >= MostResets(|s.pcs|)
       else if s.clock == m then Counting(l, s, m, limit, base, most)
       else Closed(l, s, m, limit, base, most)
  }

  ghost predicate Follows(l: Ledger, l': Ledger, s: State, e: Event, limit: int, m: int)
    requires e.w < |s.pcs|
  {
    l'.sampled == l.sampled + if DecidesFor(s, e, limit, m) then 1 else 0
  }

  lemma BeforeMinute(l: Ledger, s: State, e: Event, m: int, limit: int, base: nat, most: nat) returns (l': Ledger)
    requires e.w < |s.pcs| && InTime(s, e) && Within(l, s, m, limit, base, most) && s.clock < m
    ensures Within(l', Fire(s, e), m, limit, base, most) && Follows(l, l', s, e, limit, m)
  {
    hide Load, InFlight, Inv, MostResets;
    var t := Fire(s, e);
    TimelyStep(s, e);
    assert !IsOf(s.pcs[e.w], m);
    l' := l;
    if t.clock == m {
      LoadBegins(t, e.w, m);
    } else if t.clock > m {
      NoneInFlight(s, m, |s.pcs|);
      InFlightUpdate(s.pcs, e.w, t.pcs[e.w], |s.pcs|, m);
    }
  }

  lemma {:induction false} NoneInFlight(s: State, m: int, n: nat)
    requires Timely(s) && s.clock < m && n <= |s.pcs|
    ensures InFlight(s.pcs, n, m) == 0
  {
    if n > 0 {
      NoneInFlight(s, m, n - 1);
      assert s.pcs[n - 1].Idle? || s.pcs[n - 1].min <= s.clock;
    }
  }

  /** The clock moves on: every request of minute m still in flight decides at most once. */
  lemma LeavingMinute(l: Ledger, s: State, e: Event, m: int, limit: int, base: nat, most: nat)
    requires e.w < |s.pcs| && InTime(s, e) && Within(l, s, m, limit, base, most) && s.clock == m < Fire(s, e).clock
    ensures Within(l, Fire(s, e), m, limit, base, most) && Follows(l, l, s, e, limit, m)
  {
    hide Load, Inv;
    var t, per := Fire(s, e), PerWindow(s, limit);
    TimelyStep(s, e);
    InFlightBound(t.pcs, |t.pcs|, e.w, m);
    if l.began {
      BookShape(l.book, s, l.due, limit);
      Monotone(l.resets, most, per);
    }
  }

  lemma Monotone(a: nat, b: nat, x: nat)
    requires a <= b
    ensures a * x <= b * x
  {}

  lemma AfterMinute(l: Ledger, s: State, e: Event, m: int, limit: int, base: nat, most: nat) returns (l': Ledger)
    requires e.w < |s.pcs| && InTime(s, e) && Within(l, s, m, limit, base, most) && m < s.clock
    ensures Within(l', Fire(s, e), m, limit, base, most) && Follows(l, l', s, e, limit, m)
  {
    hide Load, InFlight, Inv, PerWindow;
    var t := Fire(s, e);
    TimelyStep(s, e);
    InFlightUpdate(s.pcs, e.w, t.pcs[e.w], |s.pcs|, m);
    PerWindowStays(s, e, limit);
    l' := l.(sampled := l.sampled + if DecidesFor(s, e, limit, m) then 1 else 0);
  }

  lemma PerWindowStays(s: State, e: Event, limit: int)
    requires e.w < |s.pcs|
    ensures PerWindow(Fire(s, e), limit) == PerWindow(s, limit) && |Fire(s, e).pcs| == |s.pcs|
  {}

  /** In minute m before its first reset: nothing of minute m is decided. */
  lemma FirstStep(l: Ledger, s: State, e: Event, m: int, limit: int, base: nat, most: nat) returns (l': Ledger)
    requires e.w < |s.pcs| && InTime(s, e) && Within(l, s, m, limit, base, most)
    requires s.clock == m == Fire(s, e).clock && !l.began
    ensures Within(l', Fire(s, e), m, limit, base, most) && Follows(l, l', s, e, limit, m)
  {
    hide Load, Inv, Due, Opened;
    var t := Fire(s, e);
    TimelyStep(s, e);
    LoadStep(s, e, m);
    assert IsOf(s.pcs[e.w], m) ==> s.pcs[e.w].ToCompare? || s.pcs[e.w].ToReset?;
    if s.pcs[e.w].ToReset? {
      l' := Ledger(true, Opened(t, 0), Due(t), 1, 0);
      OpenedInv(t, 0, limit);
      OpenedNothing(t, 0);
      DueBound(t);
    } else {
      l' := l;
      NotYetStays(s, e, m);
    }
  }

  lemma NotYetStays(s: State, e: Event, m: int)
    requires Timely(s) && e.w < |s.pcs| && s.clock == m && NotYet(s, m) && !s.pcs[e.w].ToReset?
    ensures NotYet(Fire(s, e), m)
  {
    assert IsOf(s.pcs[e.w], m) ==> s.pcs[e.w].ToCompare?;
    assert s.pcs[e.w].Idle? || s.pcs[e.w].min <= m;
  }

  /** In minute m after its first reset. */
  lemma LaterStep(l: Ledger, s: State, e: Event, m: int, limit: int, base: nat, most: nat) returns (l': Ledger)
    requires e.w < |s.pcs| && InTime(s, e) && Within(l, s, m, limit, base, most)
    requires s.clock == m == Fire(s, e).clock && l.began
    ensures Within(l', Fire(s, e), m, limit, base, most) && Follows(l, l', s, e, limit, m)
  {
    hide Load, Inv, Due, Opened, Written, PerWindow, Timely;
    var t, per := Fire(s, e), PerWindow(s, limit);
    TimelyStep(s, e);
    LoadStep(s, e, m);
    PerWindowStays(s, e, limit);
    BookShape(l.book, s, l.due, limit);
    if s.pcs[e.w].ToReset? {
      l' := Ledger(true, Opened(t, l.book.sampled), l.book.sampled + Due(t), l.resets + 1, l.sampled);
      OpenedInv(t, l.book.sampled, limit);
      OpenedNothing(t, l.book.sampled);
      DueBound(t);
      Distribute(l.resets, per);
      PerWindowIs(s, limit);
    } else {
      StepInv(l.book, s, e, l.due, limit);
      l' := l.(book := Written(l.book, s, e, limit),
               sampled := l.sampled + if DecidesFor(s, e, limit, m) then 1 else 0);
      BookShape(l'.book, t, l.due, limit);
    }
  }

  lemma PerWindowIs(s: State, limit: int)
    ensures PerWindow(s, limit) == |s.pcs| + Quota(limit)
  {}

  lemma {:induction false} MinuteInv(s: State, evs: seq<Event>, n: nat, m: int, limit: int, base: nat, most: nat,
                                     l0: Ledger) returns (l: Ledger)
    requires n <= |evs| && Scheduled(evs, |s.pcs|) && Forward(s, evs, n)
    requires Within(l0, s, m, limit, base, most) && l0.sampled == 0
    ensures Within(l, Run(s, evs, n), m, limit, base, most) && l.sampled == SampledOf(s, evs, n, limit, m)
  {
    hide Within, InTime, DecidesFor, Fire;
    if n == 0 {
      l := l0;
    } else {
      var l' := MinuteInv(s, evs, n - 1, m, limit, base, most, l0);
      var t, e := Run(s, evs, n - 1), evs[n - 1];
      if t.clock < m {
        l := BeforeMinute(l', t, e, m, limit, base, most);
      } else if m < t.clock {
        l := AfterMinute(l', t, e, m, limit, base, most);
      } else {
        ClockRuns(l', t, e, m, limit, base, most);
        if m < Fire(t, e).clock {
          LeavingMinute(l', t, e, m, limit, base, most);
          l := l';
        } else if l'.began {
          l := LaterStep(l', t, e, m, limit, base, most);
        } else {
          l := FirstStep(l', t, e, m, limit, base, most);
        }
      }
    }
  }

  lemma ClockRuns(l: Ledger, s: State, e: Event, m: int, limit: int, base: nat, most: nat)
    requires e.w < |s.pcs| && InTime(s, e) && Within(l, s, m, limit, base, most)
    ensures s.clock <= Fire(s, e).clock
  {
    TimelyStep(s, e);
  }

  /** In any state of any run the account bounds the requests of minute m sampled so far. */
  lemma WithinBound(l: Ledger, s: State, m: int, limit: int, base: nat, most: nat)
    requires Within(l, s, m, limit, base, most) && |s.pcs| > 0
    ensures l.sampled + 1 <= base + most * PerWindow(s, limit) + |s.pcs|
    ensures limit <= 0 ==> l.sampled == 0
  {
    hide Inv, Load, InFlight;
    if s.clock == m && l.began {
      BookShape(l.book, s, l.due, limit);
      Monotone(l.resets, most, PerWindow(s, limit));
    }
  }

  /** With a clock that never goes back, P workers sample at most (P * P + 3 * P - 2) / 2 * (limit + P - 1)
      + P - 1 requests that started in minute m, whatever was going on when it began; for one worker that is limit. */
  lemma MinuteBound(s: State, evs: seq<Event>, m: int, limit: int)
    requires Timely(s) && s.clock < m && |s.pcs| > 0 && limit >= 1
    requires Scheduled(evs, |s.pcs|) && Forward(s, evs, |evs|)
    ensures var p := |s.pcs|;
            SampledOf(s, evs, |evs|, limit, m) <= (p * p + 3 * p - 2) / 2 * (limit + p - 1) + p - 1
  {
    hide Run, SampledOf, Forward, Timely;
    var p := |s.pcs|;
    var l := MinuteInv(s, evs, |evs|, m, limit, 0, MostResets(p), Ledger(false, Opened(s, 0), 0, 0, 0));
    WithinBound(l, Run(s, evs, |evs|), m, limit, 0, MostResets(p));
    MostResetsIs(p);
  }

  /** In the minute in which the constructor ran, no worker can reset before the clock moves on. */
  lemma FirstMinuteBound(p: nat, evs: seq<Event>, m: int, limit: int)
    requires p > 0 && Scheduled(evs, p) && Forward(Initial(p, m), evs, |evs|)
    ensures SampledOf(Initial(p, m), evs, |evs|, limit, m) <= if limit >= 1 then limit - 1 + p - 1 else 0
  {
    hide Run, SampledOf, Forward, Opened, Due, Inv;
    var s := Initial(p, m);
    var l0 := Ledger(true, Opened(s, 0), 0, 0, 0);
    InitialDue(p, m);
    OpenedInv(s, 0, limit);
    OpenedNothing(s, 0);
    InitialLoad(p, m, p);
    InitialTimely(p, m);
    var l := MinuteInv(s, evs, |evs|, m, limit, Quota(limit), 0, l0);
    WithinBound(l, Run(s, evs, |evs|), m, limit, Quota(limit), 0);
  }

  lemma InitialTimely(p: nat, m: int)
    ensures Timely(Initial(p, m))
  {
    forall i | 0 <= i < p ensures AllIdle(p)[i] == Idle { AllIdleAt(p, i); }
  }

  lemma {:induction false} InitialLoad(p: nat, m: int, n: nat)
    requires n <= p
    ensures WeightTo(AllIdle(p), n, false, m) == 0 && Olds(AllIdle(p), n, m) == 0
  {
    if n > 0 {
      InitialLoad(p, m, n - 1);
      AllIdleAt(p, n - 1);
    }
  }

  // ----- A request that nothing interleaves with -----

  /** The state after n steps of worker w that start with reading minute min. */
  function AloneFor(s: State, w: nat, min: int, n: nat): (t: State)
    requires w < |s.pcs|
    ensures |t.pcs| == |s.pcs|
  {
    if n == 0 then s else Fire(AloneFor(s, w, min, n - 1), Event(w, min))
  }

  lemma AloneNext(s: State, w: nat, min: int, n: nat)
    requires w < |s.pcs|
    ensures AloneFor(s, w, min, 0) == s
    ensures AloneFor(s, w, min, n + 1) == Fire(AloneFor(s, w, min, n), Event(w, min))
  {}

  /** It counts and decides as one worker on its own does: in the minute stored the counter goes up by one, in another
      minute it starts at 0, and the request is sampled if the counter is below the limit. */
  lemma AloneIsSequential(s: State, w: nat, min: int, limit: int)
    requires w < |s.pcs| && s.pcs[w] == Idle
    ensures var c := Sampler.Counted(Sampler.Counter(s.lastMin, s.num), min);
            var n := if min == s.lastMin then 3 else 4;
            var t := AloneFor(s, w, min, n);
            && t.pcs[w].ToRead? && t.num == c.num && t.lastMin == c.lastMin == min
            && (EffectOf(t, Event(w, min), limit) == Sampled <==> c.num < limit)
            && AloneFor(s, w, min, n + 1).pcs == s.pcs
  {
    hide AloneFor;
    AloneNext(s, w, min, 0);
    AloneNext(s, w, min, 1);
    AloneNext(s, w, min, 2);
    AloneNext(s, w, min, 3);
    AloneNext(s, w, min, 4);
    var one, two := AloneFor(s, w, min, 1), AloneFor(s, w, min, 2);
    var three, four := AloneFor(s, w, min, 3), AloneFor(s, w, min, 4);
    assert one.pcs[w] == ToCompare(min);
    if min == s.lastMin {
      assert two.pcs[w] == ToIncrement(min) && three.pcs[w] == ToRead(min);
      assert four.pcs == s.pcs;
    } else {
      assert two.pcs[w] == ToReset(min) && three.pcs[w] == ToStamp(min) && four.pcs[w] == ToRead(min);
      assert AloneFor(s, w, min, 5).pcs == s.pcs;
    }
  }
}
