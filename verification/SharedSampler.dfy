/** The same sampler when several workers interleave on the shared counter. */
module SharedSampler {

  /** Where a worker stands inside mo_ctrl_sampling, with the minute its request has read. */
  datatype Pc =
    | Idle
    | ToCompare(min: int)    // about to compare that minute with last_min
    | ToIncrement(min: int)  // they were equal
    | ToReset(min: int)      // they were not
    | ToStamp(min: int)      // request_num is 0, last_min not yet stored
    | ToRead(min: int)       // about to compare request_num with the limit

  /** clock is the latest minute any worker has read. */
  datatype State = State(num: nat, lastMin: int, clock: int, pcs: seq<Pc>)

  /** Worker w takes its next step; min is what it reads from the clock if it starts a request. */
  datatype Event = Event(w: nat, min: int)

  datatype Effect = Quiet | Reset | Sampled | Unsampled

  function Fire(s: State, e: Event): State
    requires e.w < |s.pcs|
  {
    match s.pcs[e.w]
    case Idle => s.(clock := e.min, pcs := s.pcs[e.w := ToCompare(e.min)])
    case ToCompare(min) => s.(pcs := s.pcs[e.w := if min == s.lastMin then ToIncrement(min) else ToReset(min)])
    case ToIncrement(min) => s.(num := s.num + 1, pcs := s.pcs[e.w := ToRead(min)])
    case ToReset(min) => s.(num := 0, pcs := s.pcs[e.w := ToStamp(min)])
    case ToStamp(min) => s.(lastMin := min, pcs := s.pcs[e.w := ToRead(min)])
    case ToRead(_) => s.(pcs := s.pcs[e.w := Idle])
  }

  function EffectOf(s: State, e: Event, limit: int): Effect
    requires e.w < |s.pcs|
  {
    match s.pcs[e.w]
    case ToReset(_) => Reset
    case ToRead(_) => if s.num < limit then Sampled else Unsampled
    case _ => Quiet
  }

  /** The request of the event started in minute m. */
  predicate IsOf(pc: Pc, m: int) {
    !pc.Idle? && pc.min == m
  }

  // ----- Runs -----

  /** All events belong to one of p workers. */
  predicate Scheduled(evs: seq<Event>, p: nat) {
    forall k :: 0 <= k < |evs| ==> evs[k].w < p
  }

  function Run(s: State, evs: seq<Event>, n: nat): (t: State)
    requires n <= |evs| && Scheduled(evs, |s.pcs|)
    ensures |t.pcs| == |s.pcs|
  {
    if n == 0 then s else Fire(Run(s, evs, n - 1), evs[n - 1])
  }

  /** How many of the first n events are resets. */
  function ResetsIn(s: State, evs: seq<Event>, n: nat, limit: int): nat
    requires n <= |evs| && Scheduled(evs, |s.pcs|)
  {
    if n == 0 then 0
    else ResetsIn(s, evs, n - 1, limit)
         + if EffectOf(Run(s, evs, n - 1), evs[n - 1], limit) == Reset then 1 else 0
  }

  /** How many of those happen while the clock shows minute m. */
  function ResetsDuring(s: State, evs: seq<Event>, n: nat, limit: int, m: int): nat
    requires n <= |evs| && Scheduled(evs, |s.pcs|)
  {
    if n == 0 then 0
    else ResetsDuring(s, evs, n - 1, limit, m)
         + if ResetsAt(Run(s, evs, n - 1), evs[n - 1], limit, m) then 1 else 0
  }

  predicate ResetsAt(s: State, e: Event, limit: int, m: int)
    requires e.w < |s.pcs|
  {
    EffectOf(s, e, limit) == Reset && s.clock == m
  }

  /** How many of the first n events decide "sampled". */
  function SampledIn(s: State, evs: seq<Event>, n: nat, limit: int): nat
    requires n <= |evs| && Scheduled(evs, |s.pcs|)
  {
    if n == 0 then 0
    else SampledIn(s, evs, n - 1, limit)
         + if EffectOf(Run(s, evs, n - 1), evs[n - 1], limit) == Sampled then 1 else 0
  }

  /** How many of those decide about a request that started in minute m. */
  function SampledOf(s: State, evs: seq<Event>, n: nat, limit: int, m: int): nat
    requires n <= |evs| && Scheduled(evs, |s.pcs|)
  {
    if n == 0 then 0
    else SampledOf(s, evs, n - 1, limit, m)
         + if DecidesFor(Run(s, evs, n - 1), evs[n - 1], limit, m) then 1 else 0
  }

  predicate DecidesFor(s: State, e: Event, limit: int, m: int)
    requires e.w < |s.pcs|
  {
    EffectOf(s, e, limit) == Sampled && IsOf(s.pcs[e.w], m)
  }

  /** The clock never goes back. */
  ghost predicate Forward(s: State, evs: seq<Event>, n: nat)
    requires n <= |evs| && Scheduled(evs, |s.pcs|)
  {
    n == 0 || (Forward(s, evs, n - 1) && InTime(Run(s, evs, n - 1), evs[n - 1]))
  }

  predicate InTime(s: State, e: Event)
    requires e.w < |s.pcs|
  {
    s.pcs[e.w].Idle? ==> s.clock <= e.min
  }

  // ----- Counting flags -----

  function Tally(f: seq<bool>, n: nat): nat
    requires n <= |f|
  {
    if n == 0 then 0 else Tally(f, n - 1) + if f[n - 1] then 1 else 0
  }

  lemma {:induction false} TallyBound(f: seq<bool>, n: nat)
    requires n <= |f|
    ensures Tally(f, n) <= n
  {
    if n > 0 { TallyBound(f, n - 1); }
  }

  lemma {:induction false} TallyUpdate(f: seq<bool>, i: nat, b: bool, n: nat)
    requires i < |f| && n <= |f|
    ensures Tally(f[i := b], n)
         == Tally(f, n) + if i < n && b && !f[i] then 1 else if i < n && !b && f[i] then -1 else 0
  {
    if n > 0 { TallyUpdate(f, i, b, n - 1); }
  }

  lemma {:induction false} TallyPrefix(f: seq<bool>, g: seq<bool>, n: nat)
    requires n <= |f|
    ensures Tally(f + g, n) == Tally(f, n)
  {
    if n > 0 { TallyPrefix(f, g, n - 1); }
  }

  function NoFlags(n: nat): (f: seq<bool>)
    ensures |f| == n
  {
    if n == 0 then [] else NoFlags(n - 1) + [false]
  }

  lemma {:induction false} NoFlagsAt(n: nat, i: nat)
    requires i < n
    ensures !NoFlags(n)[i]
  {
    if i < n - 1 { NoFlagsAt(n - 1, i); }
  }

  lemma {:induction false} NoFlagsTally(n: nat)
    ensures Tally(NoFlags(n), n) == 0
  {
    if n > 0 {
      NoFlagsTally(n - 1);
      TallyPrefix(NoFlags(n - 1), [false], n - 1);
    }
  }

  // ----- Bookkeeping inside a window without resets -----

  predicate Pending(pc: Pc) {
    pc.ToRead? || pc.ToStamp?
  }

  function Pendings(pcs: seq<Pc>, n: nat): (f: seq<bool>)
    requires n <= |pcs|
    ensures |f| == n
  {
    if n == 0 then [] else Pendings(pcs, n - 1) + [Pending(pcs[n - 1])]
  }

  lemma {:induction false} PendingsAt(pcs: seq<Pc>, n: nat, i: nat)
    requires i < n <= |pcs|
    ensures Pendings(pcs, n)[i] == Pending(pcs[i])
  {
    if i < n - 1 { PendingsAt(pcs, n - 1, i); }
  }

  /** How many decisions are due in state s. */
  function Due(s: State): nat {
    Tally(Pendings(s.pcs, |s.pcs|), |s.pcs|)
  }

  /** stale: workers whose decision was already due when the window began; recent: workers that have
      incremented in the window and not read yet; taken: decisions taken by the latter so far; sampled: all
      requests sampled so far, earlier windows included. */
  datatype Book = Book(stale: seq<bool>, recent: seq<bool>, taken: nat, sampled: nat)

  /** What one worker's flags say about where it stands. */
  ghost predicate Flagged(pc: Pc, stale: bool, recent: bool) {
    && (stale ==> Pending(pc)) && (recent ==> pc.ToRead?)
    && (Pending(pc) ==> stale != recent)
  }

  /** What the quota leaves for requests that increment. */
  function Quota(limit: int): nat {
    if limit >= 1 then limit - 1 else 0
  }

  ghost predicate Inv(b: Book, s: State, due: nat, limit: int) {
    && |b.stale| == |b.recent| == |s.pcs|
    && (forall i :: 0 <= i < |s.pcs| ==> Flagged(s.pcs[i], b.stale[i], b.recent[i]))
    && b.taken + Tally(b.recent, |b.recent|) <= s.num
    && (b.sampled == 0 || limit >= 1)
    && b.sampled + Tally(b.stale, |b.stale|) <= due + if b.taken < limit then b.taken else Quota(limit)
  }

  /** A new window: every decision due is stale. */
  function Opened(s: State, sampled: nat): Book {
    Book(Pendings(s.pcs, |s.pcs|), NoFlags(|s.pcs|), 0, sampled)
  }

  lemma OpenedInv(s: State, sampled: nat, limit: int)
    requires sampled == 0 || limit >= 1
    ensures Inv(Opened(s, sampled), s, sampled + Due(s), limit)
  {
    var n := |s.pcs|;
    NoFlagsTally(n);
    forall i | 0 <= i < n ensures Flagged(s.pcs[i], Pendings(s.pcs, n)[i], NoFlags(n)[i]) {
      PendingsAt(s.pcs, n, i);
      NoFlagsAt(n, i);
    }
  }

  /** One step that is no reset. */
  function Written(b: Book, s: State, e: Event, limit: int): Book
    requires e.w < |s.pcs| == |b.stale| == |b.recent|
  {
    match s.pcs[e.w]
    case ToIncrement(_) => b.(recent := b.recent[e.w := true])
    case ToRead(_) =>
      Book(b.stale[e.w := false], b.recent[e.w := false],
           b.taken + (if b.recent[e.w] then 1 else 0), b.sampled + (if s.num < limit then 1 else 0))
    case _ => b
  }

  lemma StepInv(b: Book, s: State, e: Event, due: nat, limit: int)
    requires e.w < |s.pcs| && Inv(b, s, due, limit) && EffectOf(s, e, limit) != Reset
    ensures Inv(Written(b, s, e, limit), Fire(s, e), due, limit)
    ensures Written(b, s, e, limit).sampled == b.sampled + if EffectOf(s, e, limit) == Sampled then 1 else 0
  {
    var n := |s.pcs|;
    assert Flagged(s.pcs[e.w], b.stale[e.w], b.recent[e.w]);
    TallyUpdate(b.recent, e.w, true, n);
    TallyUpdate(b.recent, e.w, false, n);
    TallyUpdate(b.stale, e.w, false, n);
  }

  lemma BookShape(b: Book, s: State, due: nat, limit: int)
    requires Inv(b, s, due, limit)
    ensures |b.stale| == |b.recent| == |s.pcs|
    ensures b.sampled == 0 || limit >= 1
    ensures b.sampled <= due + Quota(limit)
  {}

  lemma DueBound(s: State)
    ensures Due(s) <= |s.pcs|
  {
    TallyBound(Pendings(s.pcs, |s.pcs|), |s.pcs|);
  }

  // ----- Windows -----

  lemma {:induction false} RunInv(s: State, evs: seq<Event>, n: nat, limit: int) returns (b: Book, due: nat)
    requires n <= |evs| && Scheduled(evs, |s.pcs|)
    ensures Inv(b, Run(s, evs, n), due, limit) && b.sampled == SampledIn(s, evs, n, limit)
    ensures due <= Due(s) + ResetsIn(s, evs, n, limit) * (|s.pcs| + Quota(limit))
  {
    hide Inv, Fire, EffectOf, Due, Opened;
    if n == 0 {
      b, due := Opened(s, 0), Due(s);
      OpenedInv(s, 0, limit);
      OpenedNothing(s, 0);
    } else {
      var b', due' := RunInv(s, evs, n - 1, limit);
      var t, e, r := Run(s, evs, n - 1), evs[n - 1], ResetsIn(s, evs, n - 1, limit);
      BookShape(b', t, due', limit);
      if EffectOf(t, e, limit) == Reset {
        var u := Fire(t, e);
        b, due := Opened(u, b'.sampled), b'.sampled + Due(u);
        OpenedInv(u, b'.sampled, limit);
        OpenedNothing(u, b'.sampled);
        DueBound(u);
        Distribute(r, |s.pcs| + Quota(limit));
      } else {
        b, due := Written(b', t, e, limit), due';
        StepInv(b', t, e, due', limit);
      }
    }
  }

  lemma OpenedNothing(s: State, sampled: nat)
    ensures Opened(s, sampled).sampled == sampled
  {}

  lemma Distribute(r: nat, x: nat)
    ensures (r + 1) * x == r * x + x
  {}

  /** However the steps interleave, a run with r resets samples at most the decisions already due, limit - 1,
      and limit + P - 1 more for each reset; nothing at all when the limit is not positive. */
  lemma RunBound(s: State, evs: seq<Event>, limit: int)
    requires Scheduled(evs, |s.pcs|)
    ensures limit <= 0 ==> SampledIn(s, evs, |evs|, limit) == 0
    ensures SampledIn(s, evs, |evs|, limit)
         <= Due(s) + Quota(limit) + ResetsIn(s, evs, |evs|, limit) * (|s.pcs| + Quota(limit))
  {
    hide Inv, Run, SampledIn, Due, ResetsIn;
    var b, due := RunInv(s, evs, |evs|, limit);
    BookShape(b, Run(s, evs, |evs|), due, limit);
  }

  /** Between two consecutive resets at most limit + P - 1 requests are sampled by P workers,
      whatever they were doing before the first of the two. */
  lemma BoundedOversampling(s: State, zeroing: Event, evs: seq<Event>, limit: int)
    requires zeroing.w < |s.pcs| && s.pcs[zeroing.w].ToReset?
    requires Scheduled(evs, |s.pcs|)
    requires ResetsIn(Fire(s, zeroing), evs, |evs|, limit) == 0
    ensures var sampled := SampledIn(Fire(s, zeroing), evs, |evs|, limit);
            (limit <= 0 ==> sampled == 0) && (limit >= 1 ==> sampled <= limit + |s.pcs| - 1)
  {
    hide SampledIn, ResetsIn, Due;
    RunBound(Fire(s, zeroing), evs, limit);
    DueBound(Fire(s, zeroing));
  }

  function AllIdle(p: nat): (pcs: seq<Pc>)
    ensures |pcs| == p
  {
    if p == 0 then [] else AllIdle(p - 1) + [Idle]
  }

  lemma {:induction false} AllIdleAt(p: nat, i: nat)
    requires i < p
    ensures AllIdle(p)[i] == Idle
  {
    if i < p - 1 { AllIdleAt(p - 1, i); }
  }

  lemma {:induction false} IdleTally(p: nat, n: nat)
    requires n <= p
    ensures Tally(Pendings(AllIdle(p), n), n) == 0
  {
    if n > 0 {
      IdleTally(p, n - 1);
      AllIdleAt(p, n - 1);
      TallyPrefix(Pendings(AllIdle(p), n - 1), [false], n - 1);
    }
  }

  /** What the constructor sets up for p workers in minute min. */
  function Initial(p: nat, min: int): State {
    State(0, min, min, AllIdle(p))
  }

  lemma InitialDue(p: nat, min: int)
    ensures Due(Initial(p, min)) == 0
  {
    IdleTally(p, p);
  }

  /** Before the first reset the quota is limit - 1, as for a single worker. */
  lemma BoundedBeforeReset(min: int, p: nat, evs: seq<Event>, limit: int)
    requires Scheduled(evs, p)
    requires ResetsIn(Initial(p, min), evs, |evs|, limit) == 0
    ensures SampledIn(Initial(p, min), evs, |evs|, limit) <= Quota(limit)
  {
    hide SampledIn, ResetsIn, Due;
    RunBound(Initial(p, min), evs, limit);
    InitialDue(p, min);
  }
}
