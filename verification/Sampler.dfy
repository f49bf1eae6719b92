/** The per-minute sampler and the request counters of molten_ctrl.c, for one worker. */
module Sampler {

  import opened Prelude

  const SAMPLING_RATE := 1

  /** mo_sr_t: the minute last seen and the requests counted in it. */
  datatype Counter = Counter(lastMin: int, num: int)

  /** One request: the sampled header if the server passed a string, the outcome of the random draw
      of rate sampling, and the minute of the clock. */
  datatype Request = Request(header: Option<string>, hit: bool, min: int)

  // ----- One request -----

  function Counted(c: Counter, min: int): Counter {
    if min == c.lastMin then Counter(c.lastMin, c.num + 1) else Counter(min, 0)
  }

  function StartsWithOne(s: string): bool {
    s != "" && s[0] == '1'
  }

  class Control {
    var samplingType: int
    var samplingRequest: int
    var lastMin: int
    var requestNum: int
    var requestAll: nat
    var requestCapture: nat

    ghost function State(): Counter
      reads this
    {
      Counter(lastMin, requestNum)
    }

    constructor (min: int, samplingType: int, samplingRequest: int)
      ensures State() == Counter(min, 0) && requestAll == 0 && requestCapture == 0
      ensures this.samplingType == samplingType && this.samplingRequest == samplingRequest
    {
      this.samplingType := samplingType;
      this.samplingRequest := samplingRequest;
      lastMin, requestNum := min, 0;
      requestAll, requestCapture := 0, 0;
    }

    method Sampling(r: Request) returns (sampled: bool)
      modifies `lastMin, `requestNum
      ensures State() == Advance(old(State()), r, samplingType)
      ensures sampled == Decision(old(State()), r, samplingType, samplingRequest)
      ensures r.header.Some? ==> (sampled <==> "1" <= r.header.value) && State() == old(State())
      ensures r.header.None? && samplingType == 1 ==> sampled == r.hit && State() == old(State())
      ensures r.header.None? && samplingType != 1 ==>
                && lastMin == r.min && requestNum == (if r.min == old(lastMin) then old(requestNum) + 1 else 0)
                && (sampled <==> requestNum < samplingRequest)
    {
      sampled := false;
      if r.header.Some? {
        sampled := StartsWithOne(r.header.value);
      } else if samplingType == SAMPLING_RATE {
        sampled := r.hit;
      } else {
        if r.min == lastMin {
          requestNum := requestNum + 1;
        } else {
          requestNum := 0;
          lastMin := r.min;
        }
        sampled := requestNum < samplingRequest;
      }
    }

    method Record(sampled: bool)
      modifies `requestAll, `requestCapture
      ensures requestAll == old(requestAll) + 1
      ensures requestCapture == old(requestCapture) + if sampled then 1 else 0
    {
      requestAll := requestAll + 1;
      if sampled { requestCapture := requestCapture + 1; }
    }

    /** A whole request: the decision at its start and the record at its end. */
    method Serve(r: Request) returns (sampled: bool)
      modifies `lastMin, `requestNum, `requestAll, `requestCapture
      ensures sampled == Decision(old(State()), r, samplingType, samplingRequest)
      ensures Totals(State(), requestAll, requestCapture)
           == Next(old(Totals(State(), requestAll, requestCapture)), r, samplingType, samplingRequest)
    {
      sampled := Sampling(r);
      Record(sampled);
    }

    /** Any number of requests, one after the other, follow the run of the specification. */
    method ServeAll(reqs: seq<Request>) returns (decisions: seq<bool>)
      modifies `lastMin, `requestNum, `requestAll, `requestCapture
      ensures Totals(State(), requestAll, requestCapture)
           == Run(old(Totals(State(), requestAll, requestCapture)), reqs, |reqs|, samplingType, samplingRequest)
      ensures |decisions| == |reqs|
      ensures forall k :: 0 <= k < |reqs| ==>
                decisions[k] == SampledAt(old(Totals(State(), requestAll, requestCapture)), reqs, k,
                                          samplingType, samplingRequest)
      ensures forall k :: 0 <= k < |reqs| && reqs[k].header.Some? ==> (decisions[k] <==> "1" <= reqs[k].header.value)
      ensures samplingType == 1 ==> forall k :: 0 <= k < |reqs| && reqs[k].header.None? ==> decisions[k] == reqs[k].hit
      ensures samplingType == 1 || (forall k :: 0 <= k < |reqs| ==> reqs[k].header.Some?) ==> State() == old(State())
    {
      ghost var t := Totals(State(), requestAll, requestCapture);
      decisions := [];
      for i := 0 to |reqs|
        invariant |decisions| == i
        invariant samplingType == old(samplingType) && samplingRequest == old(samplingRequest)
        invariant Totals(State(), requestAll, requestCapture) == Run(t, reqs, i, samplingType, samplingRequest)
        invariant forall k :: 0 <= k < i ==>
                    decisions[k] == SampledAt(t, reqs, k, samplingType, samplingRequest)
      {
        var sampled := Serve(reqs[i]);
        decisions := decisions + [sampled];
      }
      Undecided(t, reqs, samplingType, samplingRequest);
    }
  }

  predicate Uncounted(r: Request, kind: int) {
    r.header.Some? || kind == SAMPLING_RATE
  }

  function Advance(c: Counter, r: Request, kind: int): Counter {
    if Uncounted(r, kind) then c else Counted(c, r.min)
  }

  predicate Decision(c: Counter, r: Request, kind: int, limit: int) {
    match r.header
    case Some(s) => StartsWithOne(s)
    case None => if kind == SAMPLING_RATE then r.hit else Counted(c, r.min).num < limit
  }

  // ----- Whole runs -----

  datatype Totals = Totals(counter: Counter, all: nat, capture: nat)

  function Next(t: Totals, r: Request, kind: int, limit: int): Totals {
    Totals(Advance(t.counter, r, kind), t.all + 1,
           t.capture + if Decision(t.counter, r, kind, limit) then 1 else 0)
  }

  function Run(t: Totals, reqs: seq<Request>, n: nat, kind: int, limit: int): Totals
    requires n <= |reqs|
  {
    if n == 0 then t else Next(Run(t, reqs, n - 1, kind, limit), reqs[n - 1], kind, limit)
  }

  predicate SampledAt(t: Totals, reqs: seq<Request>, k: nat, kind: int, limit: int)
    requires k < |reqs|
  {
    Decision(Run(t, reqs, k, kind, limit).counter, reqs[k], kind, limit)
  }

  lemma PrefixOne(s: string)
    ensures StartsWithOne(s) <==> "1" <= s
  {}

  /** A header decides alone, and neither it nor a random draw moves the counter. */
  lemma Undecided(t: Totals, reqs: seq<Request>, kind: int, limit: int)
    ensures forall k :: 0 <= k < |reqs| && reqs[k].header.Some? ==>
              (SampledAt(t, reqs, k, kind, limit) <==> "1" <= reqs[k].header.value)
    ensures kind == 1 ==> forall k :: 0 <= k < |reqs| && reqs[k].header.None? ==>
              SampledAt(t, reqs, k, kind, limit) == reqs[k].hit
    ensures kind == 1 || (forall k :: 0 <= k < |reqs| ==> reqs[k].header.Some?) ==>
              Run(t, reqs, |reqs|, kind, limit).counter == t.counter
  {
    hide Run;
    forall k | 0 <= k < |reqs| && reqs[k].header.Some?
      ensures StartsWithOne(reqs[k].header.value) <==> "1" <= reqs[k].header.value
    {
      PrefixOne(reqs[k].header.value);
    }
    if kind == 1 || (forall k :: 0 <= k < |reqs| ==> reqs[k].header.Some?) {
      CounterStays(t, reqs, |reqs|, kind, limit);
    }
  }

  lemma {:induction false} CounterStays(t: Totals, reqs: seq<Request>, n: nat, kind: int, limit: int)
    requires n <= |reqs| && (kind == 1 || forall k :: 0 <= k < n ==> reqs[k].header.Some?)
    ensures Run(t, reqs, n, kind, limit).counter == t.counter
  {
    hide Decision;
    if n > 0 { CounterStays(t, reqs, n - 1, kind, limit); }
  }

  function SampledCount(t: Totals, reqs: seq<Request>, n: nat, kind: int, limit: int): nat
    requires n <= |reqs|
  {
    if n == 0 then 0
    else SampledCount(t, reqs, n - 1, kind, limit) + if SampledAt(t, reqs, n - 1, kind, limit) then 1 else 0
  }

  /** Over any run the capture counter is the number of sampled requests, and never exceeds the total. */
  lemma {:induction false} CaptureCounts(t: Totals, reqs: seq<Request>, n: nat, kind: int, limit: int)
    requires n <= |reqs|
    ensures var u := Run(t, reqs, n, kind, limit);
            && u.capture == t.capture + SampledCount(t, reqs, n, kind, limit)
            && u.all == t.all + n
            && u.capture - t.capture <= u.all - t.all
  {
    if n > 0 { CaptureCounts(t, reqs, n - 1, kind, limit); }
  }

  // ----- The quota of a minute -----

  /** How many of the requests numbered a..k are counted, that is, carry no header. */
  function Plain(reqs: seq<Request>, a: nat, k: nat): nat
    requires a <= k <= |reqs|
  {
    if k == a then 0 else Plain(reqs, a, k - 1) + if reqs[k - 1].header.None? then 1 else 0
  }

  ghost predicate OneMinute(reqs: seq<Request>, a: nat, b: nat, min: int) {
    a <= b <= |reqs| && forall j :: a <= j < b ==> reqs[j].min == min
  }

  /** The counter in a minute that starts at request a. */
  lemma {:induction false} CounterInMinute(t: Totals, reqs: seq<Request>, a: nat, k: nat, min: int, kind: int,
                                           limit: int)
    requires OneMinute(reqs, a, k, min) && kind != SAMPLING_RATE
    ensures var before, now := Run(t, reqs, a, kind, limit).counter, Run(t, reqs, k, kind, limit).counter;
            var p := Plain(reqs, a, k);
            now == if p == 0 then before
                   else Counter(min, if before.lastMin == min then before.num + p else p - 1)
  {
    hide Decision;
    if k > a { CounterInMinute(t, reqs, a, k - 1, min, kind, limit); }
  }

  /** In a new minute a header-less request is sampled iff fewer than limit came before it in that minute;
      in the minute of the constructor the quota is one less. */
  lemma MinuteQuota(t: Totals, reqs: seq<Request>, a: nat, k: nat, min: int, kind: int, limit: int)
    requires a <= k && OneMinute(reqs, a, k + 1, min) && kind != SAMPLING_RATE && reqs[k].header.None?
    ensures var before := Run(t, reqs, a, kind, limit).counter;
            SampledAt(t, reqs, k, kind, limit) <==>
              Plain(reqs, a, k) < limit - (if before.lastMin == min then before.num + 1 else 0)
  {
    hide Run;
    CounterInMinute(t, reqs, a, k, min, kind, limit);
  }

  /** The sampled header-less requests among those numbered a..b. */
  function PlainSampled(t: Totals, reqs: seq<Request>, a: nat, b: nat, kind: int, limit: int): nat
    requires a <= b <= |reqs|
  {
    if b == a then 0
    else PlainSampled(t, reqs, a, b - 1, kind, limit)
         + if reqs[b - 1].header.None? && SampledAt(t, reqs, b - 1, kind, limit) then 1 else 0
  }

  function Min(x: int, y: int): int { if x < y then x else y }
  function Max(x: int, y: int): int { if x < y then y else x }

  /** A run of n header-less requests in a new minute samples min(n, max(limit, 0)) of them; while the
      counter still stands where the constructor put it, the same minute samples min(n, max(limit - 1, 0)). */
  lemma {:induction false} MinuteTotal(t: Totals, reqs: seq<Request>, a: nat, b: nat, min: int, kind: int, limit: int)
    requires OneMinute(reqs, a, b, min) && kind != SAMPLING_RATE
    ensures var before := Run(t, reqs, a, kind, limit).counter;
            var quota := limit - (if before.lastMin == min then before.num + 1 else 0);
            PlainSampled(t, reqs, a, b, kind, limit) == Min(Plain(reqs, a, b), Max(quota, 0))
  {
    hide Run, SampledAt;
    if a < b {
      MinuteTotal(t, reqs, a, b - 1, min, kind, limit);
      if reqs[b - 1].header.None? { MinuteQuota(t, reqs, a, b - 1, min, kind, limit); }
    }
  }
}
