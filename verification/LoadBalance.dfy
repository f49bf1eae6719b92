/** The smooth weighted round-robin balancer of common/load_balance.c. */
module LoadBalance {

  import opened Prelude

  const DEFAULT_WEIGHT := 50

  const SERVER_NAME_LEN := 32

  /** One entry of the server table, with the whole of its name field; the C table is an array of structs. */
  datatype Server = Server(weight: int, curWeight: int, name: string)

  // ----- What one call computes, on the credits and weights alone -----

  /** The sum of the first n elements. */
  function SumTo(s: seq<int>, n: nat): int
    requires n <= |s|
  {
    if n == 0 then 0 else SumTo(s, n - 1) + s[n - 1]
  }

  function Sum(s: seq<int>): int {
    SumTo(s, |s|)
  }

  /** The first n credits, each raised by its weight. */
  function RaiseTo(credits: seq<int>, weights: seq<int>, n: nat): (r: seq<int>)
    requires n <= |credits| == |weights|
    ensures |r| == n
  {
    if n == 0 then [] else RaiseTo(credits, weights, n - 1) + [credits[n - 1] + weights[n - 1]]
  }

  function Raise(credits: seq<int>, weights: seq<int>): (r: seq<int>)
    requires |credits| == |weights|
    ensures |r| == |credits|
  {
    RaiseTo(credits, weights, |credits|)
  }

  /** The lowest index holding the largest of the first n elements. */
  function FirstMax(s: seq<int>, n: nat): (m: nat)
    requires 0 < n <= |s|
    ensures m < n
  {
    if n == 1 then 0
    else
      var m := FirstMax(s, n - 1);
      if s[m] < s[n - 1] then n - 1 else m
  }

  function Pick(credits: seq<int>, weights: seq<int>): (i: nat)
    requires |credits| == |weights| > 0
    ensures i < |weights|
  {
    FirstMax(Raise(credits, weights), |weights|)
  }

  function Next(credits: seq<int>, weights: seq<int>): (r: seq<int>)
    requires |credits| == |weights| > 0
    ensures |r| == |weights|
  {
    var raised := Raise(credits, weights);
    var i := Pick(credits, weights);
    raised[i := raised[i] - Sum(weights)]
  }

  lemma {:induction false} RaisedAt(credits: seq<int>, weights: seq<int>, n: nat, i: nat)
    requires i < n <= |credits| == |weights|
    ensures RaiseTo(credits, weights, n)[i] == credits[i] + weights[i]
  {
    if i < n - 1 { RaisedAt(credits, weights, n - 1, i); }
  }

  /** The chosen index beats every earlier element strictly and every later one at least. */
  lemma {:induction false} FirstMaxWins(s: seq<int>, n: nat, i: nat)
    requires i < n <= |s|
    ensures s[i] <= s[FirstMax(s, n)]
    ensures i < FirstMax(s, n) ==> s[i] < s[FirstMax(s, n)]
  {
    if i < n - 1 {
      FirstMaxWins(s, n - 1, i);
    } else if n > 1 {
      FirstMaxWins(s, n - 1, 0);
    }
  }

  // ----- The table in memory -----

  function Weights(ss: seq<Server>): (w: seq<int>)
    ensures |w| == |ss|
    ensures forall i :: 0 <= i < |ss| ==> w[i] == ss[i].weight
  {
    if ss == [] then [] else Weights(ss[..|ss| - 1]) + [ss[|ss| - 1].weight]
  }

  function Credits(ss: seq<Server>): (c: seq<int>)
    ensures |c| == |ss|
    ensures forall i :: 0 <= i < |ss| ==> c[i] == ss[i].curWeight
  {
    if ss == [] then [] else Credits(ss[..|ss| - 1]) + [ss[|ss| - 1].curWeight]
  }

  /** What calloc leaves in an entry. */
  const SPARE := Server(0, 0, Repeat('\0', SERVER_NAME_LEN))

  /** The names point at memory of at least SERVER_NAME_LEN characters, all of which are copied. */
  method InitServers(names: seq<string>, weights: seq<int>, size: nat) returns (ss: array<Server>)
    requires |names| == |weights| == size && forall i :: 0 <= i < size ==> |names[i]| >= SERVER_NAME_LEN
    ensures fresh(ss) && ss.Length == size + 1
    ensures Weights(ss[..size]) == weights && Credits(ss[..size]) == Zeros(size)
    ensures forall i :: 0 <= i < size ==> ss[i].name == names[i][..SERVER_NAME_LEN]
    ensures ss[size] == SPARE
  {
    ss := new Server[size + 1](_ => SPARE);
    for i := 0 to size
      invariant forall j :: 0 <= j < i ==> ss[j] == Server(weights[j], 0, names[j][..SERVER_NAME_LEN])
      invariant ss[size] == SPARE
    {
      ss[i] := Server(weights[i], 0, names[i][..SERVER_NAME_LEN]);
    }
  }

  lemma DefaultTable(ss: seq<Server>)
    requires forall j :: 0 <= j < |ss| ==> ss[j].weight == DEFAULT_WEIGHT && ss[j].curWeight == 0
    ensures Weights(ss) == Repeat(DEFAULT_WEIGHT, |ss|) && Credits(ss) == Zeros(|ss|)
  {
    hide Weights, Credits;
    RepeatAll(DEFAULT_WEIGHT, |ss|);
  }

  method InitDefaultServers(names: seq<string>, size: nat) returns (ss: array<Server>)
    requires |names| == size && forall i :: 0 <= i < size ==> |names[i]| >= SERVER_NAME_LEN
    ensures fresh(ss) && ss.Length == size + 1
    ensures forall i :: 0 <= i < size ==> ss[i].weight == 50
    ensures Weights(ss[..size]) == Repeat(DEFAULT_WEIGHT, size) && Credits(ss[..size]) == Zeros(size)
    ensures forall i :: 0 <= i < size ==> ss[i].name == names[i][..SERVER_NAME_LEN]
    ensures ss[size] == SPARE
  {
    hide Weights, Credits;
    ss := new Server[size + 1](_ => SPARE);
    for i := 0 to size
      invariant forall j :: 0 <= j < i ==> ss[j] == Server(DEFAULT_WEIGHT, 0, names[j][..SERVER_NAME_LEN])
      invariant ss[size] == SPARE
    {
      ss[i] := Server(DEFAULT_WEIGHT, 0, names[i][..SERVER_NAME_LEN]);
    }
    DefaultTable(ss[..size]);
  }

  function Raised(server: Server): int {
    server.curWeight + server.weight
  }

  /** The raised credits of a table. */
  function RaisedOf(ss: seq<Server>): (r: seq<int>)
    ensures |r| == |ss| && forall i :: 0 <= i < |ss| ==> r[i] == Raised(ss[i])
  {
    forall i | 0 <= i < |ss| ensures Raise(Credits(ss), Weights(ss))[i] == Raised(ss[i]) {
      RaisedAt(Credits(ss), Weights(ss), |ss|, i);
    }
    Raise(Credits(ss), Weights(ss))
  }

  lemma LargestRaised(ss: seq<Server>)
    requires ss != []
    ensures Pick(Credits(ss), Weights(ss)) == FirstMax(RaisedOf(ss), |ss|)
    ensures SumTo(Weights(ss), |ss|) == Sum(Weights(ss))
    ensures var p := Pick(Credits(ss), Weights(ss));
            && (forall i :: 0 <= i < |ss| ==> Raised(ss[i]) <= Raised(ss[p]))
            && (forall i :: 0 <= i < p ==> Raised(ss[i]) < Raised(ss[p]))
  {
    hide RaiseTo, FirstMax, Weights, Credits;
    var c, w, n := Credits(ss), Weights(ss), |ss|;
    RaisedAt(c, w, n, Pick(c, w));
    forall i | 0 <= i < n
      ensures Raised(ss[i]) <= Raised(ss[Pick(c, w)]) && (i < Pick(c, w) ==> Raised(ss[i]) < Raised(ss[Pick(c, w)]))
    {
      RaisedAt(c, w, n, i);
      FirstMaxWins(Raise(c, w), n, i);
    }
  }

  lemma FirstMaxStep(s: seq<int>, i: nat)
    requires i < |s|
    ensures FirstMax(s, i + 1) == if i == 0 || s[FirstMax(s, i)] < s[i] then i else FirstMax(s, i)
  {}

  /** What the table holds after a call. */
  lemma NextStored(was: seq<Server>, now: seq<Server>)
    requires |was| == |now| > 0
    requires var p := Pick(Credits(was), Weights(was));
             forall j :: 0 <= j < |was| ==>
               now[j] == was[j].(curWeight := Raised(was[j]) - if j == p then Sum(Weights(was)) else 0)
    ensures Weights(now) == Weights(was) && Credits(now) == Next(Credits(was), Weights(was))
  {
    hide RaiseTo, FirstMax, Weights, Credits, SumTo;
    forall j | 0 <= j < |was| ensures Credits(now)[j] == Next(Credits(was), Weights(was))[j] {
      NextCredit(Credits(was), Weights(was), j);
    }
  }

  /** With an empty table the C function writes before the array, so a caller needs one server. */
  method GetNextServerIndex(ss: array<Server>, size: nat) returns (index: int)
    requires 0 < size <= ss.Length
    modifies ss
    ensures 0 <= index < size
    ensures forall i :: 0 <= i < size ==> old(Raised(ss[i])) <= old(Raised(ss[index]))
    ensures forall i :: 0 <= i < index ==> old(Raised(ss[i])) < old(Raised(ss[index]))
    ensures Weights(ss[..size]) == old(Weights(ss[..size]))
    ensures index == old(Pick(Credits(ss[..size]), Weights(ss[..size])))
    ensures Credits(ss[..size]) == old(Next(Credits(ss[..size]), Weights(ss[..size])))
    ensures forall i :: 0 <= i < ss.Length ==> ss[i].name == old(ss[i].name)
    ensures forall i :: size <= i < ss.Length ==> ss[i] == old(ss[i])
  {
    hide Weights, Credits, FirstMax, Next, Sum, Pick;
    ghost var was, table := ss[..], ss[..size];
    ghost var raised := RaisedOf(table);
    index := -1;
    var total := 0;
    var i := 0;
    while i < size
      invariant 0 <= i <= size
      invariant forall j :: 0 <= j < i ==> ss[j] == was[j].(curWeight := raised[j])
      invariant forall j :: i <= j < ss.Length ==> ss[j] == was[j]
      invariant total == SumTo(Weights(table), i)
      invariant if i == 0 then index == -1 else 0 <= index < i && index == FirstMax(raised, i)
    {
      FirstMaxStep(raised, i);
      ss[i] := ss[i].(curWeight := ss[i].curWeight + ss[i].weight);
      total := total + ss[i].weight;
      if index == -1 || ss[index].curWeight < ss[i].curWeight {
        index := i;
      }
      i := i + 1;
    }
    LargestRaised(table);
    ss[index] := ss[index].(curWeight := ss[index].curWeight - total);
    NextStored(table, ss[..size]);
  }

  // ----- Whole runs -----

  function Zeros(n: nat): (z: seq<int>)
    ensures |z| == n && forall i :: 0 <= i < n ==> z[i] == 0
  {
    RepeatAll(0, n);
    Repeat(0, n)
  }

  /** The credits after k calls. */
  function Run(credits: seq<int>, weights: seq<int>, k: nat): (r: seq<int>)
    requires |credits| == |weights| > 0
    ensures |r| == |weights|
  {
    if k == 0 then credits else Next(Run(credits, weights, k - 1), weights)
  }

  /** The index returned by call number k, counted from 0, starting from zero credits. */
  function Selected(weights: seq<int>, k: nat): nat
    requires weights != []
  {
    Pick(Run(Zeros(|weights|), weights, k), weights)
  }

  /** How often server i is returned by the calls numbered lo..hi. */
  function Count(weights: seq<int>, i: nat, lo: nat, hi: nat): nat
    requires weights != [] && lo <= hi
    decreases hi
  {
    if lo == hi then 0
    else Count(weights, i, lo, hi - 1) + (if Selected(weights, hi - 1) == i then 1 else 0)
  }

  ghost predicate Configured(weights: seq<int>) {
    weights != [] && (forall i :: 0 <= i < |weights| ==> 0 <= weights[i]) && 0 < Sum(weights)
  }

  // ----- Sums -----

  lemma {:induction false} SumRaise(c: seq<int>, w: seq<int>, n: nat)
    requires n <= |c| == |w|
    ensures SumTo(Raise(c, w), n) == SumTo(c, n) + SumTo(w, n)
  {
    if n > 0 {
      SumRaise(c, w, n - 1);
      RaisedAt(c, w, |c|, n - 1);
    }
  }

  lemma {:induction false} SumUpdate(s: seq<int>, i: nat, x: int, n: nat)
    requires i < |s| && n <= |s|
    ensures SumTo(s[i := x], n) == SumTo(s, n) + (if i < n then x - s[i] else 0)
  {
    if n > 0 { SumUpdate(s, i, x, n - 1); }
  }

  lemma {:induction false} SumAtMost(s: seq<int>, hi: int, n: nat)
    requires n <= |s| && forall i :: 0 <= i < |s| ==> s[i] <= hi
    ensures SumTo(s, n) <= n * hi
  {
    if n > 0 { SumAtMost(s, hi, n - 1); }
  }

  lemma {:induction false} SumAtLeast(s: seq<int>, lo: int, n: nat)
    requires n <= |s| && forall i :: 0 <= i < |s| ==> lo <= s[i]
    ensures n * lo <= SumTo(s, n)
  {
    if n > 0 { SumAtLeast(s, lo, n - 1); }
  }

  lemma SumZeros(n: nat)
    ensures Sum(Zeros(n)) == 0
  {
    SumAtMost(Zeros(n), 0, n);
    SumAtLeast(Zeros(n), 0, n);
  }

  /** A weight is at most the total. */
  lemma WeightBound(weights: seq<int>, i: nat)
    requires Configured(weights) && i < |weights|
    ensures weights[i] <= Sum(weights)
  {
    SumUpdate(weights, i, 0, |weights|);
    SumAtLeast(weights[i := 0], 0, |weights|);
  }

  // ----- Conservation, bounds and fairness -----

  lemma SumNext(c: seq<int>, w: seq<int>)
    requires |c| == |w| > 0
    ensures Sum(Next(c, w)) == Sum(c)
  {
    hide RaiseTo, FirstMax, SumTo;
    SumRaise(c, w, |w|);
    SumUpdate(Raise(c, w), Pick(c, w), Raise(c, w)[Pick(c, w)] - Sum(w), |w|);
  }

  lemma NextCredit(c: seq<int>, w: seq<int>, i: nat)
    requires |c| == |w| > i
    ensures Next(c, w)[i] == c[i] + w[i] - (if Pick(c, w) == i then Sum(w) else 0)
  {
    hide RaiseTo, FirstMax, SumTo;
    RaisedAt(c, w, |w|, i);
  }

  /** Each credit is exactly what the server was promised minus what it was given. */
  lemma {:induction false} Conservation(weights: seq<int>, k: nat, i: nat)
    requires i < |weights|
    ensures Run(Zeros(|weights|), weights, k)[i] == k * weights[i] - Sum(weights) * Count(weights, i, 0, k)
  {
    hide Next, Pick, Sum;
    if k > 0 {
      Conservation(weights, k - 1, i);
      NextCredit(Run(Zeros(|weights|), weights, k - 1), weights, i);
      var c := Count(weights, i, 0, k - 1);
      assert Sum(weights) * (c + 1) == Sum(weights) * c + Sum(weights);
      assert k * weights[i] == (k - 1) * weights[i] + weights[i];
    }
  }

  /** The credits cancel out after every call. */
  lemma {:induction false} CreditsSumToZero(weights: seq<int>, k: nat)
    requires weights != []
    ensures Sum(Run(Zeros(|weights|), weights, k)) == 0
  {
    hide Next, Sum;
    if k == 0 {
      SumZeros(|weights|);
    } else {
      CreditsSumToZero(weights, k - 1);
      SumNext(Run(Zeros(|weights|), weights, k - 1), weights);
    }
  }

  /** The chosen server has a positive raised credit. */
  lemma PickIsPositive(c: seq<int>, w: seq<int>)
    requires |c| == |w| > 0 && Sum(c) == 0 && Sum(w) > 0
    ensures c[Pick(c, w)] + w[Pick(c, w)] > 0
  {
    hide RaiseTo, FirstMax, SumTo;
    var raised, p := Raise(c, w), Pick(c, w);
    SumRaise(c, w, |w|);
    RaisedAt(c, w, |w|, p);
    if raised[p] <= 0 {
      forall i | 0 <= i < |raised| ensures raised[i] <= 0 { FirstMaxWins(raised, |w|, i); }
      SumAtMost(raised, 0, |w|);
    }
  }

  /** So paying the total never drops a credit to -total. */
  lemma {:induction false} CreditAboveMinusTotal(weights: seq<int>, k: nat, i: nat)
    requires Configured(weights) && i < |weights|
    ensures -Sum(weights) < Run(Zeros(|weights|), weights, k)[i]
  {
    hide Next, Pick, Sum;
    if k > 0 {
      var before := Run(Zeros(|weights|), weights, k - 1);
      CreditAboveMinusTotal(weights, k - 1, i);
      CreditsSumToZero(weights, k - 1);
      PickIsPositive(before, weights);
      NextCredit(before, weights, i);
    }
  }

  lemma CreditBounds(weights: seq<int>, k: nat, i: nat)
    requires Configured(weights) && i < |weights|
    ensures -Sum(weights) < Run(Zeros(|weights|), weights, k)[i]
    ensures Run(Zeros(|weights|), weights, k)[i] <= (|weights| - 1) * (Sum(weights) - 1)
    ensures |weights| > 1 ==> Run(Zeros(|weights|), weights, k)[i] < (|weights| - 1) * Sum(weights)
  {
    hide Run, SumTo;
    var c, lo, n := Run(Zeros(|weights|), weights, k), 1 - Sum(weights), |weights|;
    forall j | 0 <= j < n ensures lo <= c[j] { CreditAboveMinusTotal(weights, k, j); }
    CreditsSumToZero(weights, k);
    SumUpdate(c, i, lo, n);
    SumAtLeast(c[i := lo], lo, n);
    assert n * lo == (n - 1) * lo + lo;
    assert (n - 1) * lo == (n - 1) - (n - 1) * Sum(weights);
    assert (n - 1) * (Sum(weights) - 1) == -((n - 1) * lo);
  }

  /** In any prefix no server is a full selection ahead of its share, nor size-1 selections behind. */
  lemma PrefixFairness(weights: seq<int>, k: nat, i: nat)
    requires Configured(weights) && i < |weights|
    ensures Sum(weights) * Count(weights, i, 0, k) < k * weights[i] + Sum(weights)
    ensures k * weights[i] - (|weights| - 1) * Sum(weights) <= Sum(weights) * Count(weights, i, 0, k)
    ensures weights[i] == 0 ==> Count(weights, i, 0, k) == 0
  {
    hide Run, Sum, Count;
    CreditBounds(weights, k, i);
    Conservation(weights, k, i);
    var total, c := Sum(weights), Count(weights, i, 0, k);
    assert (|weights| - 1) * (total - 1) <= (|weights| - 1) * total;
    assert c > 0 ==> total * c >= total;
  }

  /** Every value the C code stores in an int stays in range when size * total does. */
  lemma NoOverflow(weights: seq<int>, k: nat, i: nat)
    requires Configured(weights) && i < |weights|
    requires |weights| * Sum(weights) <= INT_MAX
    ensures var credits := Run(Zeros(|weights|), weights, k);
            -INT_MAX <= credits[i] <= INT_MAX && -INT_MAX <= Raise(credits, weights)[i] <= INT_MAX
  {
    hide Run, Sum, RaiseTo;
    CreditBounds(weights, k, i);
    WeightBound(weights, i);
    var n, total := |weights|, Sum(weights);
    RaisedAt(Run(Zeros(n), weights, k), weights, n, i);
    assert n * total == (n - 1) * total + total;
    assert (n - 1) * (total - 1) <= (n - 1) * total;
    assert (n - 1) * total >= 0;
  }

  // ----- The rule behind the selections -----

  /** What call number k owes server i: its share of the k + 1 calls so far less what it was given before. */
  function Owed(weights: seq<int>, k: nat, i: nat): int
    requires i < |weights|
  {
    (k + 1) * weights[i] - Sum(weights) * Count(weights, i, 0, k)
  }

  lemma RaisedIsOwed(weights: seq<int>, k: nat, i: nat)
    requires i < |weights|
    ensures Raise(Run(Zeros(|weights|), weights, k), weights)[i] == Owed(weights, k, i)
  {
    hide Run, RaiseTo, Sum, Count;
    RaisedAt(Run(Zeros(|weights|), weights, k), weights, |weights|, i);
    Conservation(weights, k, i);
    assert (k + 1) * weights[i] == k * weights[i] + weights[i];
  }

  /** Every call returns the server that is owed most, the first of them if there are several. */
  lemma SelectedIsOwedMost(weights: seq<int>, k: nat, i: nat)
    requires i < |weights|
    ensures Selected(weights, k) < |weights|
    ensures Owed(weights, k, i) <= Owed(weights, k, Selected(weights, k))
    ensures i < Selected(weights, k) ==> Owed(weights, k, i) < Owed(weights, k, Selected(weights, k))
  {
    hide Run, Raise, FirstMax, Owed;
    RaisedIsOwed(weights, k, i);
    RaisedIsOwed(weights, k, Selected(weights, k));
    FirstMaxWins(Raise(Run(Zeros(|weights|), weights, k), weights), |weights|, i);
  }

  /** How often server i occurs among the first k of the choices. */
  function Chosen(choices: seq<nat>, i: nat, k: nat): nat
    requires k <= |choices|
  {
    if k == 0 then 0 else Chosen(choices, i, k - 1) + if choices[k - 1] == i then 1 else 0
  }

  /** What choice number k owes server i, told from the choices alone. */
  function Due(weights: seq<int>, choices: seq<nat>, k: nat, i: nat): int
    requires i < |weights| && k <= |choices|
  {
    (k + 1) * weights[i] - Sum(weights) * Chosen(choices, i, k)
  }

  /** Choice number k is the first server that is owed most. */
  ghost predicate OwedFirst(weights: seq<int>, choices: seq<nat>, k: nat)
    requires k < |choices|
  {
    var c := choices[k];
    && c < |weights|
    && forall i :: 0 <= i < |weights| ==>
         && Due(weights, choices, k, i) <= Due(weights, choices, k, c)
         && (i < c ==> Due(weights, choices, k, i) < Due(weights, choices, k, c))
  }

  lemma {:induction false} ChosenIsCount(weights: seq<int>, choices: seq<nat>, i: nat, k: nat)
    requires weights != [] && k <= |choices| && forall j :: 0 <= j < k ==> choices[j] == Selected(weights, j)
    ensures Chosen(choices, i, k) == Count(weights, i, 0, k)
  {
    hide Selected;
    if k > 0 { ChosenIsCount(weights, choices, i, k - 1); }
  }

  /** The rule determines the selections: no other sequence of choices follows it. */
  lemma {:induction false} OnlySelection(weights: seq<int>, choices: seq<nat>, n: nat)
    requires weights != [] && n <= |choices|
    ensures (forall k :: 0 <= k < n ==> OwedFirst(weights, choices, k))
       <==> (forall k :: 0 <= k < n ==> choices[k] == Selected(weights, k))
  {
    hide Selected, Due, Owed, OwedFirst;
    if n > 0 {
      OnlySelection(weights, choices, n - 1);
      if forall k :: 0 <= k < n - 1 ==> choices[k] == Selected(weights, k) {
        NextSelection(weights, choices, n - 1);
      }
    }
  }

  lemma NextSelection(weights: seq<int>, choices: seq<nat>, k: nat)
    requires weights != [] && k < |choices| && forall j :: 0 <= j < k ==> choices[j] == Selected(weights, j)
    ensures OwedFirst(weights, choices, k) <==> choices[k] == Selected(weights, k)
  {
    hide Selected, Sum, Count, Chosen;
    var s := Selected(weights, k);
    SelectedIsOwedMost(weights, k, 0);
    forall i | 0 <= i < |weights|
      ensures Due(weights, choices, k, i) == Owed(weights, k, i) <= Owed(weights, k, s)
      ensures i < s ==> Owed(weights, k, i) < Owed(weights, k, s)
    {
      ChosenIsCount(weights, choices, i, k);
      SelectedIsOwedMost(weights, k, i);
    }
  }

  // ----- Exact shares and periodicity -----

  lemma {:induction false} RunSplit(credits: seq<int>, weights: seq<int>, a: nat, b: nat)
    requires |credits| == |weights| > 0
    ensures Run(credits, weights, a + b) == Run(Run(credits, weights, a), weights, b)
  {
    hide Next;
    if b > 0 { RunSplit(credits, weights, a, b - 1); }
  }

  lemma {:induction false} CountSplit(weights: seq<int>, i: nat, a: nat, b: nat, c: nat)
    requires weights != [] && a <= b <= c
    ensures Count(weights, i, a, c) == Count(weights, i, a, b) + Count(weights, i, b, c)
    decreases c
  {
    hide Selected;
    if b < c { CountSplit(weights, i, a, b, c - 1); }
  }

  /** A credit at total calls is a multiple of total above -total; with sum 0 all of them are 0. */
  lemma BackToZero(weights: seq<int>)
    requires Configured(weights)
    ensures Run(Zeros(|weights|), weights, Sum(weights)) == Zeros(|weights|)
  {
    hide Run, SumTo, Count;
    var total, n := Sum(weights), |weights|;
    var c := Run(Zeros(n), weights, total);
    CreditsSumToZero(weights, total);
    forall i | 0 <= i < n ensures 0 <= c[i] { CreditNotNegative(weights, i); }
    forall i | 0 <= i < n ensures c[i] == 0 {
      SumUpdate(c, i, 0, n);
      SumAtLeast(c[i := 0], 0, n);
    }
  }

  lemma CreditNotNegative(weights: seq<int>, i: nat)
    requires Configured(weights) && i < |weights|
    ensures 0 <= Run(Zeros(|weights|), weights, Sum(weights))[i]
  {
    hide Run, Sum, Count;
    var total := Sum(weights);
    CreditAboveMinusTotal(weights, total, i);
    Conservation(weights, total, i);
    var m := weights[i] - Count(weights, i, 0, total);
    assert total * m == total * weights[i] - total * Count(weights, i, 0, total);
    assert m < 0 ==> total * m <= -total;
  }

  lemma Periodic(weights: seq<int>, k: nat)
    requires Configured(weights)
    ensures Run(Zeros(|weights|), weights, k + Sum(weights)) == Run(Zeros(|weights|), weights, k)
    ensures Selected(weights, k + Sum(weights)) == Selected(weights, k)
  {
    hide Run, Pick, Sum;
    RunSplit(Zeros(|weights|), weights, Sum(weights), k);
    BackToZero(weights);
  }

  lemma Cancel(a: int, b: int, c: int)
    requires a > 0 && a * b == a * c
    ensures b == c
  {
    assert a * (b - c) == 0;
  }

  /** Any total consecutive calls, wherever they start, return server i exactly weights[i] times. */
  lemma ExactShares(weights: seq<int>, k: nat, i: nat)
    requires Configured(weights) && i < |weights|
    ensures Count(weights, i, k, k + Sum(weights)) == weights[i]
  {
    hide Run, Sum, Count;
    var total := Sum(weights);
    Periodic(weights, k);
    Conservation(weights, k, i);
    Conservation(weights, k + total, i);
    CountSplit(weights, i, 0, k, k + total);
    var a, d := Count(weights, i, 0, k), Count(weights, i, k, k + total);
    assert (k + total) * weights[i] == k * weights[i] + total * weights[i];
    assert total * (a + d) == total * a + total * d;
    Cancel(total, d, weights[i]);
  }

  // ----- Equal weights -----

  /** The credits of n servers of weight w, of which the first r were chosen in this round. */
  ghost predicate InRound(c: seq<int>, n: nat, w: int, r: nat) {
    |c| == n && r < n && forall i :: 0 <= i < n ==> c[i] == r * w - (if i < r then n * w else 0)
  }

  lemma SumEqual(n: nat, w: int)
    ensures Sum(Repeat(w, n)) == n * w
  {
    RepeatAll(w, n);
    SumAtMost(Repeat(w, n), w, n);
    SumAtLeast(Repeat(w, n), w, n);
  }

  lemma Successor(k: nat, n: nat)
    requires n > 0
    ensures (k + 1) % n == if k % n + 1 == n then 0 else k % n + 1
  {
    var q, r := k / n, k % n;
    assert k == q * n + r;
    if r + 1 == n {
      assert (q + 1) * n == q * n + n;
      Remainder(k + 1, q + 1, n, 0);
    } else {
      Remainder(k + 1, q, n, r + 1);
    }
  }

  lemma Remainder(x: int, q: int, n: int, r: int)
    requires 0 <= r < n && x == q * n + r
    ensures x % n == r
  {
    var d := q - x / n;
    assert d * n == q * n - (x / n) * n;
    assert d >= 1 ==> d * n >= n;
    assert d <= -1 ==> d * n <= -n;
  }

  lemma EqualStep(c: seq<int>, n: nat, w: int, r: nat)
    requires InRound(c, n, w, r) && w > 0
    ensures Pick(c, Repeat(w, n)) == r
    ensures InRound(Next(c, Repeat(w, n)), n, w, if r + 1 == n then 0 else r + 1)
  {
    hide SumTo, FirstMax, RaiseTo, Repeat;
    var ws, p, q, t := Repeat(w, n), r * w, (r + 1) * w, n * w;
    var raised := Raise(c, ws);
    assert q == p + w && t >= w && (r + 1 == n ==> q == t);
    SumEqual(n, w);
    RepeatAll(w, n);
    forall i | 0 <= i < n ensures raised[i] == q - (if i < r then t else 0) { RaisedAt(c, ws, n, i); }
    FirstMaxWins(raised, n, r);
  }

  lemma {:induction false} EqualRun(n: nat, w: int, k: nat)
    requires n > 0 && w > 0
    ensures InRound(Run(Zeros(n), Repeat(w, n), k), n, w, k % n)
  {
    hide Next, Repeat;
    if k > 0 {
      EqualRun(n, w, k - 1);
      EqualStep(Run(Zeros(n), Repeat(w, n), k - 1), n, w, (k - 1) % n);
      Successor(k - 1, n);
    } else {
      Remainder(0, 0, n, 0);
    }
  }

  /** With the default table the strict comparison keeps the lowest index, which is plain round robin. */
  lemma DefaultIsRoundRobin(n: nat, k: nat)
    requires n > 0
    ensures Selected(Repeat(DEFAULT_WEIGHT, n), k) == k % n
  {
    hide Run, Pick, Repeat, Next;
    EqualRun(n, DEFAULT_WEIGHT, k);
    EqualStep(Run(Zeros(n), Repeat(DEFAULT_WEIGHT, n), k), n, DEFAULT_WEIGHT, k % n);
  }
}
