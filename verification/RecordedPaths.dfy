/** Which spans of any call tree are recorded under one id, told by the places of their contexts in the tree. */
module RecordedPaths {

  import opened CallTree
  import opened IssuedIds
  import opened Prelude
  import opened RecordedIds
  import opened Span

  // ----- The places of the contexts -----

  /** A context by the child numbers that lead to it, and how many it has given plus one. */
  datatype Spot = Spot(path: seq<nat>, count: nat)

  /** The stack and the recorded places. */
  datatype Walked = Walked(stack: seq<Spot>, log: seq<seq<nat>>, bailed: bool)

  function TopPath(st: seq<Spot>): seq<nat> {
    if st == [] then [] else st[|st| - 1].path
  }

  function Deeper(st: seq<Spot>): seq<Spot> {
    if st == [] then [Spot([], 1)]
    else
      var top := st[|st| - 1];
      st[..|st| - 1] + [Spot(top.path, top.count + 1), Spot(top.path + [top.count], 1)]
  }

  function Back(st: seq<Spot>): seq<Spot> {
    if st == [] then [] else st[..|st| - 1]
  }

  /** A matched frame records the place on top when it ends, a successful curl call the place it started. */
  function Walk(c: Call, st: seq<Spot>): Walked
    decreases c
  {
    if !Pushes(c) then WalkBody(c.body, st)
    else
      var w := WalkBody(c.body, Deeper(st));
      if c.Matched? then Walked(Back(w.stack), w.log + [TopPath(w.stack)], w.bailed)
      else if w.bailed || !c.parsed then w
      else Walked(Back(w.stack), w.log + [TopPath(Deeper(st))], false)
  }

  function WalkBody(b: Body, st: seq<Spot>): Walked
    decreases b
  {
    match b
    case Return => Walked(st, [], false)
    case Bailout => Walked(st, [], true)
    case Then(c, rest) =>
      var w := Walk(c, st);
      if w.bailed then w
      else
        var w' := WalkBody(rest, w.stack);
        Walked(w'.stack, w.log + w'.log, w'.bailed)
  }

  // ----- Their ids are the recorded ones -----

  ghost predicate NamedBy(root: string, st: seq<Spot>, s: seq<Ctx>) {
    && |s| == |st|
    && forall i :: 0 <= i < |s| ==> s[i] == Ctx(PathId(root, st[i].path), st[i].count)
  }

  ghost predicate LogOf(root: string, places: seq<seq<nat>>, log: seq<Record>) {
    && |log| == |places|
    && forall k :: 0 <= k < |log| ==> log[k].id == Some(PathId(root, places[k]))
  }

  ghost predicate Follows(root: string, w: Walked, o: Outcome) {
    NamedBy(root, w.stack, o.stack) && o.stack != [] && LogOf(root, w.log, o.log) && o.bailed == w.bailed
  }

  lemma DeeperNamed(root: string, st: seq<Spot>, s: seq<Ctx>)
    requires NamedBy(root, st, s) && s != []
    ensures NamedBy(root, Deeper(st), Pushed(s)) && Pushed(s) != []
    ensures TopId(Pushed(s)) == Some(PathId(root, TopPath(Deeper(st))))
  {
    hide StoredId;
    var n := |s|;
    var path := st[n - 1].path + [st[n - 1].count];
    assert path[..|path| - 1] == st[n - 1].path;
  }

  lemma BackNamed(root: string, st: seq<Spot>, s: seq<Ctx>)
    requires NamedBy(root, st, s) && |s| > 1
    ensures NamedBy(root, Back(st), Popped(s)) && Popped(s) != []
    ensures TopId(s) == Some(PathId(root, TopPath(st)))
  {
    hide PathId;
  }

  lemma LogSnoc(root: string, places: seq<seq<nat>>, log: seq<Record>, place: seq<nat>, x: Record)
    requires LogOf(root, places, log) && x.id == Some(PathId(root, place))
    ensures LogOf(root, places + [place], log + [x])
  {
    hide PathId;
  }

  lemma LogJoin(root: string, p: seq<seq<nat>>, a: seq<Record>, q: seq<seq<nat>>, b: seq<Record>)
    requires LogOf(root, p, a) && LogOf(root, q, b)
    ensures LogOf(root, p + q, a + b)
  {
    hide PathId;
  }

  lemma {:induction false} WalkFollows(c: Call, root: string, st: seq<Spot>, s: seq<Ctx>)
    requires NamedBy(root, st, s) && s != []
    ensures Follows(root, Walk(c, st), Exec(c, s))
    decreases c
  {
    hide NamedBy, LogOf, PathId, Pushed, Popped, Deeper, Back, TopId, TopPath, ParentId;
    if !Pushes(c) {
      BodyFollows(c.body, root, st, s);
    } else {
      DeeperNamed(root, st, s);
      BodyFollows(c.body, root, Deeper(st), Pushed(s));
      var w, o := WalkBody(c.body, Deeper(st)), ExecBody(c.body, Pushed(s));
      HeightBody(c.body, Pushed(s));
      PushedPopped(s);
      var x := Record(if c.Curl? then TopId(Pushed(s)) else TopId(o.stack), ParentId(o.stack));
      if |o.stack| > 1 {
        BackNamed(root, w.stack, o.stack);
        LogSnoc(root, w.log, o.log, if c.Curl? then TopPath(Deeper(st)) else TopPath(w.stack), x);
      }
    }
  }

  lemma {:induction false} BodyFollows(b: Body, root: string, st: seq<Spot>, s: seq<Ctx>)
    requires NamedBy(root, st, s) && s != []
    ensures Follows(root, WalkBody(b, st), ExecBody(b, s))
    decreases b
  {
    hide NamedBy, LogOf, Exec, Walk;
    NothingLogged(root);
    if b.Then? {
      WalkFollows(b.call, root, st, s);
      var w, o := Walk(b.call, st), Exec(b.call, s);
      if !w.bailed {
        BodyFollows(b.rest, root, w.stack, o.stack);
        LogJoin(root, w.log, o.log, WalkBody(b.rest, w.stack).log, ExecBody(b.rest, o.stack).log);
      }
    }
  }

  lemma NothingLogged(root: string)
    ensures LogOf(root, [], [])
  {}

  // ----- The exact condition -----

  /** The places a call records above a top that has given count - 1 numbers. */
  function Places(c: Call, count: nat): seq<seq<nat>> {
    Walk(c, [Spot([], count)]).log
  }

  /** Two of the places lie equally deep and agree in the first five digits of each number, as the same place does
      with itself. */
  ghost predicate Clash(places: seq<seq<nat>>) {
    exists q, r :: 0 <= q < r < |places| && SameLeads(places[q], places[r])
  }

  lemma ClashIds(root: string, places: seq<seq<nat>>, log: seq<Record>)
    requires LogOf(root, places, log)
    ensures DistinctLog(log) <==> !Clash(places)
  {
    hide PathId, SameLeads;
    forall q, r | 0 <= q < r < |log| ensures log[q].id == log[r].id <==> SameLeads(places[q], places[r]) {
      PathIdSame(root, places[q], places[r]);
    }
  }

  /** In any call tree, with leaks and with any number of children, two spans are recorded under one id exactly when
      their places clash. */
  lemma RepeatsExactly(c: Call, s: seq<Ctx>)
    requires s != []
    ensures DistinctLog(Exec(c, s).log) <==> !Clash(Places(c, Last(s).count))
  {
    hide Exec, Walk, DistinctLog, Clash, LogOf;
    var base, top, st := s[..|s| - 1], [Last(s)], [Spot([], Last(s).count)];
    assert s == base + top;
    FrameExec(c, base, top);
    WalkFollows(c, Last(s).id, st, top);
    ClashIds(Last(s).id, Places(c, Last(s).count), Exec(c, top).log);
  }
}
