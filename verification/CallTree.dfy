/** mo_execute_core of molten.c and molten_curl_exec: the span stack over whole trees of nested calls. */
module CallTree {

  import opened Decimal
  import opened MoStack
  import opened Prelude
  import opened Span

  /** A call as the hooks see it. Skipped and Matched run under mo_execute_core; Curl is the body of
      molten_curl_exec, whose parameters may fail to parse. */
  datatype Call =
    | Skipped(body: Body)
    | Matched(body: Body)
    | Curl(sampled: bool, parsed: bool, body: Body)

  /** What the called code does: nested calls one after the other, ended by a return or a bailout. */
  datatype Body = Return | Bailout | Then(call: Call, rest: Body)

  /** The ids handed to a recorder. */
  datatype Record = Record(id: Option<string>, parent: Option<string>)

  // ----- What a call does to the stack of contexts -----

  datatype Outcome = Outcome(stack: seq<Ctx>, log: seq<Record>, bailed: bool)

  function TopId(s: seq<Ctx>): Option<string> {
    if s == [] then None else Some(Last(s).id)
  }

  function Exec(c: Call, s: seq<Ctx>): Outcome
    decreases c
  {
    match c
    case Skipped(body) => ExecBody(body, s)
    case Matched(body) =>
      var o := ExecBody(body, Pushed(s));
      Outcome(Popped(o.stack), o.log + [Record(TopId(o.stack), ParentId(o.stack))], o.bailed)
    case Curl(sampled, parsed, body) =>
      if !sampled then ExecBody(body, s)
      else
        var o := ExecBody(body, Pushed(s));
        if o.bailed || !parsed then o
        else Outcome(Popped(o.stack), o.log + [Record(TopId(Pushed(s)), ParentId(o.stack))], false)
  }

  function ExecBody(b: Body, s: seq<Ctx>): Outcome
    decreases b
  {
    match b
    case Return => Outcome(s, [], false)
    case Bailout => Outcome(s, [], true)
    case Then(c, rest) =>
      var o := Exec(c, s);
      if o.bailed then o
      else
        var o' := ExecBody(rest, o.stack);
        Outcome(o'.stack, o.log + o'.log, o'.bailed)
  }

  // ----- The hooks, with the global level, stack and recorded spans -----

  class Molten {
    var level: int
    var stack: Stack<Ctx>
    var log: seq<Record>

    ghost predicate Valid()
      reads this, stack
    {
      stack.Valid()
    }

    constructor (s: Stack<Ctx>)
      requires s.Valid()
      ensures stack == s && level == 0 && log == []
    {
      level, stack, log := 0, s, [];
    }

    /** The call runs under zend_try: a bailout is caught, the frame is recorded and destroyed, the level
        restored, and only then is the bailout raised again. */
    method ExecuteCore(c: Call) returns (bailed: bool)
      requires Valid() && !c.Curl?
      modifies this, stack, stack.elements
      ensures Valid() && stack == old(stack) && (stack.elements == old(stack.elements) || fresh(stack.elements))
      ensures level == old(level)
      ensures var o := Exec(c, old(stack.Contents()));
              stack.Contents() == o.stack && log == old(log) + o.log && bailed == o.bailed
      decreases c
    {
      hide Pushed, Popped, ParentId, TopId, ExecBody, OneMore;
      level := level + 1;
      var matched := c.Matched?;
      if matched { PushSpanContext(stack); }
      bailed := RunBody(c.body);
      if matched {
        RecordFrame();
        PopSpanContext(stack);
      }
      level := level - 1;
    }

    method RecordFrame()
      requires Valid()
      modifies this`log
      ensures log == old(log) + [Record(TopId(stack.Contents()), ParentId(stack.Contents()))]
    {
      var id := RetrieveSpanId(stack);
      var parent := RetrieveParentSpanId(stack);
      log := log + [Record(id, parent)];
    }

    /** Nothing here catches a bailout, and a failed parse skips the final pop. */
    method CurlExec(c: Call) returns (bailed: bool)
      requires Valid() && c.Curl?
      modifies this, stack, stack.elements
      ensures Valid() && stack == old(stack) && (stack.elements == old(stack.elements) || fresh(stack.elements))
      ensures level == old(level)
      ensures var o := Exec(c, old(stack.Contents()));
              stack.Contents() == o.stack && log == old(log) + o.log && bailed == o.bailed
      decreases c
    {
      hide Pushed, Popped, ParentId, ExecBody, OneMore;
      var spanId: Option<string> := None;
      if c.sampled { PushSpanContext(stack); }
      if c.parsed { spanId := RetrieveSpanId(stack); }
      bailed := RunBody(c.body);
      if bailed {
        return;
      }
      if c.parsed && c.sampled {
        var parent := RetrieveParentSpanId(stack);
        log := log + [Record(spanId, parent)];
        PopSpanContext(stack);
      }
    }

    method RunBody(b: Body) returns (bailed: bool)
      requires Valid()
      modifies this, stack, stack.elements
      ensures Valid() && stack == old(stack) && (stack.elements == old(stack.elements) || fresh(stack.elements))
      ensures level == old(level)
      ensures var o := ExecBody(b, old(stack.Contents()));
              stack.Contents() == o.stack && log == old(log) + o.log && bailed == o.bailed
      decreases b
    {
      hide Exec;
      match b
      case Return => bailed := false;
      case Bailout => bailed := true;
      case Then(c, rest) =>
        if c.Curl? { bailed := CurlExec(c); } else { bailed := ExecuteCore(c); }
        if !bailed { bailed := RunBody(rest); }
    }
  }

  // ----- Bailouts, leaks and children of a call, read off the tree -----

  predicate Bails(c: Call) {
    BailsBody(c.body)
  }

  predicate BailsBody(b: Body) {
    match b
    case Return => false
    case Bailout => true
    case Then(c, rest) => Bails(c) || BailsBody(rest)
  }

  /** Sampled curl calls that run and skip their pop: a failed parse or a bailout inside. */
  function Leaks(c: Call): nat {
    LeaksBody(c.body) + if c.Curl? && c.sampled && (!c.parsed || Bails(c)) then 1 else 0
  }

  function LeaksBody(b: Body): nat {
    match b
    case Return => 0
    case Bailout => 0
    case Then(c, rest) => Leaks(c) + if Bails(c) then 0 else LeaksBody(rest)
  }

  predicate Pushes(c: Call) {
    c.Matched? || (c.Curl? && c.sampled)
  }

  /** How many contexts are numbered directly under the top the call starts with. */
  function Children(c: Call): nat {
    if Pushes(c) then 1 else ChildrenBody(c.body)
  }

  function ChildrenBody(b: Body): nat {
    match b
    case Return => 0
    case Bailout => 0
    case Then(c, rest) => Children(c) + if Bails(c) then 0 else ChildrenBody(rest)
  }

  lemma {:induction false} ExecBails(c: Call, s: seq<Ctx>)
    ensures Exec(c, s).bailed == Bails(c)
    decreases c
  {
    hide Pushed, Popped, TopId, ParentId;
    ExecBodyBails(c.body, s);
    ExecBodyBails(c.body, Pushed(s));
  }

  lemma {:induction false} ExecBodyBails(b: Body, s: seq<Ctx>)
    ensures ExecBody(b, s).bailed == BailsBody(b)
    decreases b
  {
    hide Exec, Bails;
    if b.Then? {
      ExecBails(b.call, s);
      ExecBodyBails(b.rest, Exec(b.call, s).stack);
    }
  }

  // ----- The stack is restored exactly when nothing leaks -----

  lemma PushedPopped(s: seq<Ctx>)
    ensures |Pushed(s)| == |s| + 1
    ensures s != [] ==> |Popped(s)| == |s| - 1
  {}

  /** Every leak leaves one context behind. */
  lemma {:induction false} Height(c: Call, s: seq<Ctx>)
    ensures |Exec(c, s).stack| == |s| + Leaks(c)
    decreases c
  {
    hide Pushed, Popped, TopId, ParentId;
    ExecBodyBails(c.body, Pushed(s));
    HeightBody(c.body, s);
    HeightBody(c.body, Pushed(s));
    PushedPopped(s);
    PushedPopped(ExecBody(c.body, Pushed(s)).stack);
  }

  lemma {:induction false} HeightBody(b: Body, s: seq<Ctx>)
    ensures |ExecBody(b, s).stack| == |s| + LeaksBody(b)
    decreases b
  {
    hide Exec, Bails, Leaks;
    if b.Then? {
      ExecBails(b.call, s);
      Height(b.call, s);
      HeightBody(b.rest, Exec(b.call, s).stack);
    }
  }

  lemma BumpedTwice(s: seq<Ctx>, j: nat, k: nat)
    ensures Bumped(Bumped(s, j), k) == Bumped(s, j + k)
    ensures Bumped(s, 0) == s
  {}

  lemma PopBumpedPushed(s: seq<Ctx>, k: nat)
    ensures Popped(Bumped(Pushed(s), k)) == Bumped(s, 1)
  {}

  lemma {:induction false} Restores(c: Call, s: seq<Ctx>)
    requires Leaks(c) == 0
    ensures Exec(c, s).stack == Bumped(s, Children(c))
    decreases c
  {
    hide Pushed, Popped, TopId, ParentId, Bumped;
    ExecBodyBails(c.body, Pushed(s));
    RestoresBody(c.body, s);
    RestoresBody(c.body, Pushed(s));
    PopBumpedPushed(s, ChildrenBody(c.body));
  }

  lemma {:induction false} RestoresBody(b: Body, s: seq<Ctx>)
    requires LeaksBody(b) == 0
    ensures ExecBody(b, s).stack == Bumped(s, ChildrenBody(b))
    decreases b
  {
    hide Exec, Bails, Leaks, Children, Bumped;
    BumpedTwice(s, 0, 0);
    if b.Then? {
      ExecBails(b.call, s);
      Restores(b.call, s);
      if !Bails(b.call) {
        RestoresBody(b.rest, Exec(b.call, s).stack);
        BumpedTwice(s, Children(b.call), ChildrenBody(b.rest));
      }
    }
  }

  /** The only change to the stack is the count of the contexts directly under its top, exactly when no
      sampled curl call inside failed to parse or bailed out. */
  lemma StackRestored(c: Call, s: seq<Ctx>)
    ensures Exec(c, s).stack == Bumped(s, Children(c)) <==> Leaks(c) == 0
  {
    hide Exec, Bumped, Leaks, Children;
    Height(c, s);
    if Leaks(c) == 0 { Restores(c, s); }
  }

  // ----- What is recorded -----

  /** The records of a call under a parent id, its contexts numbered from n: children before their parents,
      each with its own id and the id of the nearest enclosing context. */
  function Numbered(c: Call, p: string, n: nat): seq<Record>
    decreases c
  {
    if !Pushes(c) then NumberedBody(c.body, p, n)
    else NumberedBody(c.body, ChildId(p, n), 1) + [Record(Some(ChildId(p, n)), Some(p))]
  }

  function NumberedBody(b: Body, p: string, n: nat): seq<Record>
    decreases b
  {
    match b
    case Return => []
    case Bailout => []
    case Then(c, rest) => Numbered(c, p, n) + if Bails(c) then [] else NumberedBody(rest, p, n + Children(c))
  }

  /** The same records under the ids as they are stored. */
  function Stored(c: Call, p: string, n: nat): seq<Record>
    decreases c
  {
    if !Pushes(c) then StoredBody(c.body, p, n)
    else StoredBody(c.body, StoredId(p, n), 1) + [Record(Some(StoredId(p, n)), Some(p))]
  }

  function StoredBody(b: Body, p: string, n: nat): seq<Record>
    decreases b
  {
    match b
    case Return => []
    case Bailout => []
    case Then(c, rest) => Stored(c, p, n) + if Bails(c) then [] else StoredBody(rest, p, n + Children(c))
  }

  lemma TopOfPushed(s: seq<Ctx>, k: nat)
    requires s != []
    ensures Pushed(s) != [] && Last(Pushed(s)) == Ctx(NewId(s), 1)
    ensures TopId(Pushed(s)) == Some(NewId(s))
    ensures var t := Bumped(Pushed(s), k);
            TopId(t) == Some(NewId(s)) && ParentId(t) == Some(Last(s).id)
  {}

  lemma {:induction false} StoredWhenKept(c: Call, s: seq<Ctx>)
    requires s != [] && Leaks(c) == 0
    ensures Exec(c, s).log == Stored(c, Last(s).id, Last(s).count)
    decreases c
  {
    hide Pushed, Popped, TopId, ParentId, Bumped, Last, StoredId;
    TopOfPushed(s, ChildrenBody(c.body));
    ExecBodyBails(c.body, Pushed(s));
    StoredBodyWhenKept(c.body, s);
    StoredBodyWhenKept(c.body, Pushed(s));
    RestoresBody(c.body, Pushed(s));
  }

  lemma {:induction false} StoredBodyWhenKept(b: Body, s: seq<Ctx>)
    requires s != [] && LeaksBody(b) == 0
    ensures ExecBody(b, s).log == StoredBody(b, Last(s).id, Last(s).count)
    decreases b
  {
    hide Exec, Bails, Leaks, Children, Stored;
    if b.Then? {
      ExecBails(b.call, s);
      StoredWhenKept(b.call, s);
      if !Bails(b.call) {
        Restores(b.call, s);
        StoredBodyWhenKept(b.rest, Bumped(s, Children(b.call)));
      }
    }
  }

  /** How many contexts a call pushes. */
  function Pushings(c: Call): nat {
    PushingsBody(c.body) + if Pushes(c) then 1 else 0
  }

  function PushingsBody(b: Body): nat {
    match b
    case Return => 0
    case Bailout => 0
    case Then(c, rest) => Pushings(c) + if Bails(c) then 0 else PushingsBody(rest)
  }

  /** Each of them is recorded or left behind. */
  lemma {:induction false} RecordedOrLeaked(c: Call, s: seq<Ctx>)
    ensures |Exec(c, s).log| + Leaks(c) == Pushings(c)
    decreases c
  {
    hide Pushed, Popped, TopId, ParentId;
    ExecBodyBails(c.body, Pushed(s));
    RecordedOrLeakedBody(c.body, s);
    RecordedOrLeakedBody(c.body, Pushed(s));
  }

  lemma {:induction false} RecordedOrLeakedBody(b: Body, s: seq<Ctx>)
    ensures |ExecBody(b, s).log| + LeaksBody(b) == PushingsBody(b)
    decreases b
  {
    hide Exec, Bails, Leaks, Pushings;
    if b.Then? {
      ExecBails(b.call, s);
      RecordedOrLeaked(b.call, s);
      RecordedOrLeakedBody(b.rest, Exec(b.call, s).stack);
    }
  }

  lemma {:induction false} RecordLengths(c: Call, p: string, q: string, n: nat)
    ensures |Numbered(c, p, n)| == |Stored(c, q, n)| == Pushings(c)
    decreases c
  {
    hide ChildId, StoredId;
    BodyRecordLengths(c.body, p, q, n);
    BodyRecordLengths(c.body, ChildId(p, n), StoredId(q, n), 1);
  }

  lemma {:induction false} BodyRecordLengths(b: Body, p: string, q: string, n: nat)
    ensures |NumberedBody(b, p, n)| == |StoredBody(b, q, n)| == PushingsBody(b)
    decreases b
  {
    hide Numbered, Stored, Bails, Children, Pushings;
    if b.Then? {
      RecordLengths(b.call, p, q, n);
      BodyRecordLengths(b.rest, p, q, n + Children(b.call));
    }
  }

  // ----- Five digits for a number -----

  /** k children numbered from n on have numbers of at most five digits. */
  predicate Room(n: nat, k: nat) {
    k == 0 || n + k <= TOO_MANY
  }

  /** No context of the call has more than 99999 children. */
  predicate Narrow(c: Call) {
    NarrowBody(c.body) && (Pushes(c) ==> Room(1, ChildrenBody(c.body)))
  }

  predicate NarrowBody(b: Body) {
    match b
    case Return => true
    case Bailout => true
    case Then(c, rest) => Narrow(c) && (Bails(c) || NarrowBody(rest))
  }

  lemma {:induction false} StoredIsNumbered(c: Call, p: string, n: nat)
    ensures Stored(c, p, n) == Numbered(c, p, n) <==> Narrow(c) && Room(n, Children(c))
    decreases c
  {
    hide ChildId, StoredId, ChildrenBody;
    if !Pushes(c) {
      StoredBodyIsNumbered(c.body, p, n);
    } else {
      StoredWhole(p, n);
      StoredBodyIsNumbered(c.body, ChildId(p, n), 1);
      var a, b := StoredBody(c.body, StoredId(p, n), 1), NumberedBody(c.body, ChildId(p, n), 1);
      SameSnoc(a, b, Record(Some(StoredId(p, n)), Some(p)), Record(Some(ChildId(p, n)), Some(p)));
    }
  }

  lemma SameSnoc(a: seq<Record>, b: seq<Record>, x: Record, y: Record)
    ensures a + [x] == b + [y] <==> a == b && x == y
  {
    var c, d := a + [x], b + [y];
    assert c[..|c| - 1] == a && c[|c| - 1] == x && d[..|d| - 1] == b && d[|d| - 1] == y;
  }

  lemma SameHalves(a: seq<Record>, b: seq<Record>, c: seq<Record>, d: seq<Record>)
    requires |a| == |c|
    ensures a + b == c + d <==> a == c && b == d
  {
    assert (a + b)[..|a|] == a && (a + b)[|a|..] == b && (c + d)[..|a|] == c && (c + d)[|a|..] == d;
  }

  lemma {:induction false} StoredBodyIsNumbered(b: Body, p: string, n: nat)
    ensures StoredBody(b, p, n) == NumberedBody(b, p, n) <==> NarrowBody(b) && Room(n, ChildrenBody(b))
    decreases b
  {
    hide Stored, Numbered, Narrow, Children, Bails, Pushings;
    if b.Then? {
      var m := n + Children(b.call);
      RecordLengths(b.call, p, p, n);
      StoredIsNumbered(b.call, p, n);
      StoredBodyIsNumbered(b.rest, p, m);
      SameHalves(Stored(b.call, p, n), if Bails(b.call) then [] else StoredBody(b.rest, p, m),
                 Numbered(b.call, p, n), if Bails(b.call) then [] else NumberedBody(b.rest, p, m));
    }
  }

  /** Every frame is recorded under its own id with its nearest enclosing context as parent, children before
      parents, exactly when no sampled curl call inside failed to parse or bailed out and no context numbers more
      than 99999 children. */
  lemma RecordsAreNumbered(c: Call, s: seq<Ctx>)
    requires s != []
    ensures Exec(c, s).log == Numbered(c, Last(s).id, Last(s).count)
       <==> Leaks(c) == 0 && Narrow(c) && Room(Last(s).count, Children(c))
  {
    hide Exec, Leaks, Numbered, Stored, Pushings, Narrow, Room, Children;
    RecordedOrLeaked(c, s);
    RecordLengths(c, Last(s).id, Last(s).id, Last(s).count);
    StoredIsNumbered(c, Last(s).id, Last(s).count);
    if Leaks(c) == 0 { StoredWhenKept(c, s); }
  }
}
