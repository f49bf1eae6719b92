/** The growing array stack of common/molten_stack.c. */
module MoStack {

  import opened Prelude

  const BLOCK_SIZE := 64

  // ----- Abstract stacks and their runs -----

  /** The live elements, everything pushed so far and everything handed to the destructor. */
  datatype View<T> = View(live: seq<T>, pushed: seq<T>, destroyed: seq<T>)

  datatype Op<T> = Push(x: T) | Pop

  function Step<T>(v: View<T>, op: Op<T>): View<T> {
    match op
    case Push(x) => View(v.live + [x], v.pushed + [x], v.destroyed)
    case Pop =>
      if v.live == [] then v
      else View(v.live[..|v.live| - 1], v.pushed, v.destroyed + [v.live[|v.live| - 1]])
  }

  function Destroyed<T>(v: View<T>): View<T> {
    View([], v.pushed, v.destroyed + v.live)
  }

  function Run<T>(v: View<T>, ops: seq<Op<T>>, n: nat): View<T>
    requires n <= |ops|
  {
    if n == 0 then v else Step(Run(v, ops, n - 1), ops[n - 1])
  }

  ghost predicate Conserved<T>(v: View<T>) {
    multiset(v.pushed) == multiset(v.live) + multiset(v.destroyed)
  }

  lemma StepConserves<T>(v: View<T>, op: Op<T>)
    requires Conserved(v)
    ensures Conserved(Step(v, op))
  {
    if op.Pop? && v.live != [] {
      assert v.live == v.live[..|v.live| - 1] + [v.live[|v.live| - 1]];
    }
  }

  /** What is pushed last is popped first. */
  lemma PushThenPop<T>(v: View<T>, x: T)
    ensures Step(Step(v, Push(x)), Pop) == View(v.live, v.pushed + [x], v.destroyed + [x])
  {
    assert (v.live + [x])[..|v.live|] == v.live;
  }

  lemma {:induction false} RunConserves<T>(v: View<T>, ops: seq<Op<T>>, n: nat)
    requires Conserved(v) && n <= |ops|
    ensures Conserved(Run(v, ops, n))
  {
    if n > 0 {
      RunConserves(v, ops, n - 1);
      StepConserves(Run(v, ops, n - 1), ops[n - 1]);
    }
  }

  /** After any run from an empty stack, destroying it has handed every pushed element to the
      destructor exactly as often as it was pushed. */
  lemma DestroyedExactlyOnce<T>(ops: seq<Op<T>>)
    ensures var v := Destroyed(Run(View([], [], []), ops, |ops|));
            v.live == [] && multiset(v.destroyed) == multiset(v.pushed)
  {
    RunConserves(View([], [], []), ops, |ops|);
  }

  // ----- The stack in memory -----

  class Stack<T(0)> {
    var top: int
    var max: int
    var elements: array?<T>
    ghost var pushed: seq<T>
    ghost var destroyed: seq<T>

    ghost predicate Valid()
      reads this
    {
      && 0 <= top <= max && max % BLOCK_SIZE == 0
      && (if elements == null then max == 0 else elements.Length == max)
    }

    ghost function Contents(): seq<T>
      requires Valid()
      reads this, elements
    {
      if elements == null then [] else elements[..top]
    }

    ghost function Abstract(): View<T>
      requires Valid()
      reads this, elements
    {
      View(Contents(), pushed, destroyed)
    }

    constructor ()
      ensures Valid() && Abstract() == View([], [], []) && elements == null
    {
      top, max, elements := 0, 0, null;
      pushed, destroyed := [], [];
    }

    method PushElement(x: T) returns (index: int)
      requires Valid()
      modifies this, elements
      ensures Valid() && Abstract() == Step(old(Abstract()), Push(x))
      ensures Contents() == old(Contents()) + [x] && destroyed == old(destroyed)
      ensures index == |old(Contents())| && max == (if index == old(max) then old(max) + 64 else old(max))
      ensures elements == old(elements) || fresh(elements)
    {
      ghost var before := Contents();
      if top >= max {
        Grow();
      }
      elements[top] := x;
      index := top;
      top := top + 1;
      pushed := pushed + [x];
      assert elements[..top] == before + [x];
    }

    /** erealloc to one more block, keeping the elements. */
    method Grow()
      requires Valid()
      modifies this`max, this`elements
      ensures Valid() && Contents() == old(Contents())
      ensures max == old(max) + BLOCK_SIZE && elements != null && fresh(elements)
    {
      var larger := new T[max + BLOCK_SIZE];
      for i := 0 to top
        invariant unchanged(this) && (elements != null ==> unchanged(elements))
        invariant larger[..i] == Contents()[..i]
      {
        larger[i] := elements[i];
      }
      assert larger[..top] == Contents();
      max := max + BLOCK_SIZE;
      elements := larger;
    }

    method Top() returns (r: Option<T>)
      requires Valid()
      ensures r == if Contents() == [] then None else Some(Contents()[|Contents()| - 1])
    {
      if top > 0 { r := Some(elements[top - 1]); } else { r := None; }
    }

    method SecElement() returns (r: Option<T>)
      requires Valid()
      ensures r == if |Contents()| < 2 then None else Some(Contents()[|Contents()| - 2])
    {
      if top > 1 { r := Some(elements[top - 1 - 1]); } else { r := None; }
    }

    /** A write through the pointer mo_stack_top returned. */
    method SetTop(x: T)
      requires Valid() && Contents() != []
      modifies elements
      ensures Valid() && Contents() == old(Contents())[|old(Contents())| - 1 := x]
    {
      elements[top - 1] := x;
    }

    method DelTop()
      requires Valid() && Contents() != []
      modifies this`top, this`destroyed
      ensures Valid() && Abstract() == Step(old(Abstract()), Pop)
      ensures old(Contents()) == Contents() + destroyed[|old(destroyed)|..] && |destroyed| == |old(destroyed)| + 1
    {
      destroyed := destroyed + [elements[top - 1]];
      top := top - 1;
    }

    /** Pops into a copy; an empty stack is left alone. */
    method PopElement() returns (copy: Option<T>)
      requires Valid()
      modifies this`top, this`destroyed
      ensures Valid() && Abstract() == Step(old(Abstract()), Pop)
      ensures copy == if old(Contents()) == [] then None else Some(old(Contents())[|old(Contents())| - 1])
      ensures old(Contents()) == Contents() + (if copy.Some? then [copy.value] else [])
    {
      if top <= 0 {
        return None;
      }
      copy := Some(elements[top - 1]);
      DelTop();
    }

    method Destroy()
      requires Valid()
      modifies this
      ensures Valid() && Abstract() == Destroyed(old(Abstract()))
      ensures Contents() == [] && destroyed == old(destroyed) + old(Contents())
      ensures top == 0 && max == 0 && elements == null
    {
      if elements != null {
        for i := 0 to top
          invariant unchanged(`top) && unchanged(`max) && unchanged(`elements) && unchanged(`pushed)
          invariant destroyed == old(destroyed) + elements[..i]
        {
          destroyed := destroyed + [elements[i]];
        }
        max := 0;
        top := 0;
        elements := null;
      }
    }
  }
}
