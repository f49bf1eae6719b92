/** Definitions shared by the modules. */
module Prelude {

  datatype Option<+T> = None | Some(value: T)

  const INT_MIN := -0x8000_0000
  const INT_MAX := 0x7FFF_FFFF

  /** n copies of x. */
  function Repeat<T>(x: T, n: nat): (r: seq<T>)
    ensures |r| == n
  {
    if n == 0 then [] else Repeat(x, n - 1) + [x]
  }

  lemma {:induction false} RepeatAt<T>(x: T, n: nat, k: nat)
    requires k < n
    ensures Repeat(x, n)[k] == x
  {
    if k < n - 1 { RepeatAt(x, n - 1, k); }
  }

  lemma RepeatAll<T>(x: T, n: nat)
    ensures forall k :: 0 <= k < n ==> Repeat(x, n)[k] == x
  {
    forall k | 0 <= k < n ensures Repeat(x, n)[k] == x { RepeatAt(x, n, k); }
  }
}
