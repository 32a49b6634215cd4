/** Small shared vocabulary: the failure-carrying result types, the 32-bit
    integer range of C#'s `int`, sequence flattening and the LINQ `Min`/`Max`
    of a non-empty integer sequence. */
module Common {

  /** A value that may be absent (C#'s `null`). */
  datatype Option<+T> = None | Some(value: T)

  /** A value or the exception that replaced it. */
  datatype Result<+T, +E> = Success(value: T) | Failure(error: E)

  const Int32Min: int := -0x8000_0000
  const Int32Max: int := 0x7FFF_FFFF

  predicate IsInt32(x: int) {
    Int32Min <= x <= Int32Max
  }

  /** C#'s unchecked 32-bit addition: the mathematical sum wrapped into int range. */
  function WrapInt32(x: int): (r: int)
    ensures IsInt32(r)
    ensures (r - x) % 0x1_0000_0000 == 0
    ensures IsInt32(x) ==> r == x
  {
    (x - Int32Min) % 0x1_0000_0000 + Int32Min
  }

  function Min(a: int, b: int): int { if a <= b then a else b }
  function Max(a: int, b: int): int { if a >= b then a else b }

  /** The sequences of `ss`, one after another. */
  function Flatten<T>(ss: seq<seq<T>>): seq<T>
  {
    if |ss| == 0 then [] else ss[0] + Flatten(ss[1..])
  }

  lemma {:induction false} FlattenConcat<T>(a: seq<seq<T>>, b: seq<seq<T>>)
    ensures Flatten(a + b) == Flatten(a) + Flatten(b)
  {
    if |a| == 0 {
      assert a + b == b;
    } else {
      assert (a + b)[1..] == a[1..] + b;
      FlattenConcat(a[1..], b);
    }
  }

  /** Appending one more sequence at the end appends its elements at the end. */
  lemma FlattenSnoc<T>(a: seq<seq<T>>, s: seq<T>)
    ensures Flatten(a + [s]) == Flatten(a) + s
  {
    FlattenConcat(a, [s]);
    assert Flatten([s]) == s + Flatten([s][1..]);
  }

  /** Every element of every inner sequence occurs in the flattening. */
  lemma {:induction false} FlattenContains<T>(ss: seq<seq<T>>, i: nat, j: nat)
    requires i < |ss| && j < |ss[i]|
    ensures ss[i][j] in Flatten(ss)
  {
    if i > 0 {
      FlattenContains(ss[1..], i - 1, j);
    }
  }

  /** LINQ `Min` over a non-empty sequence: a lower bound that is attained. */
  function MinOf(xs: seq<int>): (r: int)
    requires |xs| > 0
    ensures forall i :: 0 <= i < |xs| ==> r <= xs[i]
    ensures exists i :: 0 <= i < |xs| && xs[i] == r
  {
    if |xs| == 1 then xs[0]
    else
      var m := MinOf(xs[1..]);
      assert forall i :: 1 <= i < |xs| ==> xs[i] == xs[1..][i - 1];
      if xs[0] <= m then xs[0] else m
  }

  /** LINQ `Max` over a non-empty sequence: an upper bound that is attained. */
  function MaxOf(xs: seq<int>): (r: int)
    requires |xs| > 0
    ensures forall i :: 0 <= i < |xs| ==> xs[i] <= r
    ensures exists i :: 0 <= i < |xs| && xs[i] == r
  {
    if |xs| == 1 then xs[0]
    else
      var m := MaxOf(xs[1..]);
      assert forall i :: 1 <= i < |xs| ==> xs[i] == xs[1..][i - 1];
      if xs[0] >= m then xs[0] else m
  }
}
