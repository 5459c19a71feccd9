/** Values shared by every module: options, call outcomes, machine-integer limits. */
module Prelude {

  datatype Option<+T> = None | Some(value: T)

  /** How a contract call ends.  `Err` is a typed contract error and `Trap` a host
      panic (missing authorization, arithmetic overflow); both roll the call back. */
  datatype Outcome<+T, +E> = Ok(value: T) | Err(error: E) | Trap

  /** The state a call leaves behind, given the state its body would commit. */
  function Committed<S, E>(before: S, body: Outcome<S, E>): S {
    if body.Ok? then body.value else before
  }

  /** What the caller is told. */
  function Verdict<S, E>(body: Outcome<S, E>): Outcome<(), E> {
    match body
    case Ok(_) => Ok(())
    case Err(e) => Err(e)
    case Trap => Trap
  }

  /** An account or contract address. */
  type Address = nat

  /** An interned name: an asset pair or an invoice key. */
  type Symbol = string

  const I128_MAX: int := 0x7FFF_FFFF_FFFF_FFFF_FFFF_FFFF_FFFF_FFFF
  const I128_MIN: int := -0x8000_0000_0000_0000_0000_0000_0000_0000
  const U32_MAX: int := 0xFFFF_FFFF
  const U64_MAX: int := 0xFFFF_FFFF_FFFF_FFFF

  predicate FitsI128(x: int) { I128_MIN <= x <= I128_MAX }

  /** A signed 128-bit integer. */
  type I128 = x: int | -0x8000_0000_0000_0000_0000_0000_0000_0000 <= x <= 0x7FFF_FFFF_FFFF_FFFF_FFFF_FFFF_FFFF_FFFF

  /** An unsigned 32-bit integer. */
  type U32 = n: nat | n <= 0xFFFF_FFFF

  predicate Distinct<T(==)>(s: seq<T>) {
    forall i, j :: 0 <= i < j < |s| ==> s[i] != s[j]
  }

  /** Unsigned saturating addition. */
  function SaturatingAdd(a: nat, b: nat, max: nat): nat {
    if a + b > max then max else a + b
  }

  ghost function Elements<T>(s: seq<T>): set<T> { set x | x in s }

  /** A list without repetitions has as many entries as elements. */
  lemma {:induction false} DistinctSize<T>(s: seq<T>)
    requires Distinct(s)
    ensures |Elements(s)| == |s|
  {
    if s == [] {
    } else {
      var front, last := s[..|s| - 1], s[|s| - 1];
      DistinctSize(front);
      assert last !in front;
      assert Elements(s) == Elements(front) + {last};
    }
  }

  /** A nonempty finite set has an element with the least value of `f`. */
  lemma {:induction false} LeastExists<T>(s: set<T>, f: T -> int)
    requires |s| > 0
    ensures exists x :: x in s && forall y :: y in s ==> f(x) <= f(y)
    decreases |s|
  {
    var x :| x in s;
    var rest := s - {x};
    if |rest| == 0 {
      assert rest == {};
      assert forall y :: y in s ==> y == x;
    } else {
      LeastExists(rest, f);
      var low :| low in rest && forall y :: y in rest ==> f(low) <= f(y);
      var least := if f(low) <= f(x) then low else x;
      assert forall y :: y in s ==> y == x || y in rest;
      assert least in s && forall y :: y in s ==> f(least) <= f(y);
    }
  }

  lemma SubsetSize<T>(a: set<T>, b: set<T>)
    requires a <= b
    ensures |a| <= |b|
  {
    assert b == a + (b - a);
  }
}
