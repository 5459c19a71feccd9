/** Overflow-checked i128 arithmetic, as the ledgers use it. */
module CheckedMath {
  import opened Prelude

  datatype MathError = Overflow | Underflow | DivisionByZero

  type Checked = Outcome<I128, MathError>

  /** The sum when it fits; otherwise the error names the side it leaves by. */
  function CheckedAdd(a: I128, b: I128): (r: Checked)
    ensures r.Ok? <==> FitsI128(a + b)
    ensures r.Ok? ==> r.value == a + b
    ensures r == Err(Overflow) <==> a + b > I128_MAX
    ensures r == Err(Underflow) <==> a + b < I128_MIN
  {
    if FitsI128(a + b) then Ok(a + b) else if a > 0 && b > 0 then Err(Overflow) else Err(Underflow)
  }

  function CheckedSub(a: I128, b: I128): (r: Checked)
    ensures r.Ok? <==> FitsI128(a - b)
    ensures r.Ok? ==> r.value == a - b
    ensures r == Err(Overflow) <==> a - b > I128_MAX
    ensures r == Err(Underflow) <==> a - b < I128_MIN
  {
    if FitsI128(a - b) then Ok(a - b) else if b < 0 then Err(Overflow) else Err(Underflow)
  }

  lemma SignOfProduct(a: int, b: int)
    ensures (a > 0 && b > 0) || (a < 0 && b < 0) <==> a * b > 0
  {
    if a > 0 && b < 0 { assert a * b < 0; }
    if a < 0 && b > 0 { assert a * b < 0; }
  }

  function CheckedMul(a: I128, b: I128): (r: Checked)
    ensures r.Ok? <==> FitsI128(a * b)
    ensures r.Ok? ==> r.value == a * b
    ensures r == Err(Overflow) <==> a * b > I128_MAX
    ensures r == Err(Underflow) <==> a * b < I128_MIN
  {
    SignOfProduct(a, b);
    if FitsI128(a * b) then Ok(a * b)
    else if (a > 0 && b > 0) || (a < 0 && b < 0) then Err(Overflow) else Err(Underflow)
  }

  /** Division that truncates toward zero. */
  function TruncDiv(a: int, b: int): int
    requires b != 0
  {
    if a >= 0 then (if b > 0 then a / b else -(a / -b))
    else (if b > 0 then -(-a / b) else -a / -b)
  }

  function Abs(x: int): nat { if x < 0 then -x else x }

  /** `q` is `a / b` rounded toward zero: the rest is smaller than `b`, on the side of `a`. */
  predicate IsTruncated(a: int, b: int, q: int) {
    var rest := a - q * b;
    Abs(rest) < Abs(b) && (rest > 0 ==> a > 0) && (rest < 0 ==> a < 0)
  }

  lemma SignsOut(q: int, n: int)
    ensures (-q) * n == -(q * n) && q * (-n) == -(q * n) && (-q) * (-n) == q * n
  {
  }

  /** For every sign of either operand. */
  lemma TruncDivIsTruncated(a: int, b: int)
    requires b != 0
    ensures IsTruncated(a, b, TruncDiv(a, b))
  {
    var m: int, n: int := Abs(a), Abs(b);
    var q: int := m / n;
    FloorRest(m, n, q);
    SignsOut(q, n);
    if a >= 0 {
      assert TruncDiv(a, b) * b == q * n;
    } else {
      assert TruncDiv(a, b) * b == -(q * n);
    }
  }

  lemma FloorRest(m: int, n: int, q: int)
    requires m >= 0 && n > 0 && q == m / n
    ensures 0 <= m - q * n < n
  {
  }

  lemma MultipleAtLeast(d: int, b: int)
    requires d != 0
    ensures Abs(d * b) >= Abs(b)
  {
    if d > 0 {
      if b > 0 { assert d * b >= b; } else { assert d * b <= b; }
    } else {
      if b > 0 { assert d * b <= -b; } else { assert d * b >= -b; }
    }
  }

  /** Rounding toward zero determines the quotient. */
  lemma TruncatedUnique(a: int, b: int, p: int, q: int)
    requires b != 0 && IsTruncated(a, b, p) && IsTruncated(a, b, q)
    ensures p == q
  {
    var r, s := a - p * b, a - q * b;
    assert (p - q) * b == s - r;
    assert Abs(s - r) < Abs(b);
    if p != q { MultipleAtLeast(p - q, b); }
  }

  lemma TruncDivBounds(a: I128, b: I128)
    requires b != 0 && !(a == I128_MIN && b == -1)
    ensures FitsI128(TruncDiv(a, b))
    ensures a >= 0 && b > 0 ==> TruncDiv(a, b) * b <= a < TruncDiv(a, b) * b + b
    ensures a <= 0 && b > 0 ==> TruncDiv(a, b) * b - b < a <= TruncDiv(a, b) * b
  {
  }

  /** Only zero and MIN / -1 fail. */
  function CheckedDiv(a: I128, b: I128): (r: Checked)
    ensures r == Err(DivisionByZero) <==> b == 0
    ensures r == Err(Overflow) <==> a == I128_MIN && b == -1
    ensures r.Ok? && a >= 0 && b > 0 ==> r.value * b <= a < r.value * b + b
    ensures r.Ok? && a <= 0 && b > 0 ==> r.value * b - b < a <= r.value * b
  {
    if b == 0 then Err(DivisionByZero)
    else if a == I128_MIN && b == -1 then Err(Overflow)
    else
      TruncDivBounds(a, b);
      Ok(TruncDiv(a, b))
  }

  /** The quotient, where there is one, is the only integer rounded toward zero. */
  lemma CheckedDivExact(a: I128, b: I128, q: int)
    requires CheckedDiv(a, b).Ok?
    ensures CheckedDiv(a, b).value == q <==> IsTruncated(a, b, q)
  {
    TruncDivIsTruncated(a, b);
    if IsTruncated(a, b, q) { TruncatedUnique(a, b, q, CheckedDiv(a, b).value); }
  }
}
