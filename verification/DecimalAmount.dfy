/** Fixed-point amounts: integer minor units printed as decimals and parsed back. */
module DecimalAmount {
  import opened Prelude

  // ---- digits ---------------------------------------------------------------------

  predicate IsDigit(c: char) { '0' <= c <= '9' }

  predicate AllDigits(s: string) { forall i :: 0 <= i < |s| ==> IsDigit(s[i]) }

  function DigitChar(d: nat): (c: char)
    requires d < 10
    ensures IsDigit(c) && DigitValue(c) == d
  {
    '0' + d as char
  }

  function DigitValue(c: char): (d: nat)
    requires IsDigit(c)
    ensures d < 10
  {
    c as int - '0' as int
  }

  /** `BigInt.toString` of a non-negative integer. */
  function Digits(n: nat): (s: string)
    ensures |s| > 0 && AllDigits(s)
    ensures s[0] == '0' ==> n == 0 && s == "0"
  {
    if n < 10 then [DigitChar(n)] else Digits(n / 10) + [DigitChar(n % 10)]
  }

  /** `BigInt(s)` of a digit string. */
  function ValueOf(s: string): nat
    requires AllDigits(s)
  {
    if s == [] then 0 else 10 * ValueOf(s[..|s| - 1]) + DigitValue(s[|s| - 1])
  }

  function Zeros(n: nat): (s: string)
    ensures |s| == n && AllDigits(s)
  {
    seq(n, _ => '0')
  }

  function PadStart(s: string, width: nat): (r: string)
    requires AllDigits(s)
    ensures AllDigits(r) && |r| >= width && |r| >= |s|
  {
    if |s| >= width then s else Zeros(width - |s|) + s
  }

  function PadEnd(s: string, width: nat): (r: string)
    requires AllDigits(s)
    ensures AllDigits(r)
  {
    if |s| >= width then s else s + Zeros(width - |s|)
  }

  // ---- printing --------------------------------------------------------------------

  function Abs(v: int): nat { if v < 0 then -v else v }

  /** `minorUnitsToDecimal`. */
  function MinorUnitsToDecimal(value: int, decimals: nat): string {
    var digits := PadStart(Digits(Abs(value)), decimals + 1);
    var whole := digits[..|digits| - decimals];
    var fraction := if decimals > 0 then digits[|digits| - decimals..] else "";
    var sign := if value < 0 then "-" else "";
    if fraction != "" then sign + whole + "." + fraction else sign + whole
  }

  // ---- parsing ----------------------------------------------------------------------

  /** The characters `String.prototype.trim` removes. */
  predicate IsSpace(c: char) {
    || '\U{0009}' <= c <= '\U{000D}' || c == ' ' || c == '\U{00A0}' || c == '\U{1680}'
    || '\U{2000}' <= c <= '\U{200A}' || c == '\U{2028}' || c == '\U{2029}' || c == '\U{202F}'
    || c == '\U{205F}' || c == '\U{3000}' || c == '\U{FEFF}'
  }

  function TrimStart(s: string): string {
    if s != [] && IsSpace(s[0]) then TrimStart(s[1..]) else s
  }

  function TrimEnd(s: string): string {
    if s != [] && IsSpace(s[|s| - 1]) then TrimEnd(s[..|s| - 1]) else s
  }

  function Trim(s: string): string { TrimEnd(TrimStart(s)) }

  /** The groups of `^(-?)(\d+)(?:\.(\d+))?$`. */
  datatype Decimal = Decimal(negative: bool, whole: string, fraction: string)

  /** How many leading characters are digits. */
  function DigitRun(s: string): (n: nat)
    ensures n <= |s| && AllDigits(s[..n]) && (n < |s| ==> !IsDigit(s[n]))
  {
    if s == [] || !IsDigit(s[0]) then 0 else 1 + DigitRun(s[1..])
  }

  function MatchUnsigned(negative: bool, body: string): (r: Option<Decimal>)
    ensures r.Some? ==> AllDigits(r.value.whole) && AllDigits(r.value.fraction)
  {
    var n := DigitRun(body);
    var rest := body[n..];
    if n == 0 then None
    else if rest == [] then Some(Decimal(negative, body[..n], ""))
    else if rest[0] == '.' && |rest| > 1 && AllDigits(rest[1..]) then Some(Decimal(negative, body[..n], rest[1..]))
    else None
  }

  function MatchDecimal(s: string): (r: Option<Decimal>)
    ensures r.Some? ==> AllDigits(r.value.whole) && AllDigits(r.value.fraction)
  {
    if s != [] && s[0] == '-' then MatchUnsigned(true, s[1..]) else MatchUnsigned(false, s)
  }

  datatype ParseResult = Amount(value: int) | Malformed | TooPrecise

  function ScaledValue(d: Decimal, decimals: nat): int
    requires AllDigits(d.whole) && AllDigits(d.fraction)
  {
    var magnitude: int := ValueOf(d.whole + PadEnd(d.fraction, decimals));
    if d.negative then -magnitude else magnitude
  }

  /** `decimalToMinorUnits`; its two exceptions are the two failures. */
  function DecimalToMinorUnits(value: string, decimals: nat): ParseResult {
    match MatchDecimal(Trim(value))
    case None => Malformed
    case Some(d) =>
      if |d.fraction| > decimals then TooPrecise else Amount(ScaledValue(d, decimals))
  }

  // ---- the accepted strings, declaratively ----------------------------------------------

  /** Whole digits, and a point only before a fraction. */
  function Unsigned(d: Decimal): string { d.whole + if d.fraction == [] then "" else "." + d.fraction }

  /** The text of a decimal: the sign first. */
  function Written(d: Decimal): string { if d.negative then "-" + Unsigned(d) else Unsigned(d) }

  ghost predicate WellFormed(d: Decimal) {
    d.whole != [] && AllDigits(d.whole) && AllDigits(d.fraction)
  }

  lemma {:induction false} DigitRunOf(digits: string, rest: string)
    requires AllDigits(digits) && (rest == [] || !IsDigit(rest[0]))
    ensures DigitRun(digits + rest) == |digits|
  {
    if digits == [] {
      assert digits + rest == rest;
    } else {
      DigitRunOf(digits[1..], rest);
      assert (digits + rest)[1..] == digits[1..] + rest;
    }
  }

  lemma UnsignedMatches(d: Decimal)
    requires WellFormed(d)
    ensures MatchUnsigned(d.negative, Unsigned(d)) == Some(d)
  {
    var tail := if d.fraction == [] then "" else "." + d.fraction;
    var body := Unsigned(d);
    DigitRunOf(d.whole, tail);
    assert body[..|d.whole|] == d.whole && body[|d.whole|..] == tail;
    if d.fraction != [] { assert tail[1..] == d.fraction; }
  }

  lemma MatchedUnsigned(negative: bool, body: string, d: Decimal)
    requires MatchUnsigned(negative, body) == Some(d)
    ensures WellFormed(d) && d.negative == negative && body == Unsigned(d)
  {
    var n := DigitRun(body);
    assert body == body[..n] + body[n..];
    if body[n..] != [] { assert body[n..] == "." + d.fraction; }
  }

  lemma MatchWritten(d: Decimal)
    requires WellFormed(d)
    ensures MatchDecimal(Written(d)) == Some(d)
  {
    UnsignedMatches(d);
    if d.negative {
      assert Written(d)[1..] == Unsigned(d);
    } else {
      assert Unsigned(d)[0] == d.whole[0] && IsDigit(d.whole[0]);
    }
  }

  lemma MatchedIsWritten(s: string, d: Decimal)
    requires MatchDecimal(s) == Some(d)
    ensures WellFormed(d) && s == Written(d)
  {
    if s != [] && s[0] == '-' {
      MatchedUnsigned(true, s[1..], d);
      assert s == "-" + s[1..];
    } else {
      MatchedUnsigned(false, s, d);
    }
  }

  /** The parser accepts exactly the written decimals, and reads back what was written. */
  lemma MatchesExactly(s: string, d: Decimal)
    ensures MatchDecimal(s) == Some(d) <==> WellFormed(d) && s == Written(d)
  {
    if MatchDecimal(s) == Some(d) { MatchedIsWritten(s, d); }
    if WellFormed(d) && s == Written(d) { MatchWritten(d); }
  }

  // ---- values of digit strings ---------------------------------------------------------------

  lemma {:induction false} ValueOfDigits(n: nat)
    ensures ValueOf(Digits(n)) == n
  {
    if n < 10 {
      assert Digits(n)[..0] == [];
    } else {
      ValueOfDigits(n / 10);
      assert Digits(n)[..|Digits(n)| - 1] == Digits(n / 10);
    }
  }

  lemma {:induction false} LeadingZeros(k: nat, s: string)
    requires AllDigits(s)
    ensures ValueOf(Zeros(k) + s) == ValueOf(s)
  {
    if s == [] {
      assert Zeros(k) + s == Zeros(k);
      ValueOfZeros(k);
    } else {
      LeadingZeros(k, s[..|s| - 1]);
      assert (Zeros(k) + s)[..|Zeros(k) + s| - 1] == Zeros(k) + s[..|s| - 1];
    }
  }

  lemma {:induction false} ValueOfZeros(k: nat)
    ensures ValueOf(Zeros(k)) == 0
  {
    if k > 0 {
      ValueOfZeros(k - 1);
      assert Zeros(k)[..k - 1] == Zeros(k - 1);
    }
  }

  lemma PaddedValue(n: nat, width: nat)
    ensures ValueOf(PadStart(Digits(n), width)) == n
  {
    ValueOfDigits(n);
    if |Digits(n)| < width { LeadingZeros(width - |Digits(n)|, Digits(n)); }
  }

  /** A digit string without a leading zero is the print of its value. */
  lemma {:induction false} DigitsUnique(s: string)
    requires AllDigits(s) && s != [] && (s[0] == '0' ==> |s| == 1)
    ensures Digits(ValueOf(s)) == s
  {
    var front, last := s[..|s| - 1], s[|s| - 1];
    if front == [] {
      assert s == [DigitChar(DigitValue(last))];
    } else {
      DigitsUnique(front);
      var v := ValueOf(front);
      PositiveValue(front);
      assert ValueOf(s) == 10 * v + DigitValue(last);
      assert ValueOf(s) / 10 == v && ValueOf(s) % 10 == DigitValue(last);
      assert DigitChar(DigitValue(last)) == last;
    }
  }

  lemma {:induction false} PositiveValue(s: string)
    requires AllDigits(s) && s != [] && s[0] != '0'
    ensures ValueOf(s) > 0
  {
    if |s| == 1 {
      assert s[..0] == [];
    } else {
      PositiveValue(s[..|s| - 1]);
    }
  }

  /** A digit string of at least `width` digits, with leading zeros only to fill the
      width, is the padded print of its value. */
  lemma {:induction false} PaddedUnique(s: string, width: nat)
    requires AllDigits(s) && |s| >= width >= 1 && (s[0] == '0' ==> |s| == width)
    ensures PadStart(Digits(ValueOf(s)), width) == s
  {
    if s[0] != '0' || |s| == 1 {
      DigitsUnique(s);
    } else {
      assert s == Zeros(1) + s[1..];
      LeadingZeros(1, s[1..]);
      if s[1] != '0' || |s| == 2 {
        DigitsUnique(s[1..]);
      } else {
        PaddedUnique(s[1..], width - 1);
        OneMoreZero(s[1..], Digits(ValueOf(s)), width - 1);
      }
    }
  }

  lemma OneMoreZero(s: string, d: string, width: nat)
    requires |s| == width > 1 && s[0] == '0' && d != [] && AllDigits(d) && (d[0] == '0' ==> d == "0")
    requires PadStart(d, width) == s
    ensures PadStart(d, width + 1) == Zeros(1) + s
  {
    assert |d| < width;
    assert Zeros(1) + Zeros(width - |d|) == Zeros(width + 1 - |d|);
  }

  // ---- the printed decimal ---------------------------------------------------------------------

  /** The groups of a printed amount. */
  function Parts(value: int, decimals: nat): Decimal {
    var digits := PadStart(Digits(Abs(value)), decimals + 1);
    Decimal(value < 0, digits[..|digits| - decimals], digits[|digits| - decimals..])
  }

  lemma PrintForm(negative: bool, whole: string, fraction: string)
    ensures var sign := if negative then "-" else "";
            (if fraction != "" then sign + whole + "." + fraction else sign + whole)
                == Written(Decimal(negative, whole, fraction))
  {
    assert "-" + whole + "." + fraction == "-" + (whole + ("." + fraction));
    assert "" + whole + "." + fraction == whole + ("." + fraction);
    assert whole + "" == whole && "" + whole == whole;
  }

  lemma PartsValue(value: int, decimals: nat)
    ensures WellFormed(Parts(value, decimals)) && |Parts(value, decimals).fraction| == decimals
    ensures ScaledValue(Parts(value, decimals), decimals) == value
  {
    var digits := PadStart(Digits(Abs(value)), decimals + 1);
    var d := Parts(value, decimals);
    assert d.whole + PadEnd(d.fraction, decimals) == digits;
    PaddedValue(Abs(value), decimals + 1);
  }

  lemma PrintIsWritten(value: int, decimals: nat)
    ensures MinorUnitsToDecimal(value, decimals) == Written(Parts(value, decimals))
  {
    var d := Parts(value, decimals);
    assert d.fraction == "" <==> decimals == 0;
    PrintForm(value < 0, d.whole, d.fraction);
  }

  lemma TrimWritten(d: Decimal)
    requires WellFormed(d)
    ensures Trim(Written(d)) == Written(d)
  {
    var s := Written(d);
    assert s[0] == if d.negative then '-' else d.whole[0];
    assert s[|s| - 1] == if d.fraction == [] then d.whole[|d.whole| - 1] else d.fraction[|d.fraction| - 1];
  }

  /** Round trip, for every integer and every precision. */
  lemma PrintThenParse(value: int, decimals: nat)
    ensures DecimalToMinorUnits(MinorUnitsToDecimal(value, decimals), decimals) == Amount(value)
  {
    PartsValue(value, decimals);
    PrintIsWritten(value, decimals);
    TrimWritten(Parts(value, decimals));
    MatchWritten(Parts(value, decimals));
  }

  /** The canonical text of an amount: exactly `decimals` fraction digits, no superfluous
      leading zero, and no negative zero. */
  ghost predicate Canonical(s: string, decimals: nat) {
    exists d: Decimal :: WellFormed(d) && s == Written(d) && IsCanonical(d, decimals)
  }

  ghost predicate IsCanonical(d: Decimal, decimals: nat)
    requires WellFormed(d)
  {
    && |d.fraction| == decimals
    && (d.whole[0] == '0' ==> |d.whole| == 1)
    && (d.negative ==> ScaledValue(d, decimals) != 0)
  }

  lemma PrintIsCanonical(value: int, decimals: nat)
    ensures Canonical(MinorUnitsToDecimal(value, decimals), decimals)
  {
    PartsValue(value, decimals);
    PrintIsWritten(value, decimals);
    var d := Parts(value, decimals);
    var n := Digits(Abs(value));
    if |n| >= decimals + 1 { assert d.whole[0] == n[0]; }
    assert IsCanonical(d, decimals);
  }

  lemma CanonicalParts(d: Decimal, decimals: nat)
    requires WellFormed(d) && IsCanonical(d, decimals)
    ensures Parts(ScaledValue(d, decimals), decimals) == d
  {
    var s := d.whole + d.fraction;
    assert PadEnd(d.fraction, decimals) == d.fraction;
    PaddedUnique(s, decimals + 1);
    assert Abs(ScaledValue(d, decimals)) == ValueOf(s);
    assert s[..|s| - decimals] == d.whole && s[|s| - decimals..] == d.fraction;
  }

  /** Printing what was parsed gives the canonical text of the amount: the print is
      canonical, it parses to the same amount, and it is the only canonical text that does. */
  lemma ParseThenPrint(s: string, decimals: nat, other: string)
    requires DecimalToMinorUnits(s, decimals).Amount?
    ensures var v := DecimalToMinorUnits(s, decimals).value;
            var printed := MinorUnitsToDecimal(v, decimals);
            && Canonical(printed, decimals)
            && DecimalToMinorUnits(printed, decimals) == Amount(v)
            && (Canonical(other, decimals) && DecimalToMinorUnits(other, decimals) == Amount(v) ==> other == printed)
  {
    var v := DecimalToMinorUnits(s, decimals).value;
    PrintThenParse(v, decimals);
    PrintIsCanonical(v, decimals);
    if Canonical(other, decimals) && DecimalToMinorUnits(other, decimals) == Amount(v) {
      var d: Decimal :| WellFormed(d) && other == Written(d) && IsCanonical(d, decimals);
      TrimWritten(d);
      MatchWritten(d);
      CanonicalParts(d, decimals);
      PartsValue(v, decimals);
      PrintIsWritten(v, decimals);
    }
  }

  // ---- the threshold of an export job -----------------------------------------------------------

  /** The threshold an asynchronous job filters with: the stored text, parsed; an empty
      text counts as absent. */
  function JobThreshold(stored: string, decimals: nat): ParseResult {
    if stored != "" then DecimalToMinorUnits(stored, decimals) else Amount(0)
  }

  /** Queueing an export does not change its filter. */
  lemma AsyncThresholdIsInline(threshold: int, decimals: nat)
    ensures JobThreshold(MinorUnitsToDecimal(threshold, decimals), decimals) == Amount(threshold)
  {
    PrintThenParse(threshold, decimals);
    PartsValue(threshold, decimals);
    PrintIsWritten(threshold, decimals);
  }
}
