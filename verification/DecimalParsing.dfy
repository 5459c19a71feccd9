/** What every text denotes: the parser of amounts against positional notation. */
module DecimalParsing {
  import opened Prelude
  import opened DecimalAmount

  function Pow10(n: nat): nat { if n == 0 then 1 else 10 * Pow10(n - 1) }

  lemma Rescale(front: nat, power: nat, back: nat, digit: nat)
    ensures 10 * (front * power + back) + digit == front * (10 * power) + (10 * back + digit)
  {
  }

  /** Appending digits shifts the value. */
  lemma {:induction false} ValueOfConcat(a: string, b: string)
    requires AllDigits(a) && AllDigits(b)
    ensures ValueOf(a + b) == ValueOf(a) * Pow10(|b|) + ValueOf(b)
  {
    if b == [] {
      assert a + b == a;
    } else {
      var front, last := b[..|b| - 1], b[|b| - 1];
      ValueOfConcat(a, front);
      assert (a + b)[..|a + b| - 1] == a + front;
      Rescale(ValueOf(a), Pow10(|front|), ValueOf(front), DigitValue(last));
    }
  }

  /** The number a decimal denotes, in units of 10^-decimals. */
  function Denoted(d: Decimal, decimals: nat): int
    requires WellFormed(d) && |d.fraction| <= decimals
  {
    var magnitude: int := ValueOf(d.whole) * Pow10(decimals) + ValueOf(d.fraction) * Pow10(decimals - |d.fraction|);
    if d.negative then -magnitude else magnitude
  }

  lemma ScaledIsDenoted(d: Decimal, decimals: nat)
    requires WellFormed(d) && |d.fraction| <= decimals
    ensures ScaledValue(d, decimals) == Denoted(d, decimals)
  {
    var zeros := Zeros(decimals - |d.fraction|);
    var padded := PadEnd(d.fraction, decimals);
    assert d.fraction + Zeros(0) == d.fraction;
    assert padded == d.fraction + zeros;
    ValueOfConcat(d.whole, padded);
    ValueOfConcat(d.fraction, zeros);
    ValueOfZeros(|zeros|);
  }

  // ---- surrounding white space -----------------------------------------------------------

  /** The white space and line terminators of ECMAScript, by code point. */
  const WHITE_SPACE: set<int> := {
    0x9, 0xA, 0xB, 0xC, 0xD, 0x20, 0xA0, 0x1680, 0x2000, 0x2001, 0x2002, 0x2003, 0x2004, 0x2005, 0x2006, 0x2007, 0x2008,
    0x2009, 0x200A, 0x2028, 0x2029, 0x202F, 0x205F, 0x3000, 0xFEFF
  }

  lemma SpacesAreListed(c: char)
    ensures IsSpace(c) <==> c as int in WHITE_SPACE
  {
  }

  ghost predicate AllSpace(s: string) { forall i :: 0 <= i < |s| ==> s[i] as int in WHITE_SPACE }

  lemma {:induction false} TrimStartDrops(pre: string, t: string)
    requires AllSpace(pre) && t != [] && !IsSpace(t[0])
    ensures TrimStart(pre + t) == t
  {
    if pre == [] {
      assert pre + t == t;
    } else {
      SpacesAreListed(pre[0]);
      TrimStartDrops(pre[1..], t);
      assert (pre + t)[1..] == pre[1..] + t;
    }
  }

  lemma {:induction false} TrimEndDrops(t: string, post: string)
    requires AllSpace(post) && t != [] && !IsSpace(t[|t| - 1])
    ensures TrimEnd(t + post) == t
  {
    if post == [] {
      assert t + post == t;
    } else {
      SpacesAreListed(post[|post| - 1]);
      TrimEndDrops(t, post[..|post| - 1]);
      assert (t + post)[..|t + post| - 1] == t + post[..|post| - 1];
    }
  }

  lemma {:induction false} TrimStartSplits(s: string) returns (pre: string)
    ensures s == pre + TrimStart(s) && AllSpace(pre)
  {
    if s != [] && IsSpace(s[0]) {
      SpacesAreListed(s[0]);
      pre := TrimStartSplits(s[1..]);
      assert s == [s[0]] + s[1..];
      pre := [s[0]] + pre;
    } else {
      pre := [];
    }
  }

  lemma {:induction false} TrimEndSplits(s: string) returns (post: string)
    ensures s == TrimEnd(s) + post && AllSpace(post)
  {
    if s != [] && IsSpace(s[|s| - 1]) {
      SpacesAreListed(s[|s| - 1]);
      post := TrimEndSplits(s[..|s| - 1]);
      assert s == s[..|s| - 1] + [s[|s| - 1]];
      post := post + [s[|s| - 1]];
    } else {
      post := [];
    }
  }

  // ---- what a text denotes ---------------------------------------------------------------

  ghost predicate Surrounds(pre: string, s: string, d: Decimal, post: string) {
    AllSpace(pre) && AllSpace(post) && s == pre + Written(d) + post
  }

  /** The text is the decimal `d` between white space. */
  ghost predicate Denotes(s: string, d: Decimal) {
    WellFormed(d) && exists pre, post :: Surrounds(pre, s, d, post)
  }

  lemma TrimDenoted(s: string, d: Decimal)
    requires Denotes(s, d)
    ensures Trim(s) == Written(d)
  {
    var pre, post :| Surrounds(pre, s, d, post);
    var w := Written(d);
    assert w[0] == if d.negative then '-' else d.whole[0];
    assert w[|w| - 1] == if d.fraction == [] then d.whole[|d.whole| - 1] else d.fraction[|d.fraction| - 1];
    assert s == pre + (w + post);
    TrimStartDrops(pre, w + post);
    TrimEndDrops(w, post);
  }

  /** The parser, exactly, on every text that is a decimal between white space: too precise if it
      has more fraction digits than the precision, and otherwise the number it denotes,
      with missing fraction digits read as zeros. */
  lemma ParseExactly(s: string, d: Decimal, decimals: nat)
    requires Denotes(s, d)
    ensures DecimalToMinorUnits(s, decimals)
         == if |d.fraction| > decimals then TooPrecise else Amount(Denoted(d, decimals))
  {
    TrimDenoted(s, d);
    MatchWritten(d);
    if |d.fraction| <= decimals { ScaledIsDenoted(d, decimals); }
  }

  /** And every other text is malformed. */
  lemma MalformedExactly(s: string, decimals: nat)
    ensures DecimalToMinorUnits(s, decimals) == Malformed <==> forall d :: !Denotes(s, d)
  {
    forall d | Denotes(s, d) ensures DecimalToMinorUnits(s, decimals) != Malformed {
      ParseExactly(s, d, decimals);
    }
    if DecimalToMinorUnits(s, decimals) != Malformed {
      var d := MatchDecimal(Trim(s)).value;
      MatchesExactly(Trim(s), d);
      var pre := TrimStartSplits(s);
      var post := TrimEndSplits(TrimStart(s));
      assert s == pre + Written(d) + post by { assert s == pre + (Written(d) + post); }
      assert Surrounds(pre, s, d, post);
      assert Denotes(s, d);
    }
  }
}
