/** Multiplication by powers of ten, as repeated scaling by ten in either direction. */
module Scaling {

  /** x * 10^e */
  function Scale(x: real, e: int): real
    decreases if e < 0 then 0 - e else e
  {
    if e == 0 then x else if e > 0 then 10.0 * Scale(x, e - 1) else Scale(x, e + 1) / 10.0
  }

  /** n * 10^k on natural numbers. */
  function ScaleNat(n: nat, k: nat): nat {
    if k == 0 then n else 10 * ScaleNat(n, k - 1)
  }

  lemma ScaleStep(x: real, e: int)
    ensures Scale(x, e + 1) == 10.0 * Scale(x, e)
  {
  }

  lemma {:induction false} ScaleTwice(x: real, a: int, b: int)
    ensures Scale(Scale(x, a), b) == Scale(x, a + b)
    decreases if b < 0 then 0 - b else b
  {
    if b > 0 {
      ScaleTwice(x, a, b - 1);
      ScaleStep(x, a + (b - 1));
    } else if b < 0 {
      ScaleTwice(x, a, b + 1);
      ScaleStep(x, a + b);
    }
  }

  lemma {:induction false} ScaleAdds(x: real, y: real, e: int)
    ensures Scale(x + y, e) == Scale(x, e) + Scale(y, e)
    decreases if e < 0 then 0 - e else e
  {
    if e > 0 { ScaleAdds(x, y, e - 1); } else if e < 0 { ScaleAdds(x, y, e + 1); }
  }

  lemma {:induction false} ScaleZero(e: int)
    ensures Scale(0.0, e) == 0.0
    decreases if e < 0 then 0 - e else e
  {
    if e > 0 { ScaleZero(e - 1); } else if e < 0 { ScaleZero(e + 1); }
  }

  lemma {:induction false} ScalePositive(x: real, e: int)
    requires x > 0.0
    ensures Scale(x, e) > 0.0
    decreases if e < 0 then 0 - e else e
  {
    if e > 0 { ScalePositive(x, e - 1); } else if e < 0 { ScalePositive(x, e + 1); }
  }

  lemma ScaleInjective(x: real, y: real, e: int)
    requires Scale(x, e) == Scale(y, e)
    ensures x == y
  {
    ScaleTwice(x, e, 0 - e);
    ScaleTwice(y, e, 0 - e);
  }

  lemma {:induction false} ScaleNatIsScale(n: nat, k: nat)
    ensures Scale(n as real, k) == ScaleNat(n, k) as real
  {
    if k > 0 { ScaleNatIsScale(n, k - 1); }
  }
}

/** Arbitrary-precision normalisation of number tokens (apps/api/src/cutover-preflight.ts). */
module Decimal {
  import opened Common
  import opened CodeUnits
  import opened NumberToken
  import opened Scaling

  datatype NormalizedNumber = NormalizedNumber(sign: int, significantDigits: nat, decimalExponent: int)

  const NORMAL_ZERO := NormalizedNumber(0, 0, 0)

  // --- What a token denotes: the positional reading of its digits, scaled by its exponent ---

  /** 0.d1d2d3... */
  function FractionValue(s: Str): real
    requires AllDigits(s)
  {
    if |s| == 0 then 0.0 else ((s[0] - ZERO) as real + FractionValue(s[1..])) / 10.0
  }

  function Signed(negative: bool, magnitude: real): real {
    if negative then 0.0 - magnitude else magnitude
  }

  function PartsValue(p: NumberParts): real
    requires p.Valid()
  {
    Signed(p.negative, Scale(DigitsValue(p.integer) as real + FractionValue(p.fraction), p.exponent))
  }

  /** The rational number a token denotes. */
  function TokenValue(token: Str): real
    requires ParseNumber(token).Some?
  {
    PartsValue(ParseNumber(token).value)
  }

  /** sign * significantDigits * 10^decimalExponent */
  function NormalizedValue(n: NormalizedNumber): real {
    if n.sign == 0 then 0.0
    else Signed(n.sign < 0, Scale(n.significantDigits as real, n.decimalExponent))
  }

  // --- normalizeJsonNumber ---

  function StripLeadingZeros(s: Str): (r: Str)
    requires AllDigits(s)
    ensures AllDigits(r) && (|r| > 0 ==> r[0] != ZERO)
  {
    if |s| > 0 && s[0] == ZERO then StripLeadingZeros(s[1..]) else s
  }

  function StripTrailingZeros(s: Str): (r: Str)
    requires AllDigits(s)
    ensures AllDigits(r) && |r| <= |s| && (|r| > 0 ==> r[|r| - 1] != ZERO)
  {
    if |s| > 0 && s[|s| - 1] == ZERO then StripTrailingZeros(s[..|s| - 1]) else s
  }

  function AllDigitsOf(p: NumberParts): (r: Str)
    requires p.Valid()
    ensures AllDigits(r)
  {
    p.integer + p.fraction
  }

  function NormalizeParts(p: NumberParts): NormalizedNumber
    requires p.Valid()
  {
    var digits := StripLeadingZeros(AllDigitsOf(p));
    if |digits| == 0 then NORMAL_ZERO else
      var significant := StripTrailingZeros(digits);
      NormalizedNumber(if p.negative then -1 else 1, DigitsValue(significant),
                       p.exponent - |p.fraction| + (|digits| - |significant|))
  }

  /** None is the exception thrown for text that is not a JSON number. */
  function Normalize(token: Str): Option<NormalizedNumber> {
    match ParseNumber(token)
    case None => None
    case Some(p) => Some(NormalizeParts(p))
  }

  // --- Digit strings ---

  lemma {:induction false} DigitsValueAppend(a: Str, b: Str)
    requires AllDigits(a) && AllDigits(b)
    ensures DigitsValue(a + b) == ScaleNat(DigitsValue(a), |b|) + DigitsValue(b)
  {
    if |b| == 0 {
      assert a + b == a;
    } else {
      assert (a + b)[..|a + b| - 1] == a + b[..|b| - 1];
      DigitsValueAppend(a, b[..|b| - 1]);
    }
  }

  lemma DigitsValueOfOne(s: Str)
    requires AllDigits(s) && |s| == 1
    ensures DigitsValue(s) == s[0] - ZERO
  {
    assert DigitsValue(s[..0]) == 0;
  }

  lemma DigitsValueCons(s: Str)
    requires AllDigits(s) && |s| > 0
    ensures DigitsValue(s) == ScaleNat(s[0] - ZERO, |s| - 1) + DigitsValue(s[1..])
  {
    hide DigitsValue;
    hide ScaleNat;
    assert s == s[..1] + s[1..];
    DigitsValueAppend(s[..1], s[1..]);
    DigitsValueOfOne(s[..1]);
  }

  lemma {:induction false} FractionValueIsScaled(s: Str)
    requires AllDigits(s)
    ensures Scale(FractionValue(s), |s|) == DigitsValue(s) as real
  {
    if |s| > 0 {
      var h, f, k := (s[0] - ZERO) as real, FractionValue(s[1..]), |s| - 1;
      FractionValueIsScaled(s[1..]);
      DigitsValueCons(s);
      ScaleNatIsScale(s[0] - ZERO, k);
      ScaleAdds(h, f, k);
      ScaleTwice((h + f) / 10.0, 1, k);
      assert Scale((h + f) / 10.0, 1) == h + f by { assert Scale((h + f) / 10.0, 0) == (h + f) / 10.0; }
    }
  }

  lemma {:induction false} ScaleNatZero(k: nat)
    ensures ScaleNat(0, k) == 0
  {
    if k > 0 { ScaleNatZero(k - 1); }
  }

  lemma {:induction false} StripLeadingKeepsValue(s: Str)
    requires AllDigits(s)
    ensures DigitsValue(StripLeadingZeros(s)) == DigitsValue(s)
  {
    if |s| > 0 && s[0] == ZERO {
      DigitsValueCons(s);
      ScaleNatZero(|s| - 1);
      StripLeadingKeepsValue(s[1..]);
    }
  }

  lemma {:induction false} StripTrailingScales(s: Str)
    requires AllDigits(s)
    ensures DigitsValue(s) == ScaleNat(DigitsValue(StripTrailingZeros(s)), |s| - |StripTrailingZeros(s)|)
  {
    if |s| > 0 && s[|s| - 1] == ZERO {
      StripTrailingScales(s[..|s| - 1]);
    }
  }

  lemma {:induction false} LeadingDigitMakesPositive(s: Str)
    requires AllDigits(s) && |s| > 0 && s[0] != ZERO
    ensures DigitsValue(s) > 0
  {
    if |s| > 1 { LeadingDigitMakesPositive(s[..|s| - 1]); }
  }

  // --- Soundness and uniqueness ---

  /** Zero is one triple; any other number has a sign and a significand that ten does not divide. */
  predicate Normal(n: NormalizedNumber) {
    n == NORMAL_ZERO || ((n.sign == 1 || n.sign == -1) && n.significantDigits % 10 != 0)
  }

  lemma NormalizeIsNormal(p: NumberParts)
    requires p.Valid()
    ensures Normal(NormalizeParts(p))
  {
    var digits := StripLeadingZeros(AllDigitsOf(p));
    if |digits| > 0 {
      LeadingDigitMakesPositive(digits);
      StripTrailingScales(digits);
      var significant := StripTrailingZeros(digits);
      ScaleNatZero(|digits| - |significant|);
      assert DigitsValue(significant) % 10 == significant[|significant| - 1] - ZERO;
    }
  }

  /** Scaled past its fraction, a token's magnitude is its digits read as one integer. */
  lemma FractionShifts(p: NumberParts)
    requires p.Valid()
    ensures Scale(DigitsValue(p.integer) as real + FractionValue(p.fraction), |p.fraction|)
         == DigitsValue(AllDigitsOf(p)) as real
  {
    ScaleAdds(DigitsValue(p.integer) as real, FractionValue(p.fraction), |p.fraction|);
    DigitsValueAppend(p.integer, p.fraction);
    ScaleNatIsScale(DigitsValue(p.integer), |p.fraction|);
    FractionValueIsScaled(p.fraction);
  }

  lemma MagnitudeIsDigits(p: NumberParts)
    requires p.Valid()
    ensures Scale(DigitsValue(p.integer) as real + FractionValue(p.fraction), p.exponent)
         == Scale(DigitsValue(StripLeadingZeros(AllDigitsOf(p))) as real, p.exponent - |p.fraction|)
  {
    var magnitude := DigitsValue(p.integer) as real + FractionValue(p.fraction);
    hide *;
    FractionShifts(p);
    StripLeadingKeepsValue(AllDigitsOf(p));
    ScaleTwice(magnitude, |p.fraction|, p.exponent - |p.fraction|);
  }

  lemma StrippedMagnitude(digits: Str, e: int)
    requires AllDigits(digits)
    ensures var significant := StripTrailingZeros(digits);
      Scale(DigitsValue(digits) as real, e) == Scale(DigitsValue(significant) as real, e + (|digits| - |significant|))
  {
    var significant := StripTrailingZeros(digits);
    var k := |digits| - |significant|;
    StripTrailingScales(digits);
    ScaleNatIsScale(DigitsValue(significant), k);
    ScaleTwice(DigitsValue(significant) as real, k, e);
    hide *;
  }

  lemma NormalizeKeepsValue(p: NumberParts)
    requires p.Valid()
    ensures NormalizedValue(NormalizeParts(p)) == PartsValue(p)
  {
    var digits := StripLeadingZeros(AllDigitsOf(p));
    var e := p.exponent - |p.fraction|;
    MagnitudeIsDigits(p);
    if |digits| == 0 {
      assert DigitsValue(digits) == 0;
      ScaleZero(e);
    } else {
      StrippedMagnitude(digits, e);
    }
    hide StripLeadingZeros;
    hide StripTrailingZeros;
    hide DigitsValue;
    hide FractionValue;
    hide Scale;
  }

  /** d * 10^e with d not divisible by ten determines both d and e. */
  lemma ScaledIntegerIsUnique(d1: nat, e1: int, d2: nat, e2: int)
    requires d1 % 10 != 0 && d2 % 10 != 0 && e1 <= e2
    requires Scale(d1 as real, e1) == Scale(d2 as real, e2)
    ensures d1 == d2 && e1 == e2
  {
    ScaleTwice(d2 as real, e2 - e1, e1);
    ScaleInjective(d1 as real, Scale(d2 as real, e2 - e1), e1);
    ScaleNatIsScale(d2, e2 - e1);
    assert d1 == ScaleNat(d2, e2 - e1);
  }

  lemma NormalFormIsUnique(a: NormalizedNumber, b: NormalizedNumber)
    requires Normal(a) && Normal(b) && NormalizedValue(a) == NormalizedValue(b)
    ensures a == b
  {
    if a.sign != 0 { ScalePositive(a.significantDigits as real, a.decimalExponent); }
    if b.sign != 0 { ScalePositive(b.significantDigits as real, b.decimalExponent); }
    assert a.sign == b.sign;
    if a.sign != 0 {
      if a.decimalExponent <= b.decimalExponent {
        ScaledIntegerIsUnique(a.significantDigits, a.decimalExponent, b.significantDigits, b.decimalExponent);
      } else {
        ScaledIntegerIsUnique(b.significantDigits, b.decimalExponent, a.significantDigits, a.decimalExponent);
      }
    }
  }

  /** Two tokens normalise to the same triple exactly when they denote the same rational. */
  lemma NormalizeDecidesEquality(left: Str, right: Str)
    requires ParseNumber(left).Some? && ParseNumber(right).Some?
    ensures Normalize(left) == Normalize(right) <==> TokenValue(left) == TokenValue(right)
  {
    var p, q := ParseNumber(left).value, ParseNumber(right).value;
    NormalizeKeepsValue(p);
    NormalizeKeepsValue(q);
    if TokenValue(left) == TokenValue(right) {
      NormalizeIsNormal(p);
      NormalizeIsNormal(q);
      NormalFormIsUnique(NormalizeParts(p), NormalizeParts(q));
    }
  }
}
