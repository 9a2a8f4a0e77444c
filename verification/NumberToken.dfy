/** JavaScript strings as UTF-16 code units, and the ASCII units that JSON numbers are made of. */
module CodeUnits {

  type CodeUnit = n: nat | n < 0x10000
  type Str = seq<CodeUnit>

  const QUOTE: CodeUnit := 34
  const PLUS: CodeUnit := 43
  const COMMA: CodeUnit := 44
  const MINUS: CodeUnit := 45
  const DOT: CodeUnit := 46
  const ZERO: CodeUnit := 48
  const NINE: CodeUnit := 57
  const COLON: CodeUnit := 58
  const UPPER_E: CodeUnit := 69
  const LEFT_BRACKET: CodeUnit := 91
  const BACKSLASH: CodeUnit := 92
  const RIGHT_BRACKET: CodeUnit := 93
  const LOWER_E: CodeUnit := 101
  const LEFT_BRACE: CodeUnit := 123
  const RIGHT_BRACE: CodeUnit := 125

  predicate IsDigit(c: CodeUnit) {
    ZERO <= c <= NINE
  }

  predicate AllDigits(s: Str) {
    forall i :: 0 <= i < |s| ==> IsDigit(s[i])
  }

  /** The units that may follow inside a number: a token ends before anything else. */
  predicate IsNumberUnit(c: CodeUnit) {
    IsDigit(c) || c == DOT || c == LOWER_E || c == UPPER_E || c == PLUS || c == MINUS
  }

  /** `s` cannot extend a number token that ends where `s` starts. */
  predicate EndsNumber(s: Str) {
    |s| == 0 || !IsNumberUnit(s[0])
  }
}

/** The number token of RFC 8259 section 6, as the two regular expressions of the preflight read it. */
module NumberToken {
  import opened Common
  import opened CodeUnits

  // --- The grammar: number = [ minus ] int [ frac ] [ exp ] ---

  datatype ExponentSyntax = ExponentSyntax(marker: CodeUnit, sign: Option<CodeUnit>, digits: Str)

  datatype NumberSyntax = NumberSyntax(
    minus: bool, integer: Str, fraction: Option<Str>, exponent: Option<ExponentSyntax>)
  {
    predicate Valid() {
      && AllDigits(integer) && |integer| > 0 && (integer[0] == ZERO ==> |integer| == 1)
      && (fraction.Some? ==> AllDigits(fraction.value) && |fraction.value| > 0)
      && (exponent.Some? ==>
            && (exponent.value.marker == LOWER_E || exponent.value.marker == UPPER_E)
            && (exponent.value.sign.Some? ==> exponent.value.sign.value == PLUS || exponent.value.sign.value == MINUS)
            && AllDigits(exponent.value.digits) && |exponent.value.digits| > 0)
    }

    function FractionText(): Str {
      if fraction.Some? then [DOT] + fraction.value else []
    }

    function ExponentText(): Str {
      match exponent
      case None => []
      case Some(e) => [e.marker] + (if e.sign.Some? then [e.sign.value] else []) + e.digits
    }

    function Text(): Str {
      (if minus then [MINUS] else []) + integer + FractionText() + ExponentText()
    }
  }

  // --- The sticky regular expression -?(?:0|[1-9]\d*)(?:\.\d+)?(?:[eE][+-]?\d+)? ---

  /** Length of the maximal digit prefix. */
  function DigitRun(s: Str): (n: nat)
    ensures n <= |s|
  {
    if |s| > 0 && IsDigit(s[0]) then 1 + DigitRun(s[1..]) else 0
  }

  lemma {:induction false} DigitRunDigits(s: Str)
    ensures AllDigits(s[..DigitRun(s)])
  {
    if |s| > 0 && IsDigit(s[0]) {
      DigitRunDigits(s[1..]);
      assert s[..DigitRun(s)] == [s[0]] + s[1..][..DigitRun(s[1..])];
    }
  }

  function MatchMinus(s: Str): (n: nat)
    ensures n <= |s|
  {
    if |s| > 0 && s[0] == MINUS then 1 else 0
  }

  function MatchInteger(s: Str): (n: nat)
    ensures n <= |s|
  {
    if |s| > 0 && s[0] == ZERO then 1 else DigitRun(s)
  }

  function MatchFraction(s: Str): (n: nat)
    ensures n <= |s|
  {
    if |s| > 0 && s[0] == DOT && DigitRun(s[1..]) > 0 then 1 + DigitRun(s[1..]) else 0
  }

  function MatchExponent(s: Str): (n: nat)
    ensures n <= |s|
  {
    if |s| > 0 && (s[0] == LOWER_E || s[0] == UPPER_E) then
      var k := if |s| > 1 && (s[1] == PLUS || s[1] == MINUS) then 2 else 1;
      var d := DigitRun(s[k..]);
      if d > 0 then k + d else 0
    else 0
  }

  /** Length of the unsigned part of a match at the start of `s`; 0 when there is none. */
  function MatchUnsigned(s: Str): (n: nat)
    ensures n <= |s|
  {
    var b := MatchInteger(s);
    if b == 0 then 0 else b + MatchSuffix(s[b..])
  }

  function MatchSuffix(s: Str): (n: nat)
    ensures n <= |s|
  {
    var c := MatchFraction(s);
    c + MatchExponent(s[c..])
  }

  /** How many units the expression matches at the start of `s`; 0 when it does not match. */
  function MatchToken(s: Str): (n: nat)
    ensures n <= |s|
  {
    var a := MatchMinus(s);
    var n := MatchUnsigned(s[a..]);
    if n == 0 then 0 else a + n
  }

  lemma {:induction false} DigitRunOf(digits: Str, rest: Str)
    requires AllDigits(digits) && (|rest| == 0 || !IsDigit(rest[0]))
    ensures DigitRun(digits + rest) == |digits|
  {
    if |digits| > 0 {
      assert (digits + rest)[1..] == digits[1..] + rest;
      DigitRunOf(digits[1..], rest);
    } else {
      assert digits + rest == rest;
    }
  }

  lemma MatchFractionOf(n: NumberSyntax, tail: Str)
    requires n.Valid() && (|tail| == 0 || (!IsDigit(tail[0]) && tail[0] != DOT))
    ensures MatchFraction(n.FractionText() + tail) == |n.FractionText()|
  {
    match n.fraction
    case None => assert n.FractionText() + tail == tail;
    case Some(f) =>
      assert (n.FractionText() + tail)[1..] == f + tail;
      DigitRunOf(f, tail);
  }

  lemma MatchExponentOf(n: NumberSyntax, rest: Str)
    requires n.Valid() && EndsNumber(rest)
    ensures MatchExponent(n.ExponentText() + rest) == |n.ExponentText()|
  {
    match n.exponent
    case None => assert n.ExponentText() + rest == rest;
    case Some(e) =>
      var k := if e.sign.Some? then 2 else 1;
      assert (n.ExponentText() + rest)[k..] == e.digits + rest;
      DigitRunOf(e.digits, rest);
  }

  lemma MatchIntegerOf(n: NumberSyntax, tail: Str)
    requires n.Valid() && (|tail| == 0 || !IsDigit(tail[0]))
    ensures MatchInteger(n.integer + tail) == |n.integer|
  {
    DigitRunOf(n.integer, tail);
  }

  lemma DropPrefix(a: Str, b: Str)
    ensures (a + b)[|a|..] == b
  {
  }

  lemma MatchSuffixOf(n: NumberSyntax, rest: Str)
    requires n.Valid() && EndsNumber(rest)
    ensures MatchSuffix(n.FractionText() + (n.ExponentText() + rest)) == |n.FractionText()| + |n.ExponentText()|
  {
    var tail := n.ExponentText() + rest;
    MatchFractionOf(n, tail);
    DropPrefix(n.FractionText(), tail);
    MatchExponentOf(n, rest);
  }

  lemma MatchUnsignedOf(n: NumberSyntax, rest: Str)
    requires n.Valid() && EndsNumber(rest)
    ensures MatchUnsigned(n.integer + (n.FractionText() + (n.ExponentText() + rest)))
         == |n.integer| + |n.FractionText()| + |n.ExponentText()|
  {
    var tail := n.FractionText() + (n.ExponentText() + rest);
    assert |tail| == 0 || !IsDigit(tail[0]);
    MatchIntegerOf(n, tail);
    DropPrefix(n.integer, tail);
    MatchSuffixOf(n, rest);
  }

  lemma Reassociate(a: Str, b: Str, c: Str, d: Str, e: Str)
    ensures a + b + c + d + e == a + (b + (c + (d + e)))
  {
  }

  lemma MatchTokenSplit(minus: Str, unsigned: Str)
    requires minus == [] || minus == [MINUS]
    requires MatchUnsigned(unsigned) > 0 && (|unsigned| == 0 || unsigned[0] != MINUS)
    ensures MatchToken(minus + unsigned) == |minus| + MatchUnsigned(unsigned)
  {
    DropPrefix(minus, unsigned);
  }

  /** Wherever a number of the grammar ends, the expression matches exactly that number. */
  lemma MatchTokenOf(n: NumberSyntax, rest: Str)
    requires n.Valid() && EndsNumber(rest)
    ensures MatchToken(n.Text() + rest) == |n.Text()| > 0
  {
    var minus: Str := if n.minus then [MINUS] else [];
    var unsigned := n.integer + (n.FractionText() + (n.ExponentText() + rest));
    Reassociate(minus, n.integer, n.FractionText(), n.ExponentText(), rest);
    assert n.Text() + rest == minus + unsigned;
    assert unsigned[0] == n.integer[0] != MINUS;
    hide MatchToken;
    hide MatchUnsigned;
    MatchUnsignedOf(n, rest);
    MatchTokenSplit(minus, unsigned);
  }

  // --- Whatever the text, only numbers of the grammar are matched ---

  lemma MatchedIntegerIsNumber(s: Str)
    requires MatchInteger(s) > 0
    ensures var digits := s[..MatchInteger(s)]; AllDigits(digits) && (digits[0] == ZERO ==> |digits| == 1)
  {
    DigitRunDigits(s);
  }

  lemma MatchedFractionIsNumber(s: Str) returns (fraction: Option<Str>)
    ensures fraction.Some? ==> AllDigits(fraction.value) && |fraction.value| > 0
    ensures s[..MatchFraction(s)] == if fraction.Some? then [DOT] + fraction.value else []
  {
    if MatchFraction(s) == 0 {
      fraction := None;
    } else {
      var n := DigitRun(s[1..]);
      DigitRunDigits(s[1..]);
      fraction := Some(s[1..][..n]);
      assert s[..1 + n] == [DOT] + s[1..][..n];
    }
  }

  lemma MatchedExponentIsNumber(s: Str) returns (exponent: Option<ExponentSyntax>)
    ensures var n := NumberSyntax(false, [ZERO], None, exponent); n.Valid() && s[..MatchExponent(s)] == n.ExponentText()
  {
    if MatchExponent(s) == 0 {
      exponent := None;
    } else {
      var k := if |s| > 1 && (s[1] == PLUS || s[1] == MINUS) then 2 else 1;
      var d := DigitRun(s[k..]);
      DigitRunDigits(s[k..]);
      exponent := Some(ExponentSyntax(s[0], if k == 2 then Some(s[1]) else None, s[k..][..d]));
      assert s[..k + d] == s[..k] + s[k..][..d];
      assert s[..k] == if k == 2 then [s[0], s[1]] else [s[0]];
    }
  }

  lemma PrefixOfThree(s: Str, a: nat, b: nat, c: nat)
    requires a + b + c <= |s|
    ensures s[..a + b + c] == s[..a] + s[a..][..b] + s[a..][b..][..c]
  {
  }

  lemma MatchedUnsignedIsNumber(s: Str) returns (n: NumberSyntax)
    requires MatchUnsigned(s) > 0
    ensures n.Valid() && !n.minus && n.Text() == s[..MatchUnsigned(s)]
  {
    var b := MatchInteger(s);
    var suffix := s[b..];
    var c := MatchFraction(suffix);
    var d := MatchExponent(suffix[c..]);
    assert MatchUnsigned(s) == b + c + d && b > 0;
    MatchedIntegerIsNumber(s);
    var fraction := MatchedFractionIsNumber(suffix);
    var exponent := MatchedExponentIsNumber(suffix[c..]);
    n := NumberSyntax(false, s[..b], fraction, exponent);
    PartsAreNumber(s[..b], fraction, exponent);
    hide *;
    PrefixOfThree(s, b, c, d);
  }

  lemma PartsAreNumber(integer: Str, fraction: Option<Str>, exponent: Option<ExponentSyntax>)
    requires |integer| > 0 && AllDigits(integer) && (integer[0] == ZERO ==> |integer| == 1)
    requires fraction.Some? ==> AllDigits(fraction.value) && |fraction.value| > 0
    requires NumberSyntax(false, [ZERO], None, exponent).Valid()
    ensures var n := NumberSyntax(false, integer, fraction, exponent);
      && n.Valid()
      && n.Text() == integer + (if fraction.Some? then [DOT] + fraction.value else [])
                     + NumberSyntax(false, [ZERO], None, exponent).ExponentText()
  {
    var n := NumberSyntax(false, integer, fraction, exponent);
    assert n.ExponentText() == NumberSyntax(false, [ZERO], None, exponent).ExponentText();
    assert [] + integer == integer;
    assert n.Text() == [] + integer + n.FractionText() + n.ExponentText();
  }

  lemma MatchedSign(s: Str)
    requires MatchToken(s) > 0
    ensures var a := MatchMinus(s);
      && MatchToken(s) == a + MatchUnsigned(s[a..]) && MatchUnsigned(s[a..]) > 0
      && (a == 0 || a == 1) && s[..a] == if a == 1 then [MINUS] else []
  {
    hide MatchUnsigned;
  }

  lemma PrefixOfTwo(s: Str, a: nat, b: nat)
    requires a + b <= |s|
    ensures s[..a + b] == s[..a] + s[a..][..b]
  {
  }

  /** Whatever the expression matches is a number of the grammar, also in text that is not JSON. */
  lemma MatchedIsNumber(s: Str) returns (n: NumberSyntax)
    requires MatchToken(s) > 0
    ensures n.Valid() && n.Text() == s[..MatchToken(s)]
  {
    hide *;
    MatchedSign(s);
    var a := MatchMinus(s);
    var unsigned := MatchedUnsignedIsNumber(s[a..]);
    n := unsigned.(minus := a == 1);
    PrefixOfTwo(s, a, MatchUnsigned(s[a..]));
    SignedText(unsigned, a == 1);
  }

  lemma SignedText(n: NumberSyntax, minus: bool)
    requires n.Valid() && !n.minus
    ensures n.(minus := minus).Valid() && n.(minus := minus).Text() == (if minus then [MINUS] else []) + n.Text()
  {
    var m := n.(minus := minus);
    var f, e := n.FractionText(), n.ExponentText();
    assert m.ExponentText() == e && m.FractionText() == f;
    assert n.Text() == [] + n.integer + f + e;
    assert m.Text() == (if minus then [MINUS] else []) + n.integer + f + e;
    assert m.Valid();
    hide *;
    SignOutside(if minus then [MINUS] else [], n.integer, f, e);
  }

  lemma SignOutside(sign: Str, a: Str, b: Str, c: Str)
    ensures sign + a + b + c == sign + ([] + a + b + c)
  {
  }

  // --- The anchored expression ^(-)?(0|[1-9]\d*)(?:\.(\d+))?(?:[eE]([+-]?\d+))?$ ---

  datatype NumberParts = NumberParts(negative: bool, integer: Str, fraction: Str, exponent: int)
  {
    predicate Valid() {
      AllDigits(integer) && |integer| > 0 && AllDigits(fraction)
    }
  }

  /** The natural number a digit string spells. */
  function DigitsValue(s: Str): nat
    requires AllDigits(s)
  {
    if |s| == 0 then 0 else 10 * DigitsValue(s[..|s| - 1]) + (s[|s| - 1] - ZERO)
  }

  /** The digits that open `s`. */
  function LeadingDigits(s: Str): (digits: Str)
    ensures AllDigits(digits)
  {
    DigitRunDigits(s);
    s[..DigitRun(s)]
  }

  function ExponentValue(s: Str): int {
    if |s| > 1 && s[1] == MINUS then 0 - DigitsValue(LeadingDigits(s[2..]))
    else if |s| > 1 && s[1] == PLUS then DigitsValue(LeadingDigits(s[2..]))
    else if |s| > 1 then DigitsValue(LeadingDigits(s[1..]))
    else 0
  }

  /** The capture groups, or None where the anchored expression does not match. */
  function ParseNumber(token: Str): (r: Option<NumberParts>)
    ensures r.Some? <==> MatchToken(token) == |token| > 0
    ensures r.Some? ==> r.value.Valid()
  {
    if MatchToken(token) != |token| || |token| == 0 then None else
      var unsigned := token[MatchMinus(token)..];
      var suffix := unsigned[MatchInteger(unsigned)..];
      var c := MatchFraction(suffix);
      var fraction := if c == 0 then [] else LeadingDigits(suffix[1..]);
      var integer := if unsigned[0] == ZERO then [ZERO] else LeadingDigits(unsigned);
      Some(NumberParts(MatchMinus(token) == 1, integer, fraction, ExponentValue(suffix[c..])))
  }

  /** What a number of the grammar says, field by field. */
  function SyntaxParts(n: NumberSyntax): NumberParts
    requires n.Valid()
  {
    var exponent :=
      match n.exponent
      case None => 0
      case Some(e) => if e.sign == Some(MINUS) then 0 - DigitsValue(e.digits) else DigitsValue(e.digits);
    NumberParts(n.minus, n.integer, if n.fraction.Some? then n.fraction.value else [], exponent)
  }

  lemma LeadingDigitsOf(digits: Str, tail: Str)
    requires AllDigits(digits) && (|tail| == 0 || !IsDigit(tail[0]))
    ensures LeadingDigits(digits + tail) == digits
  {
    DigitRunOf(digits, tail);
  }

  lemma ExponentValueOf(n: NumberSyntax)
    requires n.Valid()
    ensures ExponentValue(n.ExponentText()) == SyntaxParts(n).exponent
  {
    match n.exponent
    case None =>
    case Some(e) =>
      var k := if e.sign.Some? then 2 else 1;
      assert n.ExponentText()[k..] == e.digits;
      assert e.digits + [] == e.digits;
      LeadingDigitsOf(e.digits, []);
      assert e.sign.None? ==> IsDigit(n.ExponentText()[1]);
  }

  /** The exponent, if any, starts with a letter. */
  lemma ExponentStarts(n: NumberSyntax)
    requires n.Valid()
    ensures |n.ExponentText()| == 0 || (!IsDigit(n.ExponentText()[0]) && n.ExponentText()[0] != DOT)
  {
  }

  lemma FractionAfterPoint(n: NumberSyntax)
    requires n.Valid() && n.fraction.Some?
    ensures AllDigits(n.fraction.value)
    ensures (n.FractionText() + n.ExponentText())[1..] == n.fraction.value + n.ExponentText()
  {
    hide NumberSyntax.ExponentText;
  }

  lemma ParseSuffixOf(n: NumberSyntax)
    requires n.Valid()
    ensures var suffix := n.FractionText() + n.ExponentText();
      && MatchFraction(suffix) == |n.FractionText()|
      && suffix[|n.FractionText()|..] == n.ExponentText()
      && (n.fraction.Some? ==> LeadingDigits(suffix[1..]) == n.fraction.value)
  {
    var tail := n.ExponentText();
    hide *;
    ExponentStarts(n);
    MatchFractionOf(n, tail);
    DropPrefix(n.FractionText(), tail);
    if n.fraction.Some? {
      FractionAfterPoint(n);
      LeadingDigitsOf(n.fraction.value, tail);
    }
  }

  lemma ParseUnsignedOf(n: NumberSyntax)
    requires n.Valid()
    ensures var suffix := n.FractionText() + n.ExponentText();
      var unsigned := n.integer + suffix;
      && MatchInteger(unsigned) == |n.integer| && unsigned[|n.integer|..] == suffix
      && (if unsigned[0] == ZERO then n.integer == [ZERO] else LeadingDigits(unsigned) == n.integer)
  {
    var suffix := n.FractionText() + n.ExponentText();
    MatchIntegerOf(n, suffix);
    DropPrefix(n.integer, suffix);
    LeadingDigitsOf(n.integer, suffix);
  }

  lemma TextSplits(n: NumberSyntax)
    requires n.Valid()
    ensures var suffix := n.FractionText() + n.ExponentText();
      MatchMinus(n.Text()) == (if n.minus then 1 else 0) && n.Text()[MatchMinus(n.Text())..] == n.integer + suffix
  {
    var minus: Str := if n.minus then [MINUS] else [];
    var suffix := n.FractionText() + n.ExponentText();
    Reassociate(minus, n.integer, n.FractionText(), n.ExponentText(), []);
    assert n.ExponentText() + [] == n.ExponentText() && n.Text() + [] == n.Text();
    assert n.Text() == minus + (n.integer + suffix);
    assert IsDigit(n.integer[0]);
    DropPrefix(minus, n.integer + suffix);
  }

  /** Reading a number of the grammar gives back exactly its fields. */
  lemma ParseNumberOf(n: NumberSyntax)
    requires n.Valid()
    ensures ParseNumber(n.Text()) == Some(SyntaxParts(n))
  {
    assert n.Text() + [] == n.Text();
    assert n.fraction.None? <==> |n.FractionText()| == 0;
    hide MatchToken;
    hide MatchMinus;
    hide MatchInteger;
    hide MatchFraction;
    hide LeadingDigits;
    hide ExponentValue;
    hide DigitsValue;
    hide AllDigits;
    MatchTokenOf(n, []);
    TextSplits(n);
    ParseUnsignedOf(n);
    ParseSuffixOf(n);
    ExponentValueOf(n);
  }
}
