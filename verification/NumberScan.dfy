/** The scanner that finds number tokens in stored JSON text (apps/api/src/cutover-preflight.ts). */
module NumberScan {
  import opened Common
  import opened CodeUnits
  import opened NumberToken
  import opened Decimal
  import opened JsonValues
  import opened JsonSyntax

  /** A JavaScript double, as far as the scanner can tell doubles apart. */
  datatype Double = NotFinite | NegativeZero | Finite(id: int)

  /** Number(token) and JSON.stringify(double), which the platform provides. */
  datatype Numerics = Numerics(toDouble: Str -> Double, stringify: Double -> Str)

  /** validateJsonNumberToken: true where it returns, false where it throws. */
  predicate Lossless(token: Str, js: Numerics) {
    var d := js.toDouble(token);
    && d.Finite?
    && Normalize(token).Some? && Normalize(js.stringify(d)).Some?
    && Normalize(token) == Normalize(js.stringify(d))
  }

  /** The tokens the scan visits from one of its three states. */
  function Scan(s: Str, inString: bool, escaped: bool): seq<Str>
    decreases |s|
  {
    if |s| == 0 then []
    else if inString then
      if escaped then Scan(s[1..], true, false)
      else if s[0] == BACKSLASH then Scan(s[1..], true, true)
      else Scan(s[1..], s[0] != QUOTE, false)
    else if s[0] == QUOTE then Scan(s[1..], true, escaped)
    else if s[0] != MINUS && !IsDigit(s[0]) then Scan(s[1..], false, escaped)
    else if MatchToken(s) == 0 then Scan(s[1..], false, escaped)
    else [s[..MatchToken(s)]] + Scan(s[MatchToken(s)..], false, escaped)
  }

  /** The first token a check rejects. */
  function FirstRejected(tokens: seq<Str>, accepts: Str -> bool): (r: Option<Str>)
    ensures r.None? <==> forall t :: t in tokens ==> accepts(t)
    ensures r.Some? ==> r.value in tokens && !accepts(r.value)
  {
    if |tokens| == 0 then None
    else if !accepts(tokens[0]) then Some(tokens[0])
    else FirstRejected(tokens[1..], accepts)
  }

  /** validateJsonNumberToken, for the platform's conversions. */
  function Check(js: Numerics): Str -> bool {
    (t: Str) => Lossless(t, js)
  }

  /** What the loop still reports from `index` on. */
  function Remaining(json: Str, index: nat, inString: bool, escaped: bool, accepts: Str -> bool): Option<Str>
    requires index <= |json|
  {
    FirstRejected(Scan(json[index..], inString, escaped), accepts)
  }

  lemma SliceOfDrop(s: Str, i: nat, n: nat)
    requires i + n <= |s|
    ensures s[i..][..n] == s[i..i + n] && s[i..][n..] == s[i + n..]
  {
  }

  lemma ScanToken(json: Str, index: nat, escaped: bool, accepts: Str -> bool)
    requires index < |json| && (json[index] == MINUS || IsDigit(json[index])) && MatchToken(json[index..]) > 0
    ensures var end := index + MatchToken(json[index..]);
      Remaining(json, index, false, escaped, accepts)
      == if accepts(json[index..end]) then Remaining(json, end, false, escaped, accepts) else Some(json[index..end])
  {
    hide MatchToken;
    var s := json[index..];
    SliceOfDrop(json, index, MatchToken(s));
    var rest := Scan(s[MatchToken(s)..], false, escaped);
    assert Scan(s, false, escaped) == [s[..MatchToken(s)]] + rest;
    assert ([s[..MatchToken(s)]] + rest)[1..] == rest;
  }

  lemma ScanUnit(json: Str, index: nat, inString: bool, escaped: bool, accepts: Str -> bool)
    requires index < |json|
    ensures inString ==>
      Remaining(json, index, true, escaped, accepts)
      == Remaining(json, index + 1, escaped || json[index] != QUOTE, !escaped && json[index] == BACKSLASH, accepts)
    ensures !inString && json[index] == QUOTE ==>
      Remaining(json, index, false, escaped, accepts) == Remaining(json, index + 1, true, escaped, accepts)
    ensures (!inString && json[index] != QUOTE
      && (!(json[index] == MINUS || IsDigit(json[index])) || MatchToken(json[index..]) == 0)) ==>
      Remaining(json, index, false, escaped, accepts) == Remaining(json, index + 1, false, escaped, accepts)
  {
    SliceOfDrop(json, index, 1);
  }

  /**
   * validateJsonNumberTokens. `accepts` is the check of one token; `rejected` is the token named by
   * the exception, if one is thrown.
   */
  method ValidateJsonNumberTokens(json: Str, accepts: Str -> bool) returns (rejected: Option<Str>)
    ensures rejected == FirstRejected(Scan(json, false, false), accepts)
  {
    hide MatchToken;
    var inString, escaped, index := false, false, 0;
    ghost var goal := FirstRejected(Scan(json, false, false), accepts);
    while index < |json|
      invariant 0 <= index <= |json|
      invariant Remaining(json, index, inString, escaped, accepts) == goal
    {
      ScanUnit(json, index, inString, escaped, accepts);
      var character := json[index];
      if inString {
        if escaped {
          escaped := false;
        } else if character == BACKSLASH {
          escaped := true;
        } else if character == QUOTE {
          inString := false;
        }
      } else if character == QUOTE {
        inString := true;
      } else if character == MINUS || IsDigit(character) {
        var length := MatchToken(json[index..]);
        if length > 0 {
          var token := json[index..index + length];
          ScanToken(json, index, escaped, accepts);
          if !accepts(token) {
            return Some(token);
          }
          index := index + length - 1;
        }
      }
      index := index + 1;
    }
    rejected := None;
  }

  // --- The scan against the grammar ---

  /** Units the scan passes over one at a time outside strings. */
  predicate Skipped(s: Str) {
    forall i :: 0 <= i < |s| ==> s[i] != QUOTE && s[i] != MINUS && !IsDigit(s[i])
  }

  lemma {:induction false} ScanSkips(s: Str, rest: Str)
    requires Skipped(s)
    ensures Scan(s + rest, false, false) == Scan(rest, false, false)
  {
    if |s| == 0 {
      assert s + rest == rest;
    } else {
      assert (s + rest)[1..] == s[1..] + rest;
      ScanSkips(s[1..], rest);
    }
  }

  lemma ScanNumber(n: NumberSyntax, rest: Str)
    requires n.Valid() && EndsNumber(rest)
    ensures Scan(n.Text() + rest, false, false) == [n.Text()] + Scan(rest, false, false)
  {
    var s := n.Text() + rest;
    MatchTokenOf(n, rest);
    assert s[..|n.Text()|] == n.Text();
    assert s[|n.Text()|..] == rest;
    TextSplits(n);
    assert s[0] == n.Text()[0];
    assert s[0] == MINUS || IsDigit(s[0]) by {
      if !n.minus { assert n.Text()[0] == n.integer[0]; }
    }
  }

  lemma {:induction false} ScanPlainUnits(s: Str, rest: Str)
    requires forall i :: 0 <= i < |s| ==> s[i] != QUOTE && s[i] != BACKSLASH
    ensures Scan(s + rest, true, false) == Scan(rest, true, false)
  {
    if |s| == 0 {
      assert s + rest == rest;
    } else {
      assert (s + rest)[1..] == s[1..] + rest;
      ScanPlainUnits(s[1..], rest);
    }
  }

  lemma ScanChar(c: CharSyntax, rest: Str)
    requires c.Valid()
    ensures Scan(c.Text() + rest, true, false) == Scan(rest, true, false)
  {
    var s := c.Text() + rest;
    match c
    case Plain(_) => assert s[1..] == rest;
    case Escape(_) =>
      assert s[1..][1..] == rest;
    case UnicodeEscape(h) =>
      assert s[1..][1..] == h + rest;
      ScanPlainUnits(h, rest);
  }

  lemma {:induction false} ScanChars(cs: seq<CharSyntax>, rest: Str)
    requires ValidChars(cs)
    ensures Scan(CharsText(cs) + ([QUOTE] + rest), true, false) == Scan(rest, false, false)
  {
    if |cs| == 0 {
      assert CharsText(cs) + ([QUOTE] + rest) == [QUOTE] + rest;
      assert ([QUOTE] + rest)[1..] == rest;
    } else {
      ScanChars(cs[1..], rest);
      var tail := CharsText(cs[1..]) + ([QUOTE] + rest);
      assert CharsText(cs) + ([QUOTE] + rest) == cs[0].Text() + tail;
      ScanChar(cs[0], tail);
    }
  }

  lemma ScanString(cs: seq<CharSyntax>, rest: Str)
    requires ValidChars(cs)
    ensures Scan(StringText(cs) + rest, false, false) == Scan(rest, false, false)
  {
    var s := StringText(cs) + rest;
    assert s == [QUOTE] + (CharsText(cs) + ([QUOTE] + rest));
    assert s[1..] == CharsText(cs) + ([QUOTE] + rest);
    ScanChars(cs, rest);
  }

  lemma Assoc<T>(a: seq<T>, b: seq<T>, c: seq<T>)
    ensures (a + b) + c == a + (b + c)
  {
  }

  /** Around any value of the grammar the scan reports exactly its number leaves, whole and in order. */
  lemma {:induction false} ScanValue(v: Syntax, rest: Str)
    requires Valid(v) && EndsNumber(rest)
    ensures Scan(Text(v) + rest, false, false) == Numbers(v) + Scan(rest, false, false)
    decreases v, 1
  {
    match v
    case SNull => ScanSkips(NULL_TEXT, rest);
    case STrue => ScanSkips(TRUE_TEXT, rest);
    case SFalse => ScanSkips(FALSE_TEXT, rest);
    case SNumber(n) => ScanNumber(n, rest);
    case SString(cs) => ScanString(cs, rest);
    case SArray(blank, es) =>
      var inner := if |es| == 0 then blank else ElementsText(es);
      if |es| == 0 { ScanSkips(blank, [RIGHT_BRACKET] + rest); } else { ScanElements(es, [RIGHT_BRACKET] + rest); }
      ScanEnclosed(LEFT_BRACKET, inner, RIGHT_BRACKET, rest, ElementNumbers(es));
    case SObject(blank, fs) =>
      var inner := if |fs| == 0 then blank else FieldsText(fs);
      if |fs| == 0 { ScanSkips(blank, [RIGHT_BRACE] + rest); } else { ScanFields(fs, [RIGHT_BRACE] + rest); }
      ScanEnclosed(LEFT_BRACE, inner, RIGHT_BRACE, rest, FieldNumbers(fs));
  }

  lemma ScanEnclosed(open: CodeUnit, inner: Str, close: CodeUnit, rest: Str, tokens: seq<Str>)
    requires Skipped([open]) && Skipped([close])
    requires Scan(inner + ([close] + rest), false, false) == tokens + Scan([close] + rest, false, false)
    ensures Scan([open] + (inner + [close]) + rest, false, false) == tokens + Scan(rest, false, false)
  {
    assert [open] + (inner + [close]) + rest == [open] + (inner + ([close] + rest));
    ScanSkips([open], inner + ([close] + rest));
    ScanSkips([close], rest);
  }

  lemma {:induction false} ScanElement(e: Element, rest: Str)
    requires ValidElement(e) && EndsNumber(rest)
    ensures Scan(ElementText(e) + rest, false, false) == Numbers(e.value) + Scan(rest, false, false)
    decreases e, 2
  {
    var tail := e.after + rest;
    Assoc(e.before, Text(e.value) + e.after, rest);
    Assoc(Text(e.value), e.after, rest);
    ScanSkips(e.before, Text(e.value) + tail);
    assert EndsNumber(tail);
    ScanValue(e.value, tail);
    ScanSkips(e.after, rest);
  }

  lemma {:induction false} ScanElements(es: seq<Element>, rest: Str)
    requires |es| > 0 && (forall i :: 0 <= i < |es| ==> ValidElement(es[i])) && EndsNumber(rest)
    ensures Scan(ElementsText(es) + rest, false, false) == ElementNumbers(es) + Scan(rest, false, false)
    decreases es, 0
  {
    if |es| == 1 {
      ScanElement(es[0], rest);
      assert ElementNumbers(es) == Numbers(es[0].value);
    } else {
      var others := ElementsText(es[1..]) + rest;
      var tail := [COMMA] + others;
      assert ElementsText(es) + rest == ElementText(es[0]) + tail;
      assert ElementNumbers(es) == Numbers(es[0].value) + ElementNumbers(es[1..]);
      assert Skipped([COMMA]) && EndsNumber(tail);
      hide *;
      ScanElement(es[0], tail);
      ScanSkips([COMMA], others);
      ScanElements(es[1..], rest);
      Assoc(Numbers(es[0].value), ElementNumbers(es[1..]), Scan(rest, false, false));
    }
  }

  lemma {:induction false} ScanField(f: Field, rest: Str)
    requires ValidField(f) && EndsNumber(rest)
    ensures Scan(FieldText(f) + rest, false, false) == Numbers(f.element.value) + Scan(rest, false, false)
    decreases f, 3
  {
    var element := ElementText(f.element) + rest;
    var colon := [COLON] + element;
    var gap := f.gap + colon;
    var key := StringText(f.key) + gap;
    assert FieldText(f) + rest == f.before + key;
    ScanSkips(f.before, key);
    ScanString(f.key, gap);
    ScanSkips(f.gap, colon);
    ScanSkips([COLON], element);
    ScanElement(f.element, rest);
  }

  lemma {:induction false} ScanFields(fs: seq<Field>, rest: Str)
    requires |fs| > 0 && (forall i :: 0 <= i < |fs| ==> ValidField(fs[i])) && EndsNumber(rest)
    ensures Scan(FieldsText(fs) + rest, false, false) == FieldNumbers(fs) + Scan(rest, false, false)
    decreases fs, 0
  {
    if |fs| == 1 {
      ScanField(fs[0], rest);
      assert FieldNumbers(fs) == Numbers(fs[0].element.value);
    } else {
      var others := FieldsText(fs[1..]) + rest;
      var tail := [COMMA] + others;
      assert FieldsText(fs) + rest == FieldText(fs[0]) + tail;
      assert FieldNumbers(fs) == Numbers(fs[0].element.value) + FieldNumbers(fs[1..]);
      assert Skipped([COMMA]) && EndsNumber(tail);
      hide *;
      ScanField(fs[0], tail);
      ScanSkips([COMMA], others);
      ScanFields(fs[1..], rest);
      Assoc(Numbers(fs[0].element.value), FieldNumbers(fs[1..]), Scan(rest, false, false));
    }
  }

  /** JSON-text = ws value ws: the scan of a whole document visits exactly its number leaves. */
  lemma ScanDocument(document: Element)
    requires ValidElement(document)
    ensures Scan(ElementText(document), false, false) == Numbers(document.value)
  {
    ScanElement(document, []);
    assert ElementText(document) + [] == ElementText(document);
  }

  // --- What is accepted ---

  function ExactValue(token: Str): real {
    if ParseNumber(token).Some? then TokenValue(token) else 0.0
  }

  /** The token and the printed form of its double are numbers of the same value. */
  predicate Exact(token: Str, js: Numerics) {
    var printed := js.stringify(js.toDouble(token));
    && js.toDouble(token).Finite?
    && ParseNumber(token).Some? && ParseNumber(printed).Some?
    && TokenValue(token) == TokenValue(printed)
  }

  /** A token is accepted exactly if its double is finite, is not negative zero and prints to the same number. */
  lemma LosslessIffExact(token: Str, js: Numerics)
    ensures Lossless(token, js) <==> Exact(token, js)
  {
    var printed := js.stringify(js.toDouble(token));
    if ParseNumber(token).Some? && ParseNumber(printed).Some? {
      NormalizeDecidesEquality(token, printed);
    }
  }

  /** A document is accepted exactly if that holds of each number in it. */
  lemma AcceptedExactly(document: Element, js: Numerics)
    requires ValidElement(document)
    ensures FirstRejected(Scan(ElementText(document), false, false), Check(js)) == None
      <==> forall t :: t in Numbers(document.value) ==> Exact(t, js)
  {
    ScanDocument(document);
    hide Lossless;
    hide Exact;
    forall t | t in Numbers(document.value)
      ensures Check(js)(t) <==> Exact(t, js)
    {
      LosslessIffExact(t, js);
    }
  }

  /** Section 7.1.4.1 of ECMA-262: how a number is read depends on its sign and its value alone. */
  ghost predicate ReadsByValue(js: Numerics) {
    forall a: NumberSyntax, b: NumberSyntax ::
      a.Valid() && b.Valid() && a.minus == b.minus && ExactValue(a.Text()) == ExactValue(b.Text()) ==>
        js.toDouble(a.Text()) == js.toDouble(b.Text())
  }

  /** How a number is spelled makes no difference to whether it is accepted. */
  lemma SpellingDoesNotMatter(a: NumberSyntax, b: NumberSyntax, js: Numerics)
    requires ReadsByValue(js) && a.Valid() && b.Valid() && a.minus == b.minus
    requires ExactValue(a.Text()) == ExactValue(b.Text())
    ensures Lossless(a.Text(), js) <==> Lossless(b.Text(), js)
  {
    LosslessIffExact(a.Text(), js);
    LosslessIffExact(b.Text(), js);
    ParseNumberOf(a);
    ParseNumberOf(b);
  }

  lemma ValueOfSyntax(n: NumberSyntax)
    requires n.Valid()
    ensures ExactValue(n.Text()) == PartsValue(SyntaxParts(n))
  {
    ParseNumberOf(n);
  }

  function WithTrailingZero(n: NumberSyntax): NumberSyntax {
    n.(fraction := Some((if n.fraction.Some? then n.fraction.value else []) + [ZERO]))
  }

  lemma TrailingZeroKeepsParts(n: NumberSyntax)
    requires n.Valid()
    ensures WithTrailingZero(n).Valid() && WithTrailingZero(n).minus == n.minus
    ensures PartsValue(SyntaxParts(WithTrailingZero(n))) == PartsValue(SyntaxParts(n))
  {
    ZeroAddsNothing(SyntaxParts(n).fraction);
    hide FractionValue;
    hide DigitsValue;
  }

  /** Another zero after the last digit of the fraction, as in 1.0 or 0.50, is such a spelling. */
  lemma TrailingZeroDoesNotMatter(n: NumberSyntax, js: Numerics)
    requires ReadsByValue(js) && n.Valid()
    ensures Lossless(WithTrailingZero(n).Text(), js) <==> Lossless(n.Text(), js)
  {
    TrailingZeroKeepsParts(n);
    ValueOfSyntax(n);
    ValueOfSyntax(WithTrailingZero(n));
    hide *;
    SpellingDoesNotMatter(WithTrailingZero(n), n, js);
  }

  lemma {:induction false} ZeroAddsNothing(s: Str)
    requires AllDigits(s)
    ensures AllDigits(s + [ZERO]) && FractionValue(s + [ZERO]) == FractionValue(s)
  {
    if |s| > 0 {
      ZeroAddsNothing(s[1..]);
      assert (s + [ZERO])[1..] == s[1..] + [ZERO];
    }
  }

  const ONE: NumberSyntax := NumberSyntax(false, [ZERO + 1], None, None)
  const ONE_POINT_ZERO: NumberSyntax := NumberSyntax(false, [ZERO + 1], Some([ZERO]), None)

  /** 1.0 is accepted wherever it is read as the double that prints as 1. */
  lemma OnePointZeroIsAccepted(js: Numerics)
    requires js.toDouble(ONE_POINT_ZERO.Text()).Finite? && js.stringify(js.toDouble(ONE_POINT_ZERO.Text())) == ONE.Text()
    ensures Lossless(ONE_POINT_ZERO.Text(), js) && ONE_POINT_ZERO.Text() != ONE.Text()
  {
    LosslessIffExact(ONE_POINT_ZERO.Text(), js);
    ParseNumberOf(ONE_POINT_ZERO);
    ParseNumberOf(ONE);
    ZeroAddsNothing([]);
    assert [] + [ZERO] == [ZERO];
    assert |ONE_POINT_ZERO.Text()| == 3 && |ONE.Text()| == 1;
  }

  // --- What acceptance buys ---

  /** A lossless token denotes the same number after a trip through a double. */
  lemma LosslessTokenIsExact(token: Str, js: Numerics)
    requires Lossless(token, js)
    ensures ExactValue(js.stringify(js.toDouble(token))) == ExactValue(token)
  {
    NormalizeDecidesEquality(token, js.stringify(js.toDouble(token)));
  }

  /**
   * If the scan accepts a document, then the doubles that JSON.parse puts in the value print to the
   * very numbers the document spells: parsing and printing loses nothing anywhere in the tree.
   */
  lemma AcceptedDocumentIsExact(document: Element, js: Numerics)
    requires ValidElement(document)
    requires FirstRejected(Scan(ElementText(document), false, false), Check(js)) == None
    ensures Denote(Parse(document.value, js.toDouble), (d: Double) => ExactValue(js.stringify(d)))
         == Decode(document.value, ExactValue)
  {
    ScanDocument(document);
    var reprint := (d: Double) => ExactValue(js.stringify(d));
    ParseDenotes(document.value, js.toDouble, reprint);
    var reread := Compose(reprint, js.toDouble);
    forall t | t in Numbers(document.value)
      ensures reread(t) == ExactValue(t)
    {
      assert Check(js)(t);
      LosslessTokenIsExact(t, js);
    }
    DecodeDependsOnNumbers(document.value, reread, ExactValue);
  }
}
