/** Canonical text is JSON text: it derives from the grammar and reads back as what was printed. */
module CanonicalDocument {
  import opened Common
  import opened CodeUnits
  import opened NumberToken
  import opened JsonValues
  import opened JsonSyntax
  import opened CanonicalPrinter
  import opened NumberScan
  import opened CanonicalText

  // --- The derivation of a printed value ---

  function SyntaxOf<N>(v: Json<N>, spell: N -> NumberSyntax): Syntax {
    match v
    case JNull => SNull
    case JBool(b) => if b then STrue else SFalse
    case JNumber(n) => SNumber(spell(n))
    case JString(s) => SString(StringSyntax(s))
    case JArray(items) => SArray([], ElementsOf(items, spell))
    case JObject(members) => SObject([], FieldsOf(members, spell))
  }

  function ElementsOf<N>(items: seq<Json<N>>, spell: N -> NumberSyntax): (r: seq<Element>)
    ensures |r| == |items|
  {
    if |items| == 0 then [] else [Element([], SyntaxOf(items[0], spell), [])] + ElementsOf(items[1..], spell)
  }

  function FieldsOf<N>(members: seq<Member<N>>, spell: N -> NumberSyntax): (r: seq<Field>)
    ensures |r| == |members|
  {
    if |members| == 0 then [] else
      var value := SyntaxOf(members[0].value, spell);
      [Field([], StringSyntax(members[0].key), [], Element([], value, []))] + FieldsOf(members[1..], spell)
  }

  lemma {:induction false} SyntaxOfText<N(!new)>(v: Json<N>, spell: N -> NumberSyntax)
    ensures Text(SyntaxOf(v, spell)) == Compact(v, spell)
    decreases v, 1
  {
    match v
    case JArray(items) => if |items| > 0 { ElementsOfText(items, spell); }
    case JObject(members) => if |members| > 0 { FieldsOfText(members, spell); }
    case _ =>
  }

  lemma {:induction false} ElementsOfText<N(!new)>(items: seq<Json<N>>, spell: N -> NumberSyntax)
    requires |items| > 0
    ensures ElementsText(ElementsOf(items, spell)) == CompactItems(items, spell)
    decreases items, 0
  {
    var es := ElementsOf(items, spell);
    SyntaxOfText(items[0], spell);
    assert ElementText(es[0]) == Compact(items[0], spell);
    if |items| > 1 {
      ElementsOfText(items[1..], spell);
      assert es[1..] == ElementsOf(items[1..], spell);
    }
  }

  lemma {:induction false} FieldsOfText<N(!new)>(members: seq<Member<N>>, spell: N -> NumberSyntax)
    requires |members| > 0
    ensures FieldsText(FieldsOf(members, spell)) == CompactMembers(members, spell)
    decreases members, 0
  {
    var fs := FieldsOf(members, spell);
    SyntaxOfText(members[0].value, spell);
    assert ElementText(fs[0].element) == Compact(members[0].value, spell);
    assert FieldText(fs[0]) == CompactMember(members[0], spell);
    if |members| > 1 {
      FieldsOfText(members[1..], spell);
      assert fs[1..] == FieldsOf(members[1..], spell);
    }
  }

  lemma {:induction false} SyntaxOfValid<N(!new)>(v: Json<N>, spell: N -> NumberSyntax, read: Str -> N)
    requires Everywhere(v, Readable(spell, read))
    ensures Valid(SyntaxOf(v, spell))
    decreases v, 1
  {
    match v
    case JString(s) => StringSyntaxSpells(s);
    case JArray(items) =>
      ElementsOfValid(items, spell, read);
      assert Valid(SArray([], ElementsOf(items, spell)));
    case JObject(members) =>
      FieldsOfValid(members, spell, read);
      assert Valid(SObject([], FieldsOf(members, spell)));
    case _ =>
  }

  lemma PlainElementIsValid(e: Element)
    requires e.before == [] && e.after == [] && Valid(e.value)
    ensures ValidElement(e)
  {
  }

  lemma PlainFieldIsValid(f: Field)
    requires f.before == [] && f.gap == [] && ValidChars(f.key)
    requires f.element.before == [] && f.element.after == [] && Valid(f.element.value)
    ensures ValidField(f)
  {
    PlainElementIsValid(f.element);
  }

  ghost predicate AllElementsValid(es: seq<Element>) {
    forall i :: 0 <= i < |es| ==> ValidElement(es[i])
  }

  ghost predicate AllFieldsValid(fs: seq<Field>) {
    forall i :: 0 <= i < |fs| ==> ValidField(fs[i])
  }

  lemma MoreValidElements(first: Element, others: seq<Element>)
    requires ValidElement(first) && AllElementsValid(others)
    ensures AllElementsValid([first] + others)
  {
    hide ValidElement;
    var es := [first] + others;
    forall i | 0 <= i < |es|
      ensures ValidElement(es[i])
    {
      assert es[i] == if i == 0 then first else others[i - 1];
    }
  }

  lemma MoreValidFields(first: Field, others: seq<Field>)
    requires ValidField(first) && AllFieldsValid(others)
    ensures AllFieldsValid([first] + others)
  {
    hide ValidField;
    var fs := [first] + others;
    forall i | 0 <= i < |fs|
      ensures ValidField(fs[i])
    {
      assert fs[i] == if i == 0 then first else others[i - 1];
    }
  }

  lemma {:induction false} ElementsOfValid<N(!new)>(items: seq<Json<N>>, spell: N -> NumberSyntax, read: Str -> N)
    requires forall i :: 0 <= i < |items| ==> Everywhere(items[i], Readable(spell, read))
    ensures AllElementsValid(ElementsOf(items, spell))
    decreases items, 0
  {
    if |items| > 0 {
      SyntaxOfValid(items[0], spell, read);
      ElementsOfValid(items[1..], spell, read);
      var first := Element([], SyntaxOf(items[0], spell), []);
      assert ElementsOf(items, spell) == [first] + ElementsOf(items[1..], spell);
      PlainElementIsValid(first);
      MoreValidElements(first, ElementsOf(items[1..], spell));
    }
  }

  lemma {:induction false} FieldsOfValid<N(!new)>(members: seq<Member<N>>, spell: N -> NumberSyntax, read: Str -> N)
    requires forall i :: 0 <= i < |members| ==> Everywhere(members[i].value, Readable(spell, read))
    ensures AllFieldsValid(FieldsOf(members, spell))
    decreases members, 0
  {
    if |members| > 0 {
      SyntaxOfValid(members[0].value, spell, read);
      FieldsOfValid(members[1..], spell, read);
      StringSyntaxSpells(members[0].key);
      var first := Field([], StringSyntax(members[0].key), [], Element([], SyntaxOf(members[0].value, spell), []));
      assert FieldsOf(members, spell) == [first] + FieldsOf(members[1..], spell);
      PlainFieldIsValid(first);
      MoreValidFields(first, FieldsOf(members[1..], spell));
    }
  }

  /** What a number becomes when it is printed and its text is read by `read`. */
  function Reprinted<N, M>(spell: N -> NumberSyntax, read: Str -> M): N -> M {
    (n: N) => read(spell(n).Text())
  }

  lemma {:induction false} SyntaxOfDecodes<N(!new), M>(v: Json<N>, spell: N -> NumberSyntax, read: Str -> M)
    requires Valid(SyntaxOf(v, spell))
    ensures Decode(SyntaxOf(v, spell), read) == Denote(v, Reprinted(spell, read))
    decreases v, 1
  {
    match v
    case JString(s) => StringSyntaxSpells(s);
    case JArray(items) => ElementsOfDecode(items, spell, read);
    case JObject(members) => FieldsOfDecode(members, spell, read);
    case _ =>
  }

  lemma {:induction false} ElementsOfDecode<N(!new), M>(items: seq<Json<N>>, spell: N -> NumberSyntax, read: Str -> M)
    requires AllElementsValid(ElementsOf(items, spell))
    ensures DecodeElements(ElementsOf(items, spell), read) == DenoteItems(items, Reprinted(spell, read))
    decreases items, 0
  {
    if |items| > 0 {
      assert ElementsOf(items, spell)[1..] == ElementsOf(items[1..], spell);
      assert ValidElement(ElementsOf(items, spell)[0]);
      SyntaxOfDecodes(items[0], spell, read);
      ElementsOfDecode(items[1..], spell, read);
    }
  }

  lemma {:induction false} FieldsOfDecode<N(!new), M>(members: seq<Member<N>>, spell: N -> NumberSyntax, read: Str -> M)
    requires AllFieldsValid(FieldsOf(members, spell))
    ensures DecodeFields(FieldsOf(members, spell), read) == DenoteMembers(members, Reprinted(spell, read))
    decreases members, 0
  {
    if |members| > 0 {
      var fs := FieldsOf(members, spell);
      var last := members[|members| - 1];
      FieldsOfSplit(members, spell);
      assert ValidField(fs[|fs| - 1]) && ValidElement(fs[|fs| - 1].element);
      SyntaxOfDecodes(last.value, spell, read);
      StringSyntaxSpells(last.key);
      var init := FieldsOf(members[..|members| - 1], spell);
      forall i | 0 <= i < |init|
        ensures ValidField(init[i])
      {
        assert init[i] == fs[i] && ValidField(fs[i]);
      }
      FieldsOfDecode(members[..|members| - 1], spell, read);
      DenoteMembersSplit(members, Reprinted(spell, read));
    }
  }

  lemma {:induction false} FieldsOfSplit<N>(members: seq<Member<N>>, spell: N -> NumberSyntax)
    requires |members| > 0
    ensures var last := members[|members| - 1];
      FieldsOf(members, spell) == FieldsOf(members[..|members| - 1], spell)
        + [Field([], StringSyntax(last.key), [], Element([], SyntaxOf(last.value, spell), []))]
  {
    var init, rest := members[..|members| - 1], members[1..];
    if |members| > 1 {
      FieldsOfSplit(rest, spell);
      assert rest[..|rest| - 1] == init[1..] && rest[|rest| - 1] == members[|members| - 1];
      var first := Field([], StringSyntax(members[0].key), [], Element([], SyntaxOf(members[0].value, spell), []));
      assert FieldsOf(members, spell) == [first] + FieldsOf(rest, spell);
      assert FieldsOf(init, spell) == [first] + FieldsOf(init[1..], spell);
      hide *;
    } else {
      assert init == [] && rest == [];
    }
  }

  lemma {:induction false} DenoteMembersSplit<N, M>(members: seq<Member<N>>, f: N -> M)
    requires |members| > 0
    ensures var last := members[|members| - 1];
      DenoteMembers(members, f) == DenoteMembers(members[..|members| - 1], f)[last.key := Denote(last.value, f)]
  {
    if |members| > 1 {
      DenoteMembersSplit(members[1..], f);
      assert members[1..][..|members| - 2] == members[..|members| - 1][1..];
    }
  }

  // --- Numbers of a parsed document ---

  predicate IsFinite(d: Double) {
    d.Finite?
  }

  lemma {:induction false} ParseNumbers<N>(v: Syntax, read: Str -> N, p: N -> bool)
    requires Valid(v) && forall t :: t in Numbers(v) ==> p(read(t))
    ensures Everywhere(Parse(v, read), p)
    decreases v, 1
  {
    match v
    case SNumber(n) => assert n.Text() in Numbers(v);
    case SArray(_, es) =>
      ParseElementsNumbers(es, read, p);
      assert Everywhere(JArray(ParseElements(es, read)), p);
    case SObject(_, fs) =>
      ParseFieldsNumbers(fs, read, p);
      assert Everywhere(JObject(ParseFields(fs, read)), p);
    case _ =>
  }

  lemma {:induction false} ParseElementsNumbers<N>(es: seq<Element>, read: Str -> N, p: N -> bool)
    requires forall i :: 0 <= i < |es| ==> ValidElement(es[i])
    requires forall t :: t in ElementNumbers(es) ==> p(read(t))
    ensures var r := ParseElements(es, read); forall i :: 0 <= i < |r| ==> Everywhere(r[i], p)
    decreases es, 0
  {
    if |es| > 0 {
      assert ValidElement(es[0]);
      ParseNumbers(es[0].value, read, p);
      ParseElementsNumbers(es[1..], read, p);
      var r := ParseElements(es, read);
      forall i | 0 <= i < |r|
        ensures Everywhere(r[i], p)
      {
        assert r[i] == if i == 0 then Parse(es[0].value, read) else ParseElements(es[1..], read)[i - 1];
        assert Everywhere(r[i], p);
      }
    }
  }

  lemma {:induction false} ParseFieldsNumbers<N>(fs: seq<Field>, read: Str -> N, p: N -> bool)
    requires forall i :: 0 <= i < |fs| ==> ValidField(fs[i])
    requires forall t :: t in FieldNumbers(fs) ==> p(read(t))
    ensures var r := ParseFields(fs, read); forall i :: 0 <= i < |r| ==> Everywhere(r[i].value, p)
    decreases fs, 0
  {
    if |fs| > 0 {
      var last := fs[|fs| - 1];
      assert ValidField(last) && ValidElement(last.element);
      FieldNumbersSplit(fs);
      ParseNumbers(last.element.value, read, p);
      ParseFieldsNumbers(fs[..|fs| - 1], read, p);
      ParseFieldsDenote(fs[..|fs| - 1], read, Itself());
      var init := ParseFields(fs[..|fs| - 1], read);
      var m := Member(CharsUnits(last.key), Parse(last.element.value, read));
      SetMemberKeepsDistinct(init, m);
      var r := ParseFields(fs, read);
      forall i | 0 <= i < |r|
        ensures Everywhere(r[i].value, p)
      {
        if r[i] != m {
          var j :| 0 <= j < |init| && init[j] == r[i];
          assert Everywhere(init[j].value, p);
        }
        assert Everywhere(r[i].value, p);
      }
    }
  }

  lemma {:induction false} EverywhereImplies<N(!new)>(v: Json<N>, p: N -> bool, q: N -> bool)
    requires Everywhere(v, p) && forall n :: p(n) ==> q(n)
    ensures Everywhere(v, q)
  {
    match v
    case JArray(items) =>
      forall i | 0 <= i < |items|
        ensures Everywhere(items[i], q)
      {
        EverywhereImplies(items[i], p, q);
        assert Everywhere(items[i], q);
      }
    case JObject(members) =>
      forall i | 0 <= i < |members|
        ensures Everywhere(members[i].value, q)
      {
        EverywhereImplies(members[i].value, p, q);
        assert Everywhere(members[i].value, q);
      }
    case _ =>
  }

  lemma {:induction false} DenoteDependsOnNumbers<N(!new), M>(v: Json<N>, p: N -> bool, f: N -> M, g: N -> M)
    requires Everywhere(v, p) && forall n :: p(n) ==> f(n) == g(n)
    ensures Denote(v, f) == Denote(v, g)
    decreases v, 1
  {
    match v
    case JArray(items) => ItemsDependOnNumbers(items, p, f, g);
    case JObject(members) => MembersDependOnNumbers(members, p, f, g);
    case _ =>
  }

  lemma {:induction false} ItemsDependOnNumbers<N(!new), M>(items: seq<Json<N>>, p: N -> bool, f: N -> M, g: N -> M)
    requires forall i :: 0 <= i < |items| ==> Everywhere(items[i], p)
    requires forall n :: p(n) ==> f(n) == g(n)
    ensures DenoteItems(items, f) == DenoteItems(items, g)
    decreases items, 0
  {
    if |items| > 0 {
      DenoteDependsOnNumbers(items[0], p, f, g);
      ItemsDependOnNumbers(items[1..], p, f, g);
    }
  }

  lemma {:induction false} MembersDependOnNumbers<N(!new), M>(
      members: seq<Member<N>>, p: N -> bool, f: N -> M, g: N -> M)
    requires forall i :: 0 <= i < |members| ==> Everywhere(members[i].value, p)
    requires forall n :: p(n) ==> f(n) == g(n)
    ensures DenoteMembers(members, f) == DenoteMembers(members, g)
    decreases members, 0
  {
    if |members| > 0 {
      DenoteDependsOnNumbers(members[0].value, p, f, g);
      MembersDependOnNumbers(members[1..], p, f, g);
    }
  }

  lemma {:induction false} SyntaxOfNumbers<N(!new)>(v: Json<N>, spell: N -> NumberSyntax, p: N -> bool)
    requires Everywhere(v, p)
    ensures forall t :: t in Numbers(SyntaxOf(v, spell)) ==> exists n :: p(n) && t == spell(n).Text()
    decreases v, 1
  {
    match v
    case JArray(items) => ElementsOfNumbers(items, spell, p);
    case JObject(members) => FieldsOfNumbers(members, spell, p);
    case _ =>
  }

  lemma {:induction false} ElementsOfNumbers<N(!new)>(items: seq<Json<N>>, spell: N -> NumberSyntax, p: N -> bool)
    requires forall i :: 0 <= i < |items| ==> Everywhere(items[i], p)
    ensures forall t :: t in ElementNumbers(ElementsOf(items, spell)) ==> exists n :: p(n) && t == spell(n).Text()
    decreases items, 0
  {
    if |items| > 0 {
      SyntaxOfNumbers(items[0], spell, p);
      ElementsOfNumbers(items[1..], spell, p);
      assert ElementsOf(items, spell)[1..] == ElementsOf(items[1..], spell);
    }
  }

  lemma {:induction false} FieldsOfNumbers<N(!new)>(members: seq<Member<N>>, spell: N -> NumberSyntax, p: N -> bool)
    requires forall i :: 0 <= i < |members| ==> Everywhere(members[i].value, p)
    ensures forall t :: t in FieldNumbers(FieldsOf(members, spell)) ==> exists n :: p(n) && t == spell(n).Text()
    decreases members, 0
  {
    if |members| > 0 {
      SyntaxOfNumbers(members[0].value, spell, p);
      FieldsOfNumbers(members[1..], spell, p);
      assert FieldsOf(members, spell)[1..] == FieldsOf(members[1..], spell);
    }
  }

  // --- The printer of the platform ---

  /**
   * Section 6.1.6.1.20 of ECMA-262: the printed form of a finite double is a number of the JSON
   * grammar, and Number() of it is the double again. Negative zero, which prints as 0, is apart.
   */
  ghost predicate PrintsRoundTrip(js: Numerics, spell: Double -> NumberSyntax) {
    forall d: Double :: IsFinite(d) ==>
      spell(d).Valid() && js.stringify(d) == spell(d).Text() && js.toDouble(spell(d).Text()) == d
  }

  /** The canonical form over the doubles that the bundle schema admits. */
  lemma CanonicalFormOfDoubles(a: Json<Double>, b: Json<Double>, js: Numerics, spell: Double -> NumberSyntax)
    requires PrintsRoundTrip(js, spell)
    requires WellKeyed(a) && WellKeyed(b) && Everywhere(a, IsFinite) && Everywhere(b, IsFinite)
    ensures CanonicalJson(a, spell) == CanonicalJson(b, spell) <==> Denote(a, Itself()) == Denote(b, Itself())
  {
    EverywhereImplies(a, IsFinite, Readable(spell, js.toDouble));
    EverywhereImplies(b, IsFinite, Readable(spell, js.toDouble));
    CanonicalFormDecidesMeaning(a, b, spell, js.toDouble);
  }

  lemma AcceptedNumbersAreFinite(document: Element, js: Numerics)
    requires ValidElement(document)
    requires FirstRejected(Scan(ElementText(document), false, false), Check(js)) == None
    ensures Everywhere(Parse(document.value, js.toDouble), IsFinite)
  {
    ScanDocument(document);
    forall t | t in Numbers(document.value)
      ensures IsFinite(js.toDouble(t))
    {
      assert Check(js)(t);
    }
    ParseNumbers(document.value, js.toDouble, IsFinite);
  }

  /**
   * The canonical text of an accepted document is JSON text that spells, number for number and key
   * for key, the exact decimal content of the stored document.
   */
  lemma CanonicalTextIsExact(document: Element, js: Numerics, spell: Double -> NumberSyntax)
    requires PrintsRoundTrip(js, spell) && ValidElement(document)
    requires FirstRejected(Scan(ElementText(document), false, false), Check(js)) == None
    ensures var v := Parse(document.value, js.toDouble);
      var s := SyntaxOf(SortDeep(v), spell);
      CanonicalJson(v, spell) == Text(s) && Valid(s) && Decode(s, ExactValue) == Decode(document.value, ExactValue)
  {
    var v := Parse(document.value, js.toDouble);
    AcceptedNumbersAreFinite(document, js);
    ParseDenotes(document.value, js.toDouble, Itself());
    CanonicalIsCompactSorted(v, spell);
    SyntaxOfText(SortDeep(v), spell);
    EverywhereImplies(v, IsFinite, Readable(spell, js.toDouble));
    SortDeepKeepsNumbers(v, Readable(spell, js.toDouble));
    SyntaxOfValid(SortDeep(v), spell, js.toDouble);
    SyntaxOfDecodes(SortDeep(v), spell, ExactValue);
    var printed, exact := Reprinted(spell, ExactValue), (d: Double) => ExactValue(js.stringify(d));
    SortDeepKeepsMeaning(v, printed);
    DenoteDependsOnNumbers(v, IsFinite, printed, exact);
    AcceptedDocumentIsExact(document, js);
  }

  /** The scan accepts every canonical text: printing never produces a token that would be refused. */
  lemma CanonicalTextIsAccepted(v: Json<Double>, js: Numerics, spell: Double -> NumberSyntax)
    requires PrintsRoundTrip(js, spell) && Everywhere(v, IsFinite)
    ensures FirstRejected(Scan(CanonicalJson(v, spell), false, false), Check(js)) == None
  {
    hide Lossless;
    var s := SyntaxOf(SortDeep(v), spell);
    CanonicalIsCompactSorted(v, spell);
    SyntaxOfText(SortDeep(v), spell);
    SortDeepKeepsNumbers(v, IsFinite);
    EverywhereImplies(SortDeep(v), IsFinite, Readable(spell, js.toDouble));
    SyntaxOfValid(SortDeep(v), spell, js.toDouble);
    ScanValue(s, []);
    assert Text(s) + [] == Text(s);
    SyntaxOfNumbers(SortDeep(v), spell, IsFinite);
    forall t | t in Numbers(s)
      ensures Check(js)(t)
    {
      var d :| IsFinite(d) && t == spell(d).Text();
      PrintedTokenIsLossless(d, js, spell);
    }
  }

  lemma PrintedTokenIsLossless(d: Double, js: Numerics, spell: Double -> NumberSyntax)
    requires PrintsRoundTrip(js, spell) && IsFinite(d)
    ensures Lossless(spell(d).Text(), js)
  {
    ParseNumberOf(spell(d));
  }
}
