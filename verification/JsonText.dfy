/** JSON values: as JavaScript objects hold them, and as what they mean. */
module JsonValues {
  import opened CodeUnits

  /** A value in memory. Members keep their insertion order, as JavaScript objects do. */
  datatype Json<N> =
    | JNull
    | JBool(b: bool)
    | JNumber(n: N)
    | JString(s: Str)
    | JArray(items: seq<Json<N>>)
    | JObject(members: seq<Member<N>>)

  datatype Member<N> = Member(key: Str, value: Json<N>)

  /** What a value means: member order does not matter. */
  datatype Meaning<N> =
    | MNull
    | MBool(b: bool)
    | MNumber(n: N)
    | MString(s: Str)
    | MArray(items: seq<Meaning<N>>)
    | MObject(members: map<Str, Meaning<N>>)

  function Denote<N, M>(v: Json<N>, f: N -> M): Meaning<M> {
    match v
    case JNull => MNull
    case JBool(b) => MBool(b)
    case JNumber(n) => MNumber(f(n))
    case JString(s) => MString(s)
    case JArray(items) => MArray(DenoteItems(items, f))
    case JObject(members) => MObject(DenoteMembers(members, f))
  }

  function DenoteItems<N, M>(items: seq<Json<N>>, f: N -> M): (r: seq<Meaning<M>>)
    ensures |r| == |items|
  {
    if |items| == 0 then [] else [Denote(items[0], f)] + DenoteItems(items[1..], f)
  }

  function DenoteMembers<N, M>(members: seq<Member<N>>, f: N -> M): map<Str, Meaning<M>> {
    if |members| == 0 then map[]
    else map[members[0].key := Denote(members[0].value, f)] + DenoteMembers(members[1..], f)
  }

  /** Assignment of a property: a present key keeps its place, a new key goes last. */
  function SetMember<N>(members: seq<Member<N>>, m: Member<N>): seq<Member<N>> {
    if |members| == 0 then [m]
    else if members[0].key == m.key then [m] + members[1..]
    else [members[0]] + SetMember(members[1..], m)
  }

  predicate DistinctKeys<N>(members: seq<Member<N>>) {
    forall i, j :: 0 <= i < j < |members| ==> members[i].key != members[j].key
  }

  /** Every object in the value has distinct keys, which every JavaScript object has. */
  predicate WellKeyed<N>(v: Json<N>) {
    match v
    case JArray(items) => forall i :: 0 <= i < |items| ==> WellKeyed(items[i])
    case JObject(members) =>
      DistinctKeys(members) && forall i :: 0 <= i < |members| ==> WellKeyed(members[i].value)
    case _ => true
  }

  lemma {:induction false} DenoteMembersKeys<N, M>(members: seq<Member<N>>, f: N -> M)
    ensures forall k :: k in DenoteMembers(members, f) <==> exists i :: 0 <= i < |members| && members[i].key == k
  {
    if |members| > 0 {
      DenoteMembersKeys(members[1..], f);
      forall k
        ensures k in DenoteMembers(members, f) <==> exists i :: 0 <= i < |members| && members[i].key == k
      {
        if k in DenoteMembers(members[1..], f) {
          var i :| 0 <= i < |members[1..]| && members[1..][i].key == k;
          assert members[i + 1].key == k;
        }
        if i :| 0 <= i < |members| && members[i].key == k {
          if i > 0 { assert members[1..][i - 1].key == k; }
        }
      }
    }
  }

  lemma {:induction false} DenoteMembersAt<N, M>(members: seq<Member<N>>, f: N -> M, i: nat)
    requires DistinctKeys(members) && i < |members|
    ensures members[i].key in DenoteMembers(members, f)
    ensures DenoteMembers(members, f)[members[i].key] == Denote(members[i].value, f)
  {
    var rest := DenoteMembers(members[1..], f);
    assert DenoteMembers(members, f) == map[members[0].key := Denote(members[0].value, f)] + rest;
    DenoteMembersKeys(members[1..], f);
    if i > 0 {
      assert members[1..][i - 1] == members[i];
      DenoteMembersAt(members[1..], f, i - 1);
    } else {
      assert members[0].key !in rest;
    }
  }

  lemma UpdateOfSum<K, V>(a: map<K, V>, b: map<K, V>, k: K, x: V)
    ensures a + b[k := x] == (a + b)[k := x]
  {
  }

  lemma UpdateOfFirst<K, V>(k: K, x: V, y: V, rest: map<K, V>)
    requires k !in rest
    ensures map[k := x] + rest == (map[k := y] + rest)[k := x]
  {
  }

  lemma {:induction false} SetMemberDenotes<N, M>(members: seq<Member<N>>, m: Member<N>, f: N -> M)
    requires DistinctKeys(members)
    ensures DenoteMembers(SetMember(members, m), f) == DenoteMembers(members, f)[m.key := Denote(m.value, f)]
  {
    if |members| > 0 {
      var x, first, rest := Denote(m.value, f), members[0], DenoteMembers(members[1..], f);
      var set_ := SetMember(members, m);
      assert DenoteMembers(set_, f) == map[set_[0].key := Denote(set_[0].value, f)] + DenoteMembers(set_[1..], f);
      DenoteMembersKeys(members[1..], f);
      if first.key == m.key {
        assert set_[1..] == members[1..];
        assert m.key !in rest;
        hide *;
        UpdateOfFirst(m.key, x, Denote(first.value, f), rest);
      } else {
        SetMemberDenotes(members[1..], m, f);
        assert set_[1..] == SetMember(members[1..], m);
        hide *;
        UpdateOfSum(map[first.key := Denote(first.value, f)], rest, m.key, x);
      }
    }
  }

  lemma {:induction false} SetMemberKeepsDistinct<N>(members: seq<Member<N>>, m: Member<N>)
    requires DistinctKeys(members)
    ensures DistinctKeys(SetMember(members, m))
    ensures forall i :: 0 <= i < |SetMember(members, m)| ==> SetMember(members, m)[i] == m || SetMember(members, m)[i] in members
    ensures forall i :: 0 <= i < |SetMember(members, m)| ==>
      SetMember(members, m)[i].key == m.key || exists j :: 0 <= j < |members| && members[j].key == SetMember(members, m)[i].key
  {
    if |members| > 0 && members[0].key != m.key {
      SetMemberKeepsDistinct(members[1..], m);
    }
  }
}

/** The JSON grammar of RFC 8259 sections 2 to 7, as trees that remember their spelling. */
module JsonSyntax {
  import opened CodeUnits
  import opened NumberToken
  import opened JsonValues

  predicate IsWhitespace(s: Str) {
    forall i :: 0 <= i < |s| ==> s[i] == 32 || s[i] == 9 || s[i] == 10 || s[i] == 13
  }

  // --- Strings (section 7) ---

  datatype CharSyntax =
    | Plain(unit: CodeUnit)
    | Escape(letter: CodeUnit)
    | UnicodeEscape(hex: Str)
  {
    predicate Valid() {
      match this
      case Plain(c) => c >= 32 && c != QUOTE && c != BACKSLASH
      case Escape(c) => c in ESCAPE_LETTERS
      case UnicodeEscape(h) => |h| == 4 && forall i :: 0 <= i < 4 ==> IsHexDigit(h[i])
    }

    function Text(): Str {
      match this
      case Plain(c) => [c]
      case Escape(c) => [BACKSLASH, c]
      case UnicodeEscape(h) => [BACKSLASH, LOWER_U] + h
    }

    /** The code unit this spelling stands for. */
    function Unit(): CodeUnit
      requires Valid()
    {
      match this
      case Plain(c) => c
      case Escape(c) => ESCAPE_LETTERS[c]
      case UnicodeEscape(h) => HexValue(h[0]) * 4096 + HexValue(h[1]) * 256 + HexValue(h[2]) * 16 + HexValue(h[3])
    }
  }

  const LOWER_U: CodeUnit := 117

  /** quote, backslash, solidus, b, f, n, r, t */
  const ESCAPE_LETTERS: map<CodeUnit, CodeUnit> :=
    map[QUOTE := QUOTE, BACKSLASH := BACKSLASH, 47 := 47, 98 := 8, 102 := 12, 110 := 10, 114 := 13, 116 := 9]

  predicate IsHexDigit(c: CodeUnit) {
    IsDigit(c) || 97 <= c <= 102 || 65 <= c <= 70
  }

  function HexValue(c: CodeUnit): (v: nat)
    requires IsHexDigit(c)
    ensures v < 16
  {
    if IsDigit(c) then c - ZERO else if c >= 97 then c - 87 else c - 55
  }

  predicate ValidChars(cs: seq<CharSyntax>) {
    forall i :: 0 <= i < |cs| ==> cs[i].Valid()
  }

  function CharsText(cs: seq<CharSyntax>): Str {
    if |cs| == 0 then [] else cs[0].Text() + CharsText(cs[1..])
  }

  function StringText(cs: seq<CharSyntax>): Str {
    [QUOTE] + CharsText(cs) + [QUOTE]
  }

  function CharsUnits(cs: seq<CharSyntax>): (r: Str)
    requires ValidChars(cs)
    ensures |r| == |cs|
  {
    if |cs| == 0 then [] else [cs[0].Unit()] + CharsUnits(cs[1..])
  }

  // --- Values ---

  const NULL_TEXT: Str := [110, 117, 108, 108]
  const TRUE_TEXT: Str := [116, 114, 117, 101]
  const FALSE_TEXT: Str := [102, 97, 108, 115, 101]

  datatype Syntax =
    | SNull
    | STrue
    | SFalse
    | SNumber(number: NumberSyntax)
    | SString(chars: seq<CharSyntax>)
    | SArray(blank: Str, elements: seq<Element>)
    | SObject(blank: Str, fields: seq<Field>)

  /** ws value ws */
  datatype Element = Element(before: Str, value: Syntax, after: Str)

  /** ws string ws : ws value ws */
  datatype Field = Field(before: Str, key: seq<CharSyntax>, gap: Str, element: Element)

  predicate Valid(v: Syntax) {
    match v
    case SNumber(n) => n.Valid()
    case SString(cs) => ValidChars(cs)
    case SArray(blank, es) => IsWhitespace(blank) && forall i :: 0 <= i < |es| ==> ValidElement(es[i])
    case SObject(blank, fs) => IsWhitespace(blank) && forall i :: 0 <= i < |fs| ==> ValidField(fs[i])
    case _ => true
  }

  predicate ValidElement(e: Element) {
    IsWhitespace(e.before) && IsWhitespace(e.after) && Valid(e.value)
  }

  predicate ValidField(f: Field) {
    IsWhitespace(f.before) && IsWhitespace(f.gap) && ValidChars(f.key) && ValidElement(f.element)
  }

  /** The text of a value; `blank` is spelled only inside an empty array or object. */
  function Text(v: Syntax): Str
    decreases v, 1
  {
    match v
    case SNull => NULL_TEXT
    case STrue => TRUE_TEXT
    case SFalse => FALSE_TEXT
    case SNumber(n) => n.Text()
    case SString(cs) => StringText(cs)
    case SArray(blank, es) => [LEFT_BRACKET] + ((if |es| == 0 then blank else ElementsText(es)) + [RIGHT_BRACKET])
    case SObject(blank, fs) => [LEFT_BRACE] + ((if |fs| == 0 then blank else FieldsText(fs)) + [RIGHT_BRACE])
  }

  function ElementText(e: Element): Str
    decreases e, 2
  {
    e.before + (Text(e.value) + e.after)
  }

  function ElementsText(es: seq<Element>): Str
    requires |es| > 0
    decreases es, 0
  {
    if |es| == 1 then ElementText(es[0]) else ElementText(es[0]) + ([COMMA] + ElementsText(es[1..]))
  }

  function FieldText(f: Field): Str
    decreases f, 3
  {
    f.before + (StringText(f.key) + (f.gap + ([COLON] + ElementText(f.element))))
  }

  function FieldsText(fs: seq<Field>): Str
    requires |fs| > 0
    decreases fs, 0
  {
    if |fs| == 1 then FieldText(fs[0]) else FieldText(fs[0]) + ([COMMA] + FieldsText(fs[1..]))
  }

  // --- Number leaves, in reading order ---

  function Numbers(v: Syntax): seq<Str>
    decreases v, 1
  {
    match v
    case SNumber(n) => [n.Text()]
    case SArray(_, es) => ElementNumbers(es)
    case SObject(_, fs) => FieldNumbers(fs)
    case _ => []
  }

  function ElementNumbers(es: seq<Element>): seq<Str>
    decreases es, 0
  {
    if |es| == 0 then [] else Numbers(es[0].value) + ElementNumbers(es[1..])
  }

  function FieldNumbers(fs: seq<Field>): seq<Str>
    decreases fs, 0
  {
    if |fs| == 0 then [] else Numbers(fs[0].element.value) + FieldNumbers(fs[1..])
  }

  // --- What a text means, and what JSON.parse builds from it ---

  function Decode<N>(v: Syntax, read: Str -> N): Meaning<N>
    requires Valid(v)
    decreases v, 1
  {
    match v
    case SNull => MNull
    case STrue => MBool(true)
    case SFalse => MBool(false)
    case SNumber(n) => MNumber(read(n.Text()))
    case SString(cs) => MString(CharsUnits(cs))
    case SArray(_, es) => MArray(DecodeElements(es, read))
    case SObject(_, fs) => MObject(DecodeFields(fs, read))
  }

  function DecodeElements<N>(es: seq<Element>, read: Str -> N): seq<Meaning<N>>
    requires forall i :: 0 <= i < |es| ==> ValidElement(es[i])
    decreases es, 0
  {
    if |es| == 0 then [] else assert ValidElement(es[0]); [Decode(es[0].value, read)] + DecodeElements(es[1..], read)
  }

  /** Where a key is repeated its last value counts. */
  function DecodeFields<N>(fs: seq<Field>, read: Str -> N): map<Str, Meaning<N>>
    requires forall i :: 0 <= i < |fs| ==> ValidField(fs[i])
    decreases fs, 0
  {
    if |fs| == 0 then map[] else
      var last := fs[|fs| - 1];
      assert ValidField(last) && ValidElement(last.element);
      DecodeFields(fs[..|fs| - 1], read)[CharsUnits(last.key) := Decode(last.element.value, read)]
  }

  function Parse<N>(v: Syntax, read: Str -> N): Json<N>
    requires Valid(v)
    decreases v, 1
  {
    match v
    case SNull => JNull
    case STrue => JBool(true)
    case SFalse => JBool(false)
    case SNumber(n) => JNumber(read(n.Text()))
    case SString(cs) => JString(CharsUnits(cs))
    case SArray(_, es) => JArray(ParseElements(es, read))
    case SObject(_, fs) => JObject(ParseFields(fs, read))
  }

  function ParseElements<N>(es: seq<Element>, read: Str -> N): seq<Json<N>>
    requires forall i :: 0 <= i < |es| ==> ValidElement(es[i])
    decreases es, 0
  {
    if |es| == 0 then [] else assert ValidElement(es[0]); [Parse(es[0].value, read)] + ParseElements(es[1..], read)
  }

  function ParseFields<N>(fs: seq<Field>, read: Str -> N): seq<Member<N>>
    requires forall i :: 0 <= i < |fs| ==> ValidField(fs[i])
    decreases fs, 0
  {
    if |fs| == 0 then [] else
      var last := fs[|fs| - 1];
      assert ValidField(last) && ValidElement(last.element);
      SetMember(ParseFields(fs[..|fs| - 1], read), Member(CharsUnits(last.key), Parse(last.element.value, read)))
  }

  function Compose<A, B, C>(f: B -> C, g: A -> B): A -> C {
    (a: A) => f(g(a))
  }

  // --- JSON.parse builds well-keyed values that mean what the text means ---

  lemma {:induction false} ParseDenotes<N, M>(v: Syntax, read: Str -> N, f: N -> M)
    requires Valid(v)
    ensures WellKeyed(Parse(v, read))
    ensures Denote(Parse(v, read), f) == Decode(v, Compose(f, read))
    decreases v, 1
  {
    match v
    case SArray(_, es) => ParseElementsDenote(es, read, f);
    case SObject(_, fs) => ParseFieldsDenote(fs, read, f);
    case _ =>
  }

  lemma {:induction false} ParseElementsDenote<N, M>(es: seq<Element>, read: Str -> N, f: N -> M)
    requires forall i :: 0 <= i < |es| ==> ValidElement(es[i])
    ensures var r := ParseElements(es, read); forall i :: 0 <= i < |r| ==> WellKeyed(r[i])
    ensures DenoteItems(ParseElements(es, read), f) == DecodeElements(es, Compose(f, read))
    decreases es, 0
  {
    if |es| > 0 {
      assert ValidElement(es[0]);
      ParseDenotes(es[0].value, read, f);
      ParseElementsDenote(es[1..], read, f);
    }
  }

  lemma {:induction false} ParseFieldsDenote<N, M>(fs: seq<Field>, read: Str -> N, f: N -> M)
    requires forall i :: 0 <= i < |fs| ==> ValidField(fs[i])
    ensures var r := ParseFields(fs, read); DistinctKeys(r) && forall i :: 0 <= i < |r| ==> WellKeyed(r[i].value)
    ensures DenoteMembers(ParseFields(fs, read), f) == DecodeFields(fs, Compose(f, read))
    decreases fs, 0
  {
    if |fs| > 0 {
      var last := fs[|fs| - 1];
      assert ValidField(last) && ValidElement(last.element);
      var init := ParseFields(fs[..|fs| - 1], read);
      var m := Member(CharsUnits(last.key), Parse(last.element.value, read));
      ParseFieldsDenote(fs[..|fs| - 1], read, f);
      ParseDenotes(last.element.value, read, f);
      SetMemberDenotes(init, m, f);
      SetMemberKeepsDistinct(init, m);
    }
  }

  /** Two readings that agree on the number leaves decode alike. */
  lemma {:induction false} DecodeDependsOnNumbers<N>(v: Syntax, f: Str -> N, g: Str -> N)
    requires Valid(v)
    requires forall t :: t in Numbers(v) ==> f(t) == g(t)
    ensures Decode(v, f) == Decode(v, g)
    decreases v, 1
  {
    match v
    case SNumber(n) => assert n.Text() in Numbers(v);
    case SArray(_, es) => ElementsDependOnNumbers(es, f, g);
    case SObject(_, fs) => FieldsDependOnNumbers(fs, f, g);
    case _ =>
  }

  lemma {:induction false} ElementsDependOnNumbers<N>(es: seq<Element>, f: Str -> N, g: Str -> N)
    requires forall i :: 0 <= i < |es| ==> ValidElement(es[i])
    requires forall t :: t in ElementNumbers(es) ==> f(t) == g(t)
    ensures DecodeElements(es, f) == DecodeElements(es, g)
    decreases es, 0
  {
    if |es| > 0 {
      assert ValidElement(es[0]);
      DecodeDependsOnNumbers(es[0].value, f, g);
      ElementsDependOnNumbers(es[1..], f, g);
    }
  }

  lemma {:induction false} FieldsDependOnNumbers<N>(fs: seq<Field>, f: Str -> N, g: Str -> N)
    requires forall i :: 0 <= i < |fs| ==> ValidField(fs[i])
    requires forall t :: t in FieldNumbers(fs) ==> f(t) == g(t)
    ensures DecodeFields(fs, f) == DecodeFields(fs, g)
    decreases fs, 0
  {
    if |fs| > 0 {
      FieldNumbersSplit(fs);
      assert ValidField(fs[|fs| - 1]) && ValidElement(fs[|fs| - 1].element);
      DecodeDependsOnNumbers(fs[|fs| - 1].element.value, f, g);
      FieldsDependOnNumbers(fs[..|fs| - 1], f, g);
    }
  }

  lemma {:induction false} FieldNumbersSplit(fs: seq<Field>)
    requires |fs| > 0
    ensures FieldNumbers(fs) == FieldNumbers(fs[..|fs| - 1]) + Numbers(fs[|fs| - 1].element.value)
  {
    if |fs| > 1 {
      FieldNumbersSplit(fs[1..]);
      assert fs[1..][..|fs| - 2] == fs[..|fs| - 1][1..];
    }
  }
}
