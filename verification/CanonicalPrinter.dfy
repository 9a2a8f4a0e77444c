/** The canonical printer behind the cutover checksums (apps/api/src/cutover-preflight.ts). */
module CanonicalPrinter {
  import opened CodeUnits
  import opened NumberToken
  import opened JsonValues
  import opened JsonSyntax

  // --- JSON.stringify of a string: quotes, backslashes, controls and lone surrogates are escaped ---

  function HexDigit(v: nat): (c: CodeUnit)
    requires v < 16
    ensures IsHexDigit(c) && HexValue(c) == v
  {
    if v < 10 then ZERO + v else 87 + v
  }

  function HexText(c: CodeUnit): (r: Str)
    ensures UnicodeEscape(r).Valid() && UnicodeEscape(r).Unit() == c
  {
    var q := c / 16;
    var p := q / 16;
    [HexDigit(p / 16), HexDigit(p % 16), HexDigit(q % 16), HexDigit(c % 16)]
  }

  predicate IsHighSurrogate(c: CodeUnit) {
    0xD800 <= c <= 0xDBFF
  }

  predicate IsLowSurrogate(c: CodeUnit) {
    0xDC00 <= c <= 0xDFFF
  }

  /** How one code unit is spelled when it stands alone. */
  function UnitSyntax(c: CodeUnit): (r: CharSyntax)
    ensures r.Valid() && r.Unit() == c
  {
    if c == QUOTE then Escape(QUOTE)
    else if c == BACKSLASH then Escape(BACKSLASH)
    else if c == 8 then Escape(98)
    else if c == 9 then Escape(116)
    else if c == 10 then Escape(110)
    else if c == 12 then Escape(102)
    else if c == 13 then Escape(114)
    else if c < 32 || IsHighSurrogate(c) || IsLowSurrogate(c) then UnicodeEscape(HexText(c))
    else Plain(c)
  }

  /** The spelling of a whole string: a surrogate pair stays plain, a lone surrogate is escaped. */
  function StringSyntax(s: Str): (r: seq<CharSyntax>)
    ensures |r| == |s|
  {
    if |s| == 0 then []
    else if |s| > 1 && IsHighSurrogate(s[0]) && IsLowSurrogate(s[1]) then
      [Plain(s[0]), Plain(s[1])] + StringSyntax(s[2..])
    else [UnitSyntax(s[0])] + StringSyntax(s[1..])
  }

  lemma {:induction false} StringSyntaxSpells(s: Str)
    ensures ValidChars(StringSyntax(s)) && CharsUnits(StringSyntax(s)) == s
  {
    hide UnitSyntax;
    if |s| == 0 {
    } else if |s| > 1 && IsHighSurrogate(s[0]) && IsLowSurrogate(s[1]) {
      StringSyntaxSpells(s[2..]);
      PrependSpells(Plain(s[1]), StringSyntax(s[2..]));
      var rest := [Plain(s[1])] + StringSyntax(s[2..]);
      PrependSpells(Plain(s[0]), rest);
      assert StringSyntax(s) == [Plain(s[0])] + rest;
      assert s == [s[0]] + ([s[1]] + s[2..]);
    } else {
      StringSyntaxSpells(s[1..]);
      PrependSpells(UnitSyntax(s[0]), StringSyntax(s[1..]));
      assert s == [s[0]] + s[1..];
    }
  }

  lemma PrependSpells(c: CharSyntax, cs: seq<CharSyntax>)
    requires c.Valid() && ValidChars(cs)
    ensures ValidChars([c] + cs) && CharsUnits([c] + cs) == [c.Unit()] + CharsUnits(cs)
  {
    assert ([c] + cs)[1..] == cs;
  }

  /** A surrogate that is not half of a pair. */
  predicate IsLone(s: Str, i: nat)
    requires i < |s|
  {
    || (0xD800 <= s[i] <= 0xDBFF && !(i + 1 < |s| && 0xDC00 <= s[i + 1] <= 0xDFFF))
    || (0xDC00 <= s[i] <= 0xDFFF && !(i > 0 && 0xD800 <= s[i - 1] <= 0xDBFF))
  }

  /** The letter of a two-unit escape that JSON.stringify uses; it never escapes the solidus. */
  function ShortEscape(c: CodeUnit): (letter: CodeUnit)
    ensures letter != 0 ==> letter in ESCAPE_LETTERS && ESCAPE_LETTERS[letter] == c
  {
    if c == 34 || c == 92 then c
    else if c == 8 then 'b' as int
    else if c == 9 then 't' as int
    else if c == 10 then 'n' as int
    else if c == 12 then 'f' as int
    else if c == 13 then 'r' as int
    else 0
  }

  predicate IsLowerHex(h: Str) {
    |h| == 4 && forall i :: 0 <= i < 4 ==> '0' as int <= h[i] <= '9' as int || 'a' as int <= h[i] <= 'f' as int
  }

  /**
   * Section 25.5.2.3 of ECMA-262: seven units have a short escape, other controls and lone surrogates four digits of
   * lower-case hexadecimal, and everything else stands for itself.
   */
  ghost predicate IsQuoted(s: Str, i: nat, c: CharSyntax)
    requires i < |s|
  {
    if ShortEscape(s[i]) != 0 then c == Escape(ShortEscape(s[i]))
    else if s[i] < 32 || IsLone(s, i) then c.UnicodeEscape? && IsLowerHex(c.hex) && c.Valid() && c.Unit() == s[i]
    else c == Plain(s[i])
  }

  lemma HexTextIsLower(c: CodeUnit)
    ensures IsLowerHex(HexText(c))
  {
  }

  lemma UnitIsQuoted(s: Str)
    requires |s| > 0 && !(|s| > 1 && IsHighSurrogate(s[0]) && IsLowSurrogate(s[1]))
    ensures IsQuoted(s, 0, UnitSyntax(s[0]))
  {
    HexTextIsLower(s[0]);
    hide HexText;
  }

  /** Whether a later unit is lone does not depend on what was cut off, unless the cut goes through a pair. */
  lemma QuotedAfterCut(s: Str, k: nat, i: nat, c: CharSyntax)
    requires k <= i < |s|
    requires k > 0 ==> !(IsHighSurrogate(s[k - 1]) && k < |s| && IsLowSurrogate(s[k]))
    requires IsQuoted(s[k..], i - k, c)
    ensures IsQuoted(s, i, c)
  {
    assert s[k..][i - k] == s[i];
    assert IsLone(s[k..], i - k) == IsLone(s, i);
  }

  /** Every unit of a string is spelled as JSON.stringify spells it. */
  lemma {:induction false} StringIsQuoted(s: Str, i: nat)
    requires i < |s|
    ensures IsQuoted(s, i, StringSyntax(s)[i])
    decreases |s|
  {
    if |s| > 1 && IsHighSurrogate(s[0]) && IsLowSurrogate(s[1]) {
      if i >= 2 {
        StringIsQuoted(s[2..], i - 2);
        QuotedAfterCut(s, 2, i, StringSyntax(s)[i]);
      }
    } else if i == 0 {
      UnitIsQuoted(s);
    } else {
      StringIsQuoted(s[1..], i - 1);
      QuotedAfterCut(s, 1, i, StringSyntax(s)[i]);
    }
  }

  function Quote(s: Str): Str {
    StringText(StringSyntax(s))
  }

  // --- Key order: code-unit lexicographic ---

  predicate Less(a: Str, b: Str) {
    if |a| == 0 then |b| > 0
    else |b| > 0 && (a[0] < b[0] || (a[0] == b[0] && Less(a[1..], b[1..])))
  }

  lemma {:induction false} LessTrichotomy(a: Str, b: Str)
    ensures a == b || Less(a, b) || Less(b, a)
    ensures !(Less(a, b) && Less(b, a)) && !Less(a, a)
  {
    if |a| > 0 && |b| > 0 {
      LessTrichotomy(a[1..], b[1..]);
      if a[0] == b[0] && a[1..] == b[1..] {
        assert a == [a[0]] + a[1..] && b == [b[0]] + b[1..];
      }
    }
    if |a| > 0 { LessTrichotomy(a[1..], a[1..]); }
  }

  predicate FirstDifferAt(a: Str, b: Str, k: nat) {
    k <= |a| && k < |b| && a[..k] == b[..k] && (k == |a| || a[k] < b[k])
  }

  lemma SameBefore(a: Str, b: Str, k: nat)
    requires FirstDifferAt(a, b, k)
    ensures k > 0 ==> a[0] == b[0]
  {
    if k > 0 { assert a[..k][0] == a[0] && b[..k][0] == b[0]; }
  }

  /** Before means: a proper prefix, or a smaller unit where the two first differ. */
  lemma {:induction false} LessMeans(a: Str, b: Str)
    ensures Less(a, b) <==> exists k: nat :: FirstDifferAt(a, b, k)
    decreases |a|
  {
    if |a| > 0 && |b| > 0 && a[0] == b[0] {
      LessMeans(a[1..], b[1..]);
      if k: nat :| FirstDifferAt(a[1..], b[1..], k) {
        assert a[..k + 1] == [a[0]] + a[1..][..k] && b[..k + 1] == [b[0]] + b[1..][..k];
        assert FirstDifferAt(a, b, k + 1);
      }
      if k: nat :| FirstDifferAt(a, b, k) {
        if k > 0 {
          assert a[1..][..k - 1] == a[..k][1..] && b[1..][..k - 1] == b[..k][1..];
          assert FirstDifferAt(a[1..], b[1..], k - 1);
        }
      }
    } else if |b| > 0 {
      if |a| == 0 || a[0] < b[0] { assert FirstDifferAt(a, b, 0); }
      if k: nat :| FirstDifferAt(a, b, k) { SameBefore(a, b, k); }
    }
  }

  lemma {:induction false} LessTransitive(a: Str, b: Str, c: Str)
    requires Less(a, b) && Less(b, c)
    ensures Less(a, c)
  {
    if |a| > 0 && a[0] == b[0] && b[0] == c[0] { LessTransitive(a[1..], b[1..], c[1..]); }
  }

  // --- Sorting members by key ---

  function Insert<N(!new)>(m: Member<N>, sorted: seq<Member<N>>): (r: seq<Member<N>>)
    ensures |r| == |sorted| + 1
    ensures forall x :: x in r <==> x == m || x in sorted
  {
    if |sorted| == 0 || Less(m.key, sorted[0].key) then [m] + sorted
    else [sorted[0]] + Insert(m, sorted[1..])
  }

  function Sort<N(!new)>(members: seq<Member<N>>): (r: seq<Member<N>>)
    ensures |r| == |members|
    ensures forall x :: x in r <==> x in members
  {
    if |members| == 0 then [] else Insert(members[0], Sort(members[1..]))
  }

  predicate Ascending<N(!new)>(members: seq<Member<N>>) {
    forall i, j :: 0 <= i < j < |members| ==> Less(members[i].key, members[j].key)
  }

  lemma {:induction false} InsertSorts<N(!new)>(m: Member<N>, sorted: seq<Member<N>>)
    requires Ascending(sorted) && forall i :: 0 <= i < |sorted| ==> sorted[i].key != m.key
    ensures Ascending(Insert(m, sorted))
  {
    if |sorted| == 0 {
    } else if Less(m.key, sorted[0].key) {
      forall j | 0 < j < |sorted|
        ensures Less(m.key, sorted[j].key)
      {
        LessTransitive(m.key, sorted[0].key, sorted[j].key);
      }
    } else {
      InsertSorts(m, sorted[1..]);
      LessTrichotomy(m.key, sorted[0].key);
      var r := Insert(m, sorted[1..]);
      assert sorted == [sorted[0]] + sorted[1..];
      forall j | 0 <= j < |r|
        ensures Less(sorted[0].key, r[j].key)
      {
        assert r[j] in r;
        if r[j] != m {
          var i :| 0 <= i < |sorted[1..]| && sorted[1..][i] == r[j];
          assert sorted[i + 1] == r[j];
        }
      }
    }
  }

  lemma {:induction false} SortSorts<N(!new)>(members: seq<Member<N>>)
    requires DistinctKeys(members)
    ensures Ascending(Sort(members))
  {
    if |members| > 0 {
      var rest := Sort(members[1..]);
      SortSorts(members[1..]);
      forall i | 0 <= i < |rest|
        ensures rest[i].key != members[0].key
      {
        assert rest[i] in rest;
        var j :| 0 <= j < |members[1..]| && members[1..][j] == rest[i];
        assert members[j + 1] == rest[i];
      }
      InsertSorts(members[0], rest);
      assert members == [members[0]] + members[1..];
    }
  }

  /** Strictly ascending members are determined by which members they are. */
  lemma {:induction false} AscendingIsUnique<N(!new)>(a: seq<Member<N>>, b: seq<Member<N>>)
    requires Ascending(a) && Ascending(b)
    requires forall x :: x in a <==> x in b
    ensures a == b
  {
    if |b| > 0 { assert b[0] in b; }
    if |a| > 0 {
      assert a[0] in a && a[0] in b;
      assert b[0] in a;
      var i :| 0 <= i < |b| && b[i] == a[0];
      var j :| 0 <= j < |a| && a[j] == b[0];
      LessTrichotomy(a[0].key, b[0].key);
      assert a[0] == b[0];
      TailsAgree(a, b);
      AscendingIsUnique(a[1..], b[1..]);
    }
  }

  lemma TailsAgree<N(!new)>(a: seq<Member<N>>, b: seq<Member<N>>)
    requires Ascending(a) && Ascending(b) && |a| > 0 && |b| > 0 && a[0] == b[0]
    requires forall x :: x in a <==> x in b
    ensures forall x :: x in a[1..] <==> x in b[1..]
  {
    LessTrichotomy(a[0].key, a[0].key);
    forall x
      ensures x in a[1..] <==> x in b[1..]
    {
      if x in a[1..] { assert x in a && x in b; assert x != a[0]; }
      if x in b[1..] { assert x in b && x in a; assert x != b[0]; }
    }
  }

  // --- canonicalJson ---

  function CanonicalJson<N(!new)>(v: Json<N>, spell: N -> NumberSyntax): Str
    decreases v, 1
  {
    match v
    case JNull => NULL_TEXT
    case JBool(b) => if b then TRUE_TEXT else FALSE_TEXT
    case JNumber(n) => spell(n).Text()
    case JString(s) => Quote(s)
    case JArray(items) => [LEFT_BRACKET] + (CanonicalItems(items, spell) + [RIGHT_BRACKET])
    case JObject(members) => [LEFT_BRACE] + (CanonicalMembers(v, Sort(members), spell) + [RIGHT_BRACE])
  }

  function CanonicalItems<N(!new)>(items: seq<Json<N>>, spell: N -> NumberSyntax): Str
    decreases items, 0
  {
    if |items| == 0 then []
    else if |items| == 1 then CanonicalJson(items[0], spell)
    else CanonicalJson(items[0], spell) + ([COMMA] + CanonicalItems(items[1..], spell))
  }

  function CanonicalMembers<N(!new)>(whole: Json<N>, members: seq<Member<N>>, spell: N -> NumberSyntax): Str
    requires whole.JObject? && forall m :: m in members ==> m in whole.members
    decreases whole, 0, |members|
  {
    if |members| == 0 then [] else
      assert members[0] in members;
      var first := Quote(members[0].key) + ([COLON] + CanonicalJson(members[0].value, spell));
      if |members| == 1 then first else first + ([COMMA] + CanonicalMembers(whole, members[1..], spell))
  }

  // --- The same text in two passes: sort everywhere, then print in the order found ---

  function SortDeep<N(!new)>(v: Json<N>): Json<N> {
    match v
    case JArray(items) => JArray(SortItems(items))
    case JObject(members) => JObject(Sort(SortMembers(members)))
    case _ => v
  }

  function SortItems<N(!new)>(items: seq<Json<N>>): (r: seq<Json<N>>)
    ensures |r| == |items|
  {
    if |items| == 0 then [] else [SortDeep(items[0])] + SortItems(items[1..])
  }

  function SortMembers<N(!new)>(members: seq<Member<N>>): (r: seq<Member<N>>)
    ensures |r| == |members|
  {
    if |members| == 0 then []
    else [Member(members[0].key, SortDeep(members[0].value))] + SortMembers(members[1..])
  }

  function Compact<N(!new)>(v: Json<N>, spell: N -> NumberSyntax): Str
    decreases v, 1
  {
    match v
    case JNull => NULL_TEXT
    case JBool(b) => if b then TRUE_TEXT else FALSE_TEXT
    case JNumber(n) => spell(n).Text()
    case JString(s) => Quote(s)
    case JArray(items) => [LEFT_BRACKET] + (CompactItems(items, spell) + [RIGHT_BRACKET])
    case JObject(members) => [LEFT_BRACE] + (CompactMembers(members, spell) + [RIGHT_BRACE])
  }

  function CompactItems<N(!new)>(items: seq<Json<N>>, spell: N -> NumberSyntax): Str
    decreases items, 0
  {
    if |items| == 0 then []
    else if |items| == 1 then Compact(items[0], spell)
    else Compact(items[0], spell) + ([COMMA] + CompactItems(items[1..], spell))
  }

  function CompactMember<N(!new)>(m: Member<N>, spell: N -> NumberSyntax): Str
    decreases m, 2
  {
    Quote(m.key) + ([COLON] + Compact(m.value, spell))
  }

  function CompactMembers<N(!new)>(members: seq<Member<N>>, spell: N -> NumberSyntax): Str
    decreases members, 0
  {
    if |members| == 0 then []
    else if |members| == 1 then CompactMember(members[0], spell)
    else CompactMember(members[0], spell) + ([COMMA] + CompactMembers(members[1..], spell))
  }

  lemma {:induction false} InsertMapped<N(!new)>(m: Member<N>, sorted: seq<Member<N>>)
    ensures SortMembers(Insert(m, sorted)) == Insert(Member(m.key, SortDeep(m.value)), SortMembers(sorted))
  {
    if |sorted| == 0 {
    } else if Less(m.key, sorted[0].key) {
      assert Insert(m, sorted)[1..] == sorted;
    } else {
      InsertMapped(m, sorted[1..]);
      assert Insert(m, sorted)[1..] == Insert(m, sorted[1..]);
      assert SortMembers(sorted)[1..] == SortMembers(sorted[1..]);
    }
  }

  lemma {:induction false} SortMapped<N(!new)>(members: seq<Member<N>>)
    ensures SortMembers(Sort(members)) == Sort(SortMembers(members))
  {
    if |members| > 0 {
      SortMapped(members[1..]);
      InsertMapped(members[0], Sort(members[1..]));
      assert SortMembers(members)[1..] == SortMembers(members[1..]);
    }
  }

  lemma {:induction false} CanonicalIsCompactSorted<N(!new)>(v: Json<N>, spell: N -> NumberSyntax)
    ensures CanonicalJson(v, spell) == Compact(SortDeep(v), spell)
    decreases v, 1
  {
    match v
    case JArray(items) => CanonicalItemsAreCompact(items, spell);
    case JObject(members) =>
      CanonicalMembersAreCompact(v, Sort(members), spell);
      SortMapped(members);
    case _ =>
  }

  lemma {:induction false} CanonicalItemsAreCompact<N(!new)>(items: seq<Json<N>>, spell: N -> NumberSyntax)
    ensures CanonicalItems(items, spell) == CompactItems(SortItems(items), spell)
    decreases items, 0
  {
    if |items| > 0 {
      CanonicalIsCompactSorted(items[0], spell);
      CanonicalItemsAreCompact(items[1..], spell);
      assert SortItems(items)[1..] == SortItems(items[1..]);
    }
  }

  lemma {:induction false} CanonicalMembersAreCompact<N(!new)>(whole: Json<N>, members: seq<Member<N>>, spell: N -> NumberSyntax)
    requires whole.JObject? && forall m :: m in members ==> m in whole.members
    ensures CanonicalMembers(whole, members, spell) == CompactMembers(SortMembers(members), spell)
    decreases whole, 0, |members|
  {
    if |members| > 0 {
      assert members[0] in members;
      CanonicalIsCompactSorted(members[0].value, spell);
      CanonicalMembersAreCompact(whole, members[1..], spell);
      assert SortMembers(members)[1..] == SortMembers(members[1..]);
    }
  }
}
