/** Canonical text is a canonical form: it decodes uniquely, and exactly equal meanings share it. */
module CanonicalText {
  import opened CodeUnits
  import opened NumberToken
  import opened JsonValues
  import opened JsonSyntax
  import opened CanonicalPrinter
  import opened NumberScan

  // --- The values that can be printed ---

  /** Every number leaf of `v` satisfies `p`. */
  predicate Everywhere<N>(v: Json<N>, p: N -> bool) {
    match v
    case JNumber(n) => p(n)
    case JArray(items) => forall i :: 0 <= i < |items| ==> Everywhere(items[i], p)
    case JObject(members) => forall i :: 0 <= i < |members| ==> Everywhere(members[i].value, p)
    case _ => true
  }

  /** The number is spelled by the grammar and reads back as itself. */
  function Readable<N(==)>(spell: N -> NumberSyntax, read: Str -> N): N -> bool {
    (n: N) => spell(n).Valid() && read(spell(n).Text()) == n
  }

  // --- Unique decodability ---

  lemma SameHead(a: Str, b: Str, s: Str, t: Str)
    requires |a| == |b| && a + s == b + t
    ensures a == b && s == t
  {
    assert (a + s)[..|a|] == a && (b + t)[..|b|] == b;
    assert (a + s)[|a|..] == s && (b + t)[|b|..] == t;
  }

  lemma Regroup(a: Str, b: Str, c: Str, s: Str)
    ensures (a + b + c) + s == a + (b + (c + s))
    ensures (a + (b + c)) + s == a + (b + (c + s))
  {
  }

  lemma {:induction false} CharsDecode(a: seq<CharSyntax>, b: seq<CharSyntax>, s: Str, t: Str)
    requires ValidChars(a) && ValidChars(b)
    requires CharsText(a) + ([QUOTE] + s) == CharsText(b) + ([QUOTE] + t)
    ensures a == b && s == t
  {
    if |a| == 0 || |b| == 0 {
      EmptyCharsDecode(a, s);
      EmptyCharsDecode(b, t);
      assert (CharsText(a) + ([QUOTE] + s))[0] == (CharsText(b) + ([QUOTE] + t))[0];
      SameHead([QUOTE], [QUOTE], s, t);
    } else {
      var s1, t1 := CharsText(a[1..]) + ([QUOTE] + s), CharsText(b[1..]) + ([QUOTE] + t);
      Assoc(a[0].Text(), CharsText(a[1..]), [QUOTE] + s);
      Assoc(b[0].Text(), CharsText(b[1..]), [QUOTE] + t);
      CharDecodes(a[0], b[0], s1, t1);
      CharsDecode(a[1..], b[1..], s, t);
    }
  }

  lemma EmptyCharsDecode(cs: seq<CharSyntax>, s: Str)
    requires ValidChars(cs)
    ensures (CharsText(cs) + ([QUOTE] + s))[0] == QUOTE <==> |cs| == 0
    ensures |cs| == 0 ==> CharsText(cs) + ([QUOTE] + s) == [QUOTE] + s
  {
    if |cs| > 0 {
      assert cs[0].Valid();
      assert CharsText(cs)[0] == cs[0].Text()[0];
    }
  }

  lemma CharDecodes(c: CharSyntax, d: CharSyntax, s: Str, t: Str)
    requires c.Valid() && d.Valid() && c.Text() + s == d.Text() + t
    ensures c == d && s == t
  {
    var u, w := c.Text() + s, d.Text() + t;
    assert u[0] == c.Text()[0] && w[0] == d.Text()[0];
    if !c.Plain? && !d.Plain? {
      assert u[1] == c.Text()[1] && w[1] == d.Text()[1];
    }
    assert |c.Text()| == |d.Text()|;
    SameHead(c.Text(), d.Text(), s, t);
    if c.UnicodeEscape? {
      assert c.Text()[2..] == c.hex && d.Text()[2..] == d.hex;
    }
  }

  lemma QuoteDecodes(a: Str, b: Str, s: Str, t: Str)
    requires Quote(a) + s == Quote(b) + t
    ensures a == b && s == t
  {
    var c, d := StringSyntax(a), StringSyntax(b);
    StringSyntaxSpells(a);
    StringSyntaxSpells(b);
    hide CharsText;
    Regroup([QUOTE], CharsText(c), [QUOTE], s);
    Regroup([QUOTE], CharsText(d), [QUOTE], t);
    SameHead([QUOTE], [QUOTE], CharsText(c) + ([QUOTE] + s), CharsText(d) + ([QUOTE] + t));
    CharsDecode(c, d, s, t);
  }

  lemma NumberDecodes<N>(a: N, b: N, s: Str, t: Str, spell: N -> NumberSyntax, read: Str -> N)
    requires Readable(spell, read)(a) && Readable(spell, read)(b) && EndsNumber(s) && EndsNumber(t)
    requires spell(a).Text() + s == spell(b).Text() + t
    ensures a == b && s == t
  {
    MatchTokenOf(spell(a), s);
    MatchTokenOf(spell(b), t);
    SameHead(spell(a).Text(), spell(b).Text(), s, t);
  }

  /** The first unit of a printed value tells its kind. */
  lemma FirstUnit<N(!new)>(v: Json<N>, s: Str, spell: N -> NumberSyntax, read: Str -> N)
    requires Everywhere(v, Readable(spell, read))
    ensures var u := Compact(v, spell) + s;
      && |u| > 0
      && (match v
          case JNull => u[0] == 110
          case JBool(b) => u[0] == if b then 116 else 102
          case JNumber(_) => u[0] == MINUS || IsDigit(u[0])
          case JString(_) => u[0] == QUOTE
          case JArray(_) => u[0] == LEFT_BRACKET
          case JObject(_) => u[0] == LEFT_BRACE)
  {
    match v
    case JNumber(n) =>
      TextSplits(spell(n));
      assert spell(n).Text()[0] == MINUS || spell(n).Text()[0] == spell(n).integer[0];
    case _ =>
  }

  /** What follows the first of several printed parts: a comma and the rest, or the closing unit. */
  function Following(count: nat, others: Str, close: CodeUnit, s: Str): (r: Str)
    ensures |r| > 0 && r[0] == if count == 1 then close else COMMA
  {
    if count == 1 then [close] + s else [COMMA] + (others + ([close] + s))
  }

  lemma FollowingDecodes(c: nat, d: nat, v: Str, w: Str, close: CodeUnit, s: Str, t: Str)
    requires close != COMMA && Following(c, v, close, s) == Following(d, w, close, t)
    ensures c == 1 <==> d == 1
    ensures c == 1 ==> s == t
    ensures c != 1 ==> v + ([close] + s) == w + ([close] + t)
  {
    var x, y := Following(c, v, close, s), Following(d, w, close, t);
    assert x[1..] == if c == 1 then s else v + ([close] + s);
    assert y[1..] == if d == 1 then t else w + ([close] + t);
  }

  /** No printed text is a proper prefix of another that ends where a number cannot go on. */
  lemma {:induction false} CompactDecodes<N(!new)>(
      a: Json<N>, b: Json<N>, s: Str, t: Str, spell: N -> NumberSyntax, read: Str -> N)
    requires Everywhere(a, Readable(spell, read)) && Everywhere(b, Readable(spell, read))
    requires EndsNumber(s) && EndsNumber(t) && Compact(a, spell) + s == Compact(b, spell) + t
    ensures a == b && s == t
    decreases a, 1
  {
    FirstUnit(a, s, spell, read);
    FirstUnit(b, t, spell, read);
    match a
    case JNumber(n) => NumberDecodes(n, b.n, s, t, spell, read);
    case JString(k) => QuoteDecodes(k, b.s, s, t);
    case JArray(items) =>
      Unwrap(LEFT_BRACKET, RIGHT_BRACKET, CompactItems(items, spell), CompactItems(b.items, spell), s, t);
      ItemsDecode(items, b.items, s, t, spell, read);
    case JObject(members) =>
      Unwrap(LEFT_BRACE, RIGHT_BRACE, CompactMembers(members, spell), CompactMembers(b.members, spell), s, t);
      MembersDecode(members, b.members, s, t, spell, read);
    case _ => SameHead(Compact(a, spell), Compact(b, spell), s, t);
  }

  lemma Unwrap(open: CodeUnit, close: CodeUnit, v: Str, w: Str, s: Str, t: Str)
    requires [open] + (v + [close]) + s == [open] + (w + [close]) + t
    ensures v + ([close] + s) == w + ([close] + t)
  {
    assert [open] + (v + [close]) + s == [open] + (v + ([close] + s));
    assert [open] + (w + [close]) + t == [open] + (w + ([close] + t));
    SameHead([open], [open], v + ([close] + s), w + ([close] + t));
  }

  lemma SplitFollowing(part: Str, count: nat, others: Str, close: CodeUnit, s: Str)
    ensures (if count == 1 then part else part + ([COMMA] + others)) + ([close] + s)
         == part + Following(count, others, close, s)
  {
  }

  lemma {:induction false} ItemsDecode<N(!new)>(
      a: seq<Json<N>>, b: seq<Json<N>>, s: Str, t: Str, spell: N -> NumberSyntax, read: Str -> N)
    requires forall i :: 0 <= i < |a| ==> Everywhere(a[i], Readable(spell, read))
    requires forall i :: 0 <= i < |b| ==> Everywhere(b[i], Readable(spell, read))
    requires CompactItems(a, spell) + ([RIGHT_BRACKET] + s) == CompactItems(b, spell) + ([RIGHT_BRACKET] + t)
    ensures a == b && s == t
    decreases a, 0
  {
    FirstOfItems(a, s, spell, read);
    FirstOfItems(b, t, spell, read);
    if |a| == 0 || |b| == 0 {
      SameHead([RIGHT_BRACKET], [RIGHT_BRACKET], s, t);
    } else {
      var v, w := CompactItems(a[1..], spell), CompactItems(b[1..], spell);
      var f, g := Following(|a|, v, RIGHT_BRACKET, s), Following(|b|, w, RIGHT_BRACKET, t);
      SplitFollowing(Compact(a[0], spell), |a|, v, RIGHT_BRACKET, s);
      SplitFollowing(Compact(b[0], spell), |b|, w, RIGHT_BRACKET, t);
      CompactDecodes(a[0], b[0], f, g, spell, read);
      FollowingDecodes(|a|, |b|, v, w, RIGHT_BRACKET, s, t);
      if |a| > 1 { ItemsDecode(a[1..], b[1..], s, t, spell, read); }
      assert a == [a[0]] + a[1..] && b == [b[0]] + b[1..];
    }
  }

  lemma FirstOfItems<N(!new)>(a: seq<Json<N>>, s: Str, spell: N -> NumberSyntax, read: Str -> N)
    requires forall i :: 0 <= i < |a| ==> Everywhere(a[i], Readable(spell, read))
    ensures var u := CompactItems(a, spell) + ([RIGHT_BRACKET] + s);
      (u[0] == RIGHT_BRACKET <==> |a| == 0) && (|a| == 0 ==> u == [RIGHT_BRACKET] + s)
  {
    if |a| > 0 {
      SplitFollowing(Compact(a[0], spell), |a|, CompactItems(a[1..], spell), RIGHT_BRACKET, s);
      FirstUnit(a[0], Following(|a|, CompactItems(a[1..], spell), RIGHT_BRACKET, s), spell, read);
    }
  }

  lemma {:induction false} MembersDecode<N(!new)>(
      a: seq<Member<N>>, b: seq<Member<N>>, s: Str, t: Str, spell: N -> NumberSyntax, read: Str -> N)
    requires forall i :: 0 <= i < |a| ==> Everywhere(a[i].value, Readable(spell, read))
    requires forall i :: 0 <= i < |b| ==> Everywhere(b[i].value, Readable(spell, read))
    requires CompactMembers(a, spell) + ([RIGHT_BRACE] + s) == CompactMembers(b, spell) + ([RIGHT_BRACE] + t)
    ensures a == b && s == t
    decreases a, 0
  {
    FirstOfMembers(a, s, spell);
    FirstOfMembers(b, t, spell);
    if |a| == 0 || |b| == 0 {
      SameHead([RIGHT_BRACE], [RIGHT_BRACE], s, t);
    } else {
      var v, w := CompactMembers(a[1..], spell), CompactMembers(b[1..], spell);
      var f, g := Following(|a|, v, RIGHT_BRACE, s), Following(|b|, w, RIGHT_BRACE, t);
      SplitFollowing(CompactMember(a[0], spell), |a|, v, RIGHT_BRACE, s);
      SplitFollowing(CompactMember(b[0], spell), |b|, w, RIGHT_BRACE, t);
      MemberDecodes(a[0], b[0], f, g, spell, read);
      FollowingDecodes(|a|, |b|, v, w, RIGHT_BRACE, s, t);
      if |a| > 1 { MembersDecode(a[1..], b[1..], s, t, spell, read); }
      assert a == [a[0]] + a[1..] && b == [b[0]] + b[1..];
    }
  }

  lemma {:induction false} MemberDecodes<N(!new)>(
      a: Member<N>, b: Member<N>, s: Str, t: Str, spell: N -> NumberSyntax, read: Str -> N)
    requires Everywhere(a.value, Readable(spell, read)) && Everywhere(b.value, Readable(spell, read))
    requires EndsNumber(s) && EndsNumber(t) && CompactMember(a, spell) + s == CompactMember(b, spell) + t
    ensures a == b && s == t
    decreases a, 2
  {
    var v, w := Compact(a.value, spell) + s, Compact(b.value, spell) + t;
    Regroup(Quote(a.key), [COLON], Compact(a.value, spell), s);
    Regroup(Quote(b.key), [COLON], Compact(b.value, spell), t);
    QuoteDecodes(a.key, b.key, [COLON] + v, [COLON] + w);
    SameHead([COLON], [COLON], v, w);
    CompactDecodes(a.value, b.value, s, t, spell, read);
  }

  lemma FirstOfMembers<N(!new)>(a: seq<Member<N>>, s: Str, spell: N -> NumberSyntax)
    ensures var u := CompactMembers(a, spell) + ([RIGHT_BRACE] + s);
      (u[0] == RIGHT_BRACE <==> |a| == 0) && (|a| == 0 ==> u == [RIGHT_BRACE] + s)
  {
    if |a| > 0 {
      assert CompactMember(a[0], spell)[0] == QUOTE;
    }
  }

  // --- Sorting keeps the meaning ---

  lemma AscendingIsDistinct<N(!new)>(members: seq<Member<N>>)
    requires Ascending(members)
    ensures DistinctKeys(members)
  {
    forall i, j | 0 <= i < j < |members|
      ensures members[i].key != members[j].key
    {
      LessTrichotomy(members[i].key, members[j].key);
    }
  }

  /** The meaning of members with distinct keys depends only on which members they are. */
  lemma MembersAsSet<N(!new), M>(a: seq<Member<N>>, b: seq<Member<N>>, f: N -> M)
    requires DistinctKeys(a) && DistinctKeys(b) && forall m :: m in a <==> m in b
    ensures DenoteMembers(a, f) == DenoteMembers(b, f)
  {
    DenoteMembersKeys(a, f);
    DenoteMembersKeys(b, f);
    forall i | 0 <= i < |a|
      ensures a[i].key in DenoteMembers(b, f) && DenoteMembers(a, f)[a[i].key] == DenoteMembers(b, f)[a[i].key]
    {
      assert a[i] in b;
      var j :| 0 <= j < |b| && b[j] == a[i];
      DenoteMembersAt(a, f, i);
      DenoteMembersAt(b, f, j);
    }
    forall i | 0 <= i < |b|
      ensures b[i].key in DenoteMembers(a, f)
    {
      assert b[i] in a;
      var j :| 0 <= j < |a| && a[j] == b[i];
    }
  }

  lemma SortMembersAt<N(!new)>(members: seq<Member<N>>, i: nat)
    requires i < |members|
    ensures SortMembers(members)[i] == Member(members[i].key, SortDeep(members[i].value))
  {
    if i > 0 { SortMembersAt(members[1..], i - 1); }
  }

  lemma SortMembersDistinct<N(!new)>(members: seq<Member<N>>)
    requires DistinctKeys(members)
    ensures DistinctKeys(SortMembers(members))
  {
    forall i, j | 0 <= i < j < |members|
      ensures SortMembers(members)[i].key != SortMembers(members)[j].key
    {
      SortMembersAt(members, i);
      SortMembersAt(members, j);
    }
  }

  lemma {:induction false} SortDeepKeepsMeaning<N(!new), M>(v: Json<N>, f: N -> M)
    requires WellKeyed(v)
    ensures Denote(SortDeep(v), f) == Denote(v, f)
    decreases v, 1
  {
    match v
    case JArray(items) => SortItemsKeepMeaning(items, f);
    case JObject(members) =>
      SortMembersKeepMeaning(members, f);
      SortMembersDistinct(members);
      SortSorts(SortMembers(members));
      AscendingIsDistinct(Sort(SortMembers(members)));
      MembersAsSet(Sort(SortMembers(members)), SortMembers(members), f);
    case _ =>
  }

  lemma {:induction false} SortItemsKeepMeaning<N(!new), M>(items: seq<Json<N>>, f: N -> M)
    requires forall i :: 0 <= i < |items| ==> WellKeyed(items[i])
    ensures DenoteItems(SortItems(items), f) == DenoteItems(items, f)
    decreases items, 0
  {
    if |items| > 0 {
      SortDeepKeepsMeaning(items[0], f);
      SortItemsKeepMeaning(items[1..], f);
      assert SortItems(items)[1..] == SortItems(items[1..]);
    }
  }

  lemma {:induction false} SortMembersKeepMeaning<N(!new), M>(members: seq<Member<N>>, f: N -> M)
    requires forall i :: 0 <= i < |members| ==> WellKeyed(members[i].value)
    ensures DenoteMembers(SortMembers(members), f) == DenoteMembers(members, f)
    decreases members, 0
  {
    if |members| > 0 {
      SortDeepKeepsMeaning(members[0].value, f);
      SortMembersKeepMeaning(members[1..], f);
      assert SortMembers(members)[1..] == SortMembers(members[1..]);
    }
  }

  function Itself<N>(): N -> N {
    (n: N) => n
  }

  /** Values that mean the same are the same once every object is sorted. */
  lemma {:induction false} MeaningDeterminesSorted<N(!new)>(a: Json<N>, b: Json<N>)
    requires WellKeyed(a) && WellKeyed(b) && Denote(a, Itself()) == Denote(b, Itself())
    ensures SortDeep(a) == SortDeep(b)
    decreases a, 1
  {
    match a
    case JArray(items) => MeaningDeterminesItems(items, b.items);
    case JObject(members) =>
      SortMembersDistinct(members);
      SortMembersDistinct(b.members);
      SortSorts(SortMembers(members));
      SortSorts(SortMembers(b.members));
      MeaningDeterminesMembers(members, b.members);
      AscendingIsUnique(Sort(SortMembers(members)), Sort(SortMembers(b.members)));
    case _ =>
  }

  lemma {:induction false} MeaningDeterminesItems<N(!new)>(a: seq<Json<N>>, b: seq<Json<N>>)
    requires forall i :: 0 <= i < |a| ==> WellKeyed(a[i])
    requires forall i :: 0 <= i < |b| ==> WellKeyed(b[i])
    requires DenoteItems(a, Itself()) == DenoteItems(b, Itself())
    ensures SortItems(a) == SortItems(b)
    decreases a, 0
  {
    assert |a| == |DenoteItems(a, Itself())| == |b|;
    if |a| > 0 {
      var c, d := DenoteItems(a, Itself()), DenoteItems(b, Itself());
      assert c[0] == d[0] && c[1..] == d[1..];
      assert c[1..] == DenoteItems(a[1..], Itself()) && d[1..] == DenoteItems(b[1..], Itself());
      MeaningDeterminesSorted(a[0], b[0]);
      MeaningDeterminesItems(a[1..], b[1..]);
    }
  }

  lemma {:induction false} MeaningDeterminesMembers<N(!new)>(a: seq<Member<N>>, b: seq<Member<N>>)
    requires DistinctKeys(a) && DistinctKeys(b)
    requires forall i :: 0 <= i < |a| ==> WellKeyed(a[i].value)
    requires forall i :: 0 <= i < |b| ==> WellKeyed(b[i].value)
    requires DenoteMembers(a, Itself()) == DenoteMembers(b, Itself())
    ensures forall m :: m in SortMembers(a) <==> m in SortMembers(b)
    decreases a, 0
  {
    forall i, j | 0 <= i < |a| && 0 <= j < |b| && a[i].key == b[j].key
      ensures SortMembers(a)[i] == SortMembers(b)[j]
    {
      DenoteMembersAt(a, Itself(), i);
      DenoteMembersAt(b, Itself(), j);
      MeaningDeterminesSorted(a[i].value, b[j].value);
      SortMembersAt(a, i);
      SortMembersAt(b, j);
    }
    DenoteMembersKeys(a, Itself());
    DenoteMembersKeys(b, Itself());
    forall m
      ensures m in SortMembers(a) <==> m in SortMembers(b)
    {
      if i :| 0 <= i < |a| && SortMembers(a)[i] == m {
        assert a[i].key in DenoteMembers(b, Itself());
        var j :| 0 <= j < |b| && b[j].key == a[i].key;
        assert SortMembers(b)[j] == m;
      }
      if j :| 0 <= j < |b| && SortMembers(b)[j] == m {
        assert b[j].key in DenoteMembers(a, Itself());
        var i :| 0 <= i < |a| && a[i].key == b[j].key;
        assert SortMembers(a)[i] == m;
      }
    }
  }

  lemma {:induction false} SortDeepKeepsNumbers<N(!new)>(v: Json<N>, p: N -> bool)
    requires Everywhere(v, p)
    ensures Everywhere(SortDeep(v), p)
    decreases v, 1
  {
    match v
    case JArray(items) =>
      SortItemsKeepNumbers(items, p);
      assert Everywhere(JArray(SortItems(items)), p);
    case JObject(members) =>
      SortMembersKeepNumbers(members, p);
      var r := Sort(SortMembers(members));
      forall i | 0 <= i < |r|
        ensures Everywhere(r[i].value, p)
      {
        assert r[i] in r;
        var j :| 0 <= j < |members| && SortMembers(members)[j] == r[i];
        assert Everywhere(SortMembers(members)[j].value, p);
        assert Everywhere(r[i].value, p);
      }
      assert Everywhere(JObject(r), p);
    case _ =>
  }

  lemma {:induction false} SortItemsKeepNumbers<N(!new)>(items: seq<Json<N>>, p: N -> bool)
    requires forall i :: 0 <= i < |items| ==> Everywhere(items[i], p)
    ensures var r := SortItems(items); forall i :: 0 <= i < |r| ==> Everywhere(r[i], p)
    decreases items, 0
  {
    if |items| > 0 {
      SortDeepKeepsNumbers(items[0], p);
      SortItemsKeepNumbers(items[1..], p);
      var r := SortItems(items);
      forall i | 0 <= i < |r|
        ensures Everywhere(r[i], p)
      {
        assert r[i] == if i == 0 then SortDeep(items[0]) else SortItems(items[1..])[i - 1];
        assert Everywhere(r[i], p);
      }
    }
  }

  lemma {:induction false} SortMembersKeepNumbers<N(!new)>(members: seq<Member<N>>, p: N -> bool)
    requires forall i :: 0 <= i < |members| ==> Everywhere(members[i].value, p)
    ensures var r := SortMembers(members); forall i :: 0 <= i < |r| ==> Everywhere(r[i].value, p)
    decreases members, 0
  {
    if |members| > 0 {
      SortDeepKeepsNumbers(members[0].value, p);
      SortMembersKeepNumbers(members[1..], p);
      var r := SortMembers(members);
      forall i | 0 <= i < |r|
        ensures Everywhere(r[i].value, p)
      {
        assert r[i].value == if i == 0 then SortDeep(members[0].value) else SortMembers(members[1..])[i - 1].value;
        assert Everywhere(r[i].value, p);
      }
    }
  }

  // --- The canonical form ---

  /**
   * Two values print to the same canonical text exactly when they are equal up to the order of
   * object members, wherever every number is spelled by the grammar and reads back as itself.
   */
  lemma CanonicalFormDecidesMeaning<N(!new)>(
      a: Json<N>, b: Json<N>, spell: N -> NumberSyntax, read: Str -> N)
    requires WellKeyed(a) && WellKeyed(b)
    requires Everywhere(a, Readable(spell, read)) && Everywhere(b, Readable(spell, read))
    ensures CanonicalJson(a, spell) == CanonicalJson(b, spell) <==> Denote(a, Itself()) == Denote(b, Itself())
  {
    CanonicalIsCompactSorted(a, spell);
    CanonicalIsCompactSorted(b, spell);
    if CanonicalJson(a, spell) == CanonicalJson(b, spell) {
      SortDeepKeepsNumbers(a, Readable(spell, read));
      SortDeepKeepsNumbers(b, Readable(spell, read));
      CompactDecodes(SortDeep(a), SortDeep(b), [], [], spell, read);
      SortDeepKeepsMeaning(a, Itself());
      SortDeepKeepsMeaning(b, Itself());
    }
    if Denote(a, Itself()) == Denote(b, Itself()) {
      MeaningDeterminesSorted(a, b);
    }
  }
}
