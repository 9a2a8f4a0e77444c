/** ORDER BY under the collation of a database, which need not be the order of the rows that were inserted. */
module Collation {

  /** `less` is a strict order, as every deterministic collation is. */
  ghost predicate Asymmetric<T(!new)>(less: (T, T) -> bool) {
    forall a, b :: less(a, b) ==> !less(b, a)
  }

  function InsertRow<T>(row: T, rows: seq<T>, less: (T, T) -> bool): seq<T> {
    if |rows| == 0 || !less(rows[0], row) then [row] + rows else [rows[0]] + InsertRow(row, rows[1..], less)
  }

  function OrderBy<T>(rows: seq<T>, less: (T, T) -> bool): seq<T> {
    if |rows| == 0 then [] else InsertRow(rows[0], OrderBy(rows[1..], less), less)
  }

  predicate InOrder<T>(rows: seq<T>, less: (T, T) -> bool) {
    forall i :: 0 <= i < |rows| - 1 ==> !less(rows[i + 1], rows[i])
  }

  lemma {:induction false} OrderedStays<T>(rows: seq<T>, less: (T, T) -> bool)
    requires InOrder(rows, less)
    ensures OrderBy(rows, less) == rows
  {
    if |rows| > 0 {
      var rest := rows[1..];
      assert forall i :: 0 <= i < |rest| ==> rest[i] == rows[i + 1];
      OrderedStays(rest, less);
    }
  }

  lemma {:induction false} InsertKeepsOrder<T(!new)>(row: T, rows: seq<T>, less: (T, T) -> bool)
    requires InOrder(rows, less) && Asymmetric(less)
    ensures InOrder(InsertRow(row, rows, less), less)
    ensures |InsertRow(row, rows, less)| > 0
    ensures InsertRow(row, rows, less)[0] == row || (|rows| > 0 && InsertRow(row, rows, less)[0] == rows[0])
  {
    var r := InsertRow(row, rows, less);
    if |rows| == 0 || !less(rows[0], row) {
      assert forall i :: 0 < i < |r| ==> r[i] == rows[i - 1];
    } else {
      var rest := rows[1..];
      assert forall i :: 0 <= i < |rest| ==> rest[i] == rows[i + 1];
      InsertKeepsOrder(row, rest, less);
      assert forall i :: 0 < i < |r| ==> r[i] == InsertRow(row, rest, less)[i - 1];
    }
  }

  lemma {:induction false} OrderByOrders<T(!new)>(rows: seq<T>, less: (T, T) -> bool)
    requires Asymmetric(less)
    ensures InOrder(OrderBy(rows, less), less)
  {
    if |rows| > 0 {
      OrderByOrders(rows[1..], less);
      InsertKeepsOrder(rows[0], OrderBy(rows[1..], less), less);
    }
  }

  /** A query returns the rows as they are listed exactly if they are listed in its order. */
  lemma ReadBackIffInOrder<T(!new)>(rows: seq<T>, less: (T, T) -> bool)
    requires Asymmetric(less)
    ensures OrderBy(rows, less) == rows <==> InOrder(rows, less)
  {
    OrderByOrders(rows, less);
    if InOrder(rows, less) { OrderedStays(rows, less); }
  }

  // --- Two collations of text ---

  predicate StringBefore(a: string, b: string) {
    if |b| == 0 then false
    else if |a| == 0 then true
    else if a[0] != b[0] then a[0] < b[0]
    else StringBefore(a[1..], b[1..])
  }

  lemma {:induction false} StringBeforeOneWay(a: string, b: string)
    requires StringBefore(a, b)
    ensures !StringBefore(b, a)
  {
    if |a| > 0 && a[0] == b[0] { StringBeforeOneWay(a[1..], b[1..]); }
  }

  /** BINARY, in which SQLite orders text: the order of the UTF-8 bytes is that of the code points. */
  function BinaryBefore(): (string, string) -> bool {
    (a: string, b: string) => StringBefore(a, b)
  }

  function LowerCase(s: string): string {
    seq(|s|, i requires 0 <= i < |s| => if 'A' <= s[i] <= 'Z' then (s[i] as int + 32) as char else s[i])
  }

  /** An order that looks at case only where nothing else differs, as those of natural languages do. */
  function DictionaryBefore(): (string, string) -> bool {
    (a: string, b: string) =>
      if LowerCase(a) == LowerCase(b) then StringBefore(a, b) else StringBefore(LowerCase(a), LowerCase(b))
  }

  lemma CollationsAreAsymmetric()
    ensures Asymmetric(BinaryBefore()) && Asymmetric(DictionaryBefore())
  {
    forall a, b | StringBefore(a, b)
      ensures !StringBefore(b, a)
    {
      StringBeforeOneWay(a, b);
    }
  }

  lemma {:induction false} StringBeforeIsTotal(a: string, b: string)
    requires a != b
    ensures StringBefore(a, b) || StringBefore(b, a)
  {
    if |a| > 0 && |b| > 0 && a[0] == b[0] {
      assert a == [a[0]] + a[1..] && b == [b[0]] + b[1..];
      StringBeforeIsTotal(a[1..], b[1..]);
    }
  }

  lemma {:induction false} StringBeforeChains(a: string, b: string, c: string)
    requires StringBefore(a, b) && StringBefore(b, c)
    ensures StringBefore(a, c)
  {
    if |a| > 0 && a[0] == b[0] == c[0] { StringBeforeChains(a[1..], b[1..], c[1..]); }
  }

  /** Both put any two different texts in one order, and one chain in the order of its links. */
  lemma CollationsAreTotal(a: string, b: string, c: string)
    ensures a != b ==> BinaryBefore()(a, b) || BinaryBefore()(b, a)
    ensures a != b ==> DictionaryBefore()(a, b) || DictionaryBefore()(b, a)
    ensures BinaryBefore()(a, b) && BinaryBefore()(b, c) ==> BinaryBefore()(a, c)
    ensures DictionaryBefore()(a, b) && DictionaryBefore()(b, c) ==> DictionaryBefore()(a, c)
  {
    var x, y, z := LowerCase(a), LowerCase(b), LowerCase(c);
    if a != b { StringBeforeIsTotal(a, b); }
    if x != y { StringBeforeIsTotal(x, y); }
    if StringBefore(a, b) && StringBefore(b, c) { StringBeforeChains(a, b, c); }
    if StringBefore(x, y) && StringBefore(y, z) { StringBeforeChains(x, y, z); }
    if StringBefore(x, y) && StringBefore(y, x) { StringBeforeOneWay(x, y); }
    hide StringBefore;
    hide LowerCase;
  }
}
