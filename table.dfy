/**
 * The parts of an SQLite table that the routes rely on: a full scan of the
 * rows in rowid order and `ORDER BY column ASC|DESC`.  Values are compared
 * the way SQLite compares them: NULL sorts first, then numbers, then text,
 * and text compares by code point (the BINARY collation on UTF-8).
 */
module Table {

  datatype SortKey = Null | Num(n: int) | Text(s: string)

  /** Lexicographic order on strings, a prefix before its extensions. */
  predicate TextLe(a: string, b: string)
    decreases |a|
  {
    |a| == 0 || (|b| > 0 && (a[0] < b[0] || (a[0] == b[0] && TextLe(a[1..], b[1..]))))
  }

  predicate KeyLe(a: SortKey, b: SortKey)
  {
    match a
    case Null => true
    case Num(x) => (b.Num? && x <= b.n) || b.Text?
    case Text(s) => b.Text? && TextLe(s, b.s)
  }

  /** `a` may come before `b` in the given direction. */
  predicate InOrder(a: SortKey, b: SortKey, asc: bool)
  {
    if asc then KeyLe(a, b) else KeyLe(b, a)
  }

  ghost predicate SortedBy<T>(s: seq<T>, key: T -> SortKey, asc: bool)
  {
    forall i, j :: 0 <= i < j < |s| ==> InOrder(key(s[i]), key(s[j]), asc)
  }

  lemma {:induction false} TextLeTotal(a: string, b: string)
    ensures TextLe(a, b) || TextLe(b, a)
    decreases |a|
  {
    if |a| > 0 && |b| > 0 && a[0] == b[0] {
      TextLeTotal(a[1..], b[1..]);
    }
  }

  lemma {:induction false} TextLeTransitive(a: string, b: string, c: string)
    requires TextLe(a, b) && TextLe(b, c)
    ensures TextLe(a, c)
    decreases |a|
  {
    if |a| > 0 && a[0] == b[0] && b[0] == c[0] {
      TextLeTransitive(a[1..], b[1..], c[1..]);
    }
  }

  lemma {:induction false} TextLeAntisymmetric(a: string, b: string)
    requires TextLe(a, b) && TextLe(b, a)
    ensures a == b
    decreases |a|
  {
    if |a| > 0 {
      TextLeAntisymmetric(a[1..], b[1..]);
      assert a == [a[0]] + a[1..] && b == [b[0]] + b[1..];
    }
  }

  /** Any two keys are comparable, so ORDER BY has a place for every row. */
  lemma InOrderTotal(a: SortKey, b: SortKey, asc: bool)
    ensures InOrder(a, b, asc) || InOrder(b, a, asc)
  {
    if a.Text? && b.Text? {
      TextLeTotal(a.s, b.s);
    }
  }

  lemma InOrderTransitive(a: SortKey, b: SortKey, c: SortKey, asc: bool)
    requires InOrder(a, b, asc) && InOrder(b, c, asc)
    ensures InOrder(a, c, asc)
  {
    if a.Text? && b.Text? && c.Text? {
      if asc {
        TextLeTransitive(a.s, b.s, c.s);
      } else {
        TextLeTransitive(c.s, b.s, a.s);
      }
    }
  }

  /**
   * A full table scan: every row of `rows` once, in rowid order.  SQLite
   * assigns rowids from 1, so every key lies in [1, nextId).
   */
  method ScanRows<T(==)>(rows: map<int, T>, nextId: int) returns (scanned: seq<T>)
    requires forall id :: id in rows ==> 1 <= id < nextId
    requires forall a, b :: a in rows && b in rows && rows[a] == rows[b] ==> a == b
    ensures forall i :: 0 <= i < |scanned| ==> scanned[i] in rows.Values
    ensures forall id :: id in rows ==> multiset(scanned)[rows[id]] == 1
  {
    scanned := [];
    var id := 1;
    while id < nextId
      invariant 1 <= id <= nextId || (nextId < 1 && id == 1)
      invariant forall i :: 0 <= i < |scanned| ==> scanned[i] in rows.Values
      invariant forall k :: k in rows ==> multiset(scanned)[rows[k]] == if k < id then 1 else 0
    {
      if id in rows {
        scanned := scanned + [rows[id]];
      }
      id := id + 1;
    }
  }

  /** Placing `x` at `k` keeps a sequence sorted when `x` fits between its neighbours. */
  lemma InsertAtSorted<T>(sorted: seq<T>, x: T, key: T -> SortKey, asc: bool, k: nat)
    requires k <= |sorted| && SortedBy(sorted, key, asc)
    requires forall j :: 0 <= j < k ==> InOrder(key(sorted[j]), key(x), asc)
    requires forall j :: k <= j < |sorted| ==> InOrder(key(x), key(sorted[j]), asc)
    ensures SortedBy(sorted[..k] + [x] + sorted[k..], key, asc)
  {
    var r := sorted[..k] + [x] + sorted[k..];
    forall i, j | 0 <= i < j < |r|
      ensures InOrder(key(r[i]), key(r[j]), asc)
    {
      if j < k {
        assert r[i] == sorted[i] && r[j] == sorted[j];
      } else if i > k {
        assert r[i] == sorted[i - 1] && r[j] == sorted[j - 1];
      } else if i == k {
        assert r[j] == sorted[j - 1];
      } else if j == k {
        assert r[i] == sorted[i];
      } else {
        assert r[i] == sorted[i] && r[j] == sorted[j - 1];
      }
    }
  }

  /**
   * Insertion of `x` into a sorted sequence, after every element that may
   * precede it.
   */
  method Insert<T>(sorted: seq<T>, x: T, key: T -> SortKey, asc: bool) returns (r: seq<T>)
    requires SortedBy(sorted, key, asc)
    ensures multiset(r) == multiset(sorted) + multiset{x}
    ensures SortedBy(r, key, asc)
  {
    var k := 0;
    while k < |sorted| && InOrder(key(sorted[k]), key(x), asc)
      invariant 0 <= k <= |sorted|
      invariant forall j :: 0 <= j < k ==> InOrder(key(sorted[j]), key(x), asc)
    {
      k := k + 1;
    }
    if k < |sorted| {
      InOrderTotal(key(sorted[k]), key(x), asc);
      forall j | k < j < |sorted|
        ensures InOrder(key(x), key(sorted[j]), asc)
      {
        InOrderTransitive(key(x), key(sorted[k]), key(sorted[j]), asc);
      }
    }
    InsertAtSorted(sorted, x, key, asc, k);
    r := sorted[..k] + [x] + sorted[k..];
    assert sorted == sorted[..k] + sorted[k..];
  }

  /** `ORDER BY key(row) ASC|DESC`: a sorted permutation of the rows. */
  method SortRows<T>(rows: seq<T>, key: T -> SortKey, asc: bool) returns (sorted: seq<T>)
    ensures multiset(sorted) == multiset(rows)
    ensures SortedBy(sorted, key, asc)
  {
    sorted := [];
    var i := 0;
    while i < |rows|
      invariant 0 <= i <= |rows|
      invariant multiset(sorted) == multiset(rows[..i])
      invariant SortedBy(sorted, key, asc)
    {
      sorted := Insert(sorted, rows[i], key, asc);
      assert rows[..i + 1] == rows[..i] + [rows[i]];
      i := i + 1;
    }
    assert rows[..|rows|] == rows;
  }
}
