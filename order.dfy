/** The relational part of the store's queries: string order as SQLite's
    BINARY collation compares TEXT columns (`ORDER BY ... DESC`, `>=`, `<=`),
    row filtering (`WHERE`), sorting and `LIMIT`. */
module Order {

  /** `a <= b` in code-point lexicographic order; for UTF-8 stored text this is
      the byte order SQLite's BINARY collation uses. */
  predicate LexLe(a: string, b: string) {
    a == [] || (b != [] && (a[0] < b[0] || (a[0] == b[0] && LexLe(a[1..], b[1..]))))
  }

  lemma {:induction false} LexLeTotal(a: string, b: string)
    ensures LexLe(a, b) || LexLe(b, a)
  {
    if a != [] && b != [] && a[0] == b[0] { LexLeTotal(a[1..], b[1..]); }
  }

  lemma {:induction false} LexLeTransitive(a: string, b: string, c: string)
    requires LexLe(a, b) && LexLe(b, c)
    ensures LexLe(a, c)
  {
    if a != [] && a[0] == b[0] && b[0] == c[0] {
      LexLeTransitive(a[1..], b[1..], c[1..]);
    }
  }

  /** The rows of `s` that satisfy `p`, in their stored order (`WHERE p`). */
  function Filter<T(!new)>(s: seq<T>, p: T -> bool): (r: seq<T>)
    ensures forall x :: multiset(r)[x] == if p(x) then multiset(s)[x] else 0
    ensures forall x :: x in r <==> x in s && p(x)
  {
    if s == [] then []
    else
      var rest := Filter(s[1..], p);
      assert s == [s[0]] + s[1..];
      if p(s[0]) then [s[0]] + rest else rest
  }

  /** Filtering with two conditions that agree on every row gives the same rows. */
  lemma {:induction false} FilterCongruent<T(!new)>(s: seq<T>, p: T -> bool, q: T -> bool)
    requires forall x :: x in s ==> p(x) == q(x)
    ensures Filter(s, p) == Filter(s, q)
  {
    if s != [] {
      assert forall x :: x in s[1..] ==> x in s;
      FilterCongruent(s[1..], p, q);
    }
  }

  /** Sorted by `key`, newest (greatest) first: `ORDER BY key DESC`. */
  predicate SortedDesc<T>(s: seq<T>, key: T -> string) {
    forall i, j :: 0 <= i < j < |s| ==> LexLe(key(s[j]), key(s[i]))
  }

  /** Inserts `x` into a list sorted newest first, before the first element
      that is not newer than it. */
  function InsertDesc<T>(x: T, s: seq<T>, key: T -> string): (r: seq<T>)
    requires SortedDesc(s, key)
    ensures SortedDesc(r, key)
    ensures multiset(r) == multiset(s) + multiset{x}
  {
    if s == [] then [x]
    else if LexLe(key(s[0]), key(x)) then
      var r := [x] + s;
      assert multiset(r) == multiset(s) + multiset{x};
      SortedCons(x, s, key);
      r
    else
      LexLeTotal(key(s[0]), key(x));
      var rest := InsertDesc(x, s[1..], key);
      var r := [s[0]] + rest;
      assert s == [s[0]] + s[1..];
      assert multiset(r) == multiset(s) + multiset{x};
      SortedBehindHead(x, s, rest, key);
      r
  }

  /** An element no older than the head of a sorted list can go in front. */
  lemma SortedCons<T>(x: T, s: seq<T>, key: T -> string)
    requires SortedDesc(s, key)
    requires s != [] ==> LexLe(key(s[0]), key(x))
    ensures SortedDesc([x] + s, key)
  {
    var r := [x] + s;
    forall i, j | 0 <= i < j < |r| ensures LexLe(key(r[j]), key(r[i])) {
      if i == 0 && j > 1 { LexLeTransitive(key(s[j - 1]), key(s[0]), key(x)); }
    }
  }

  /** The head of a sorted list stays in front of the rest once `x`, which is
      not newer than the head, has been inserted into the rest. */
  lemma SortedBehindHead<T>(x: T, s: seq<T>, rest: seq<T>, key: T -> string)
    requires s != [] && SortedDesc(s, key) && LexLe(key(x), key(s[0]))
    requires SortedDesc(rest, key) && multiset(rest) == multiset(s[1..]) + multiset{x}
    ensures SortedDesc([s[0]] + rest, key)
  {
    var r := [s[0]] + rest;
    forall j | 1 <= j < |r| ensures LexLe(key(r[j]), key(r[0])) {
      assert r[j] in multiset(rest);
      if r[j] != x {
        assert r[j] in s[1..];
        var k :| 0 <= k < |s[1..]| && s[1..][k] == r[j];
        assert s[k + 1] == r[j];
      }
    }
  }

  /** `ORDER BY key DESC`: the same rows, newest first. Ties keep no promised
      order in SQL; this model resolves them deterministically. */
  function SortDesc<T>(s: seq<T>, key: T -> string): (r: seq<T>)
    ensures SortedDesc(r, key)
    ensures multiset(r) == multiset(s)
    ensures |r| == |s|
  {
    if s == [] then []
    else
      assert s == [s[0]] + s[1..];
      InsertDesc(s[0], SortDesc(s[1..], key), key)
  }

  /** `LIMIT n`: the first `n` rows, or all of them when there are fewer. */
  function Take<T>(s: seq<T>, n: nat): (r: seq<T>)
    ensures |r| == if |s| < n then |s| else n
    ensures r == s[..|r|]
  {
    if |s| < n then s else s[..n]
  }

  /** `ORDER BY key DESC LIMIT n`: at most `n` of the rows, newest first;
      all of them when there are no more than `n`; and no row left out is
      newer than a row returned. */
  function TopN<T>(s: seq<T>, n: nat, key: T -> string): (r: seq<T>)
    ensures |r| == if |s| < n then |s| else n
    ensures SortedDesc(r, key)
    ensures multiset(r) <= multiset(s)
    ensures |s| <= n ==> multiset(r) == multiset(s)
    ensures forall x :: x in s && x !in r ==> forall i :: 0 <= i < |r| ==> LexLe(key(x), key(r[i]))
  {
    var sorted := SortDesc(s, key);
    var r := Take(sorted, n);
    assert sorted == r + sorted[|r|..];
    assert multiset(sorted) == multiset(r) + multiset(sorted[|r|..]);
    forall x | x in s ensures x in sorted { assert x in multiset(s); }
    TakeLeavesOlder(sorted, n, key);
    r
  }

  /** What `LIMIT n` cuts off a sorted list is no newer than anything it keeps. */
  lemma TakeLeavesOlder<T>(sorted: seq<T>, n: nat, key: T -> string)
    requires SortedDesc(sorted, key)
    ensures var r := Take(sorted, n);
      forall x :: x in sorted && x !in r ==> forall i :: 0 <= i < |r| ==> LexLe(key(x), key(r[i]))
  {
    var r := Take(sorted, n);
    forall x | x in sorted && x !in r ensures forall i :: 0 <= i < |r| ==> LexLe(key(x), key(r[i])) {
      var j :| 0 <= j < |sorted| && sorted[j] == x;
      assert j >= |r|;
    }
  }
}
