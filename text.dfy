/** The string operations of JavaScript that the engine relies on:
    `trim`, `indexOf`/regex search for a fixed marker, `split` on one
    character, `join`, `substring` with an ellipsis, and the decimal
    rendering of a number inside a template literal. */
module Text {
  import opened Wrappers

  function Min(a: int, b: int): int { if a < b then a else b }

  /** The characters JavaScript's `\s` matches and `String.prototype.trim` removes. */
  predicate IsWhitespace(c: char) {
    || c == ' ' || c == '\t' || c == '\n' || c == '\r' || c == '\U{000B}' || c == '\U{000C}'
    || c == '\U{00A0}' || c == '\U{1680}' || ('\U{2000}' <= c <= '\U{200A}')
    || c == '\U{2028}' || c == '\U{2029}' || c == '\U{202F}' || c == '\U{205F}'
    || c == '\U{3000}' || c == '\U{FEFF}'
  }

  /** The characters the regular-expression `.` does not match. */
  predicate IsLineTerminator(c: char) {
    c == '\n' || c == '\r' || c == '\U{2028}' || c == '\U{2029}'
  }

  /** Neither end of `s` is whitespace: what `trim` returns. */
  predicate Trimmed(s: string) {
    s == [] || (!IsWhitespace(s[0]) && !IsWhitespace(s[|s| - 1]))
  }

  /** Past the longest run of whitespace starting at `i` (a greedy `\s*`). */
  function SkipWhitespace(s: string, i: nat): (j: nat)
    requires i <= |s|
    ensures i <= j <= |s|
    ensures forall k {:trigger IsWhitespace(s[k])} :: i <= k < j ==> IsWhitespace(s[k])
    ensures j == |s| || !IsWhitespace(s[j])
    decreases |s| - i
  {
    if i < |s| && IsWhitespace(s[i]) then SkipWhitespace(s, i + 1) else i
  }

  /** Back before the longest run of whitespace that ends at `hi`, but not below `lo`. */
  function SkipWhitespaceBack(s: string, lo: nat, hi: nat): (j: nat)
    requires lo <= hi <= |s|
    ensures lo <= j <= hi
    ensures forall k {:trigger IsWhitespace(s[k])} :: j <= k < hi ==> IsWhitespace(s[k])
    ensures j == lo || !IsWhitespace(s[j - 1])
    decreases hi
  {
    if lo < hi && IsWhitespace(s[hi - 1]) then SkipWhitespaceBack(s, lo, hi - 1) else hi
  }

  /** Where the part `trim` keeps begins: after the leading whitespace. */
  function TrimLo(s: string): nat {
    SkipWhitespace(s, 0)
  }

  /** Where the part `trim` keeps ends: before the trailing whitespace. */
  function TrimHi(s: string): nat {
    SkipWhitespaceBack(s, TrimLo(s), |s|)
  }

  /** `s.trim()`: a slice of `s` with no whitespace at either end, and only
      whitespace cut away on either side. */
  function Trim(s: string): (r: string)
    ensures Trimmed(r)
    ensures TrimLo(s) <= TrimHi(s) <= |s| && |r| == TrimHi(s) - TrimLo(s)
    ensures forall i {:trigger IsWhitespace(s[i])} :: 0 <= i < TrimLo(s) ==> IsWhitespace(s[i])
    ensures forall i {:trigger IsWhitespace(s[i])} :: TrimHi(s) <= i < |s| ==> IsWhitespace(s[i])
  {
    var lo, hi := TrimLo(s), TrimHi(s);
    var r := s[lo..hi];
    assert r != [] ==> r[0] == s[lo] && r[|r| - 1] == s[hi - 1];
    r
  }

  /** Trimming a string that has no whitespace at its ends changes nothing. */
  lemma TrimOfTrimmed(s: string)
    requires Trimmed(s)
    ensures Trim(s) == s
  {
    assert TrimLo(s) == 0;
    assert TrimHi(s) == |s|;
    assert s[0..|s|] == s;
  }

  /** Trimming a non-empty trimmed item padded by at most one blank on each
      side gives the item back. */
  lemma TrimPadded(f: string, lead: string, tail: string)
    requires f != "" && Trimmed(f)
    requires (lead == "" || lead == " ") && (tail == "" || tail == " ")
    ensures Trim(lead + f + tail) == f
  {
    var s := lead + f + tail;
    var lo, hi := |lead|, |lead| + |f|;
    assert s[lo] == f[0] && s[hi - 1] == f[|f| - 1];
    assert lead == " " ==> s[0] == ' ';
    assert tail == " " ==> s[hi] == ' ';
    assert TrimLo(s) == lo;
    assert TrimHi(s) == hi;
    assert s[lo..hi] == f;
  }

  /** `pat` occurs in `s` starting at index `i`. */
  predicate OccursAt(s: string, pat: string, i: nat) {
    i + |pat| <= |s| && s[i..i + |pat|] == pat
  }

  /** The first occurrence of `pat` in `s` at or after `from`, as the leftmost
      match of a regular expression that starts with a fixed marker. */
  function IndexOfFrom(s: string, pat: string, from: nat): (r: Option<nat>)
    requires from <= |s|
    ensures r.Some? ==> from <= r.value && OccursAt(s, pat, r.value)
    ensures r.Some? ==> forall j :: from <= j < r.value ==> !OccursAt(s, pat, j)
    ensures r.None? ==> forall j :: from <= j <= |s| ==> !OccursAt(s, pat, j)
    decreases |s| - from
  {
    if OccursAt(s, pat, from) then Some(from)
    else if from == |s| then None
    else IndexOfFrom(s, pat, from + 1)
  }

  /** The first occurrence of `pat` in `s`. */
  function IndexOf(s: string, pat: string): (r: Option<nat>)
    ensures r.Some? <==> Infix(pat, s)
    ensures r.Some? ==> OccursAt(s, pat, r.value)
    ensures r.Some? ==> forall j :: 0 <= j < r.value ==> !OccursAt(s, pat, j)
    ensures r.None? ==> forall j :: 0 <= j <= |s| ==> !OccursAt(s, pat, j)
  {
    IndexOfFrom(s, pat, 0)
  }

  /** `w` occurs somewhere in `s`. */
  predicate Infix(w: string, s: string) {
    exists i :: 0 <= i <= |s| && OccursAt(s, w, i)
  }

  /** A slice of a slice is a slice of the original string. */
  lemma SliceOfSlice(s: string, lo: nat, hi: nat, a: nat, b: nat)
    requires lo <= hi <= |s| && a <= b <= hi - lo
    ensures s[lo..hi][a..b] == s[lo + a..lo + b]
  {
    var x, y := s[lo..hi][a..b], s[lo + a..lo + b];
    assert forall k :: 0 <= k < |x| ==> x[k] == y[k];
  }

  /** A stretch of `s` in which `w` does not start (and end) has no occurrence of `w`. */
  lemma NoOccurrenceInSlice(s: string, w: string, lo: nat, hi: nat)
    requires lo <= hi <= |s|
    requires forall j :: lo <= j && j + |w| <= hi ==> !OccursAt(s, w, j)
    ensures !Infix(w, s[lo..hi])
  {
    if Infix(w, s[lo..hi]) {
      var q :| 0 <= q <= |s[lo..hi]| && OccursAt(s[lo..hi], w, q);
      OccursInSlice(s, w, lo, hi, q);
      assert false;
    }
  }

  /** `trim` returns the slice of `s` that starts after the leading whitespace. */
  lemma TrimOccurs(s: string)
    ensures OccursAt(s, Trim(s), TrimLo(s))
  {
    var r := Trim(s);
    assert s[TrimLo(s)..TrimLo(s) + |r|] == r;
  }

  /** An occurrence inside a slice is an occurrence in the whole string. */
  lemma OccursInSlice(s: string, w: string, lo: nat, hi: nat, q: nat)
    requires lo <= hi <= |s| && OccursAt(s[lo..hi], w, q)
    ensures OccursAt(s, w, lo + q)
  {
    var a, b := s[lo..hi][q..q + |w|], s[lo + q..lo + q + |w|];
    assert forall k :: 0 <= k < |w| ==> a[k] == b[k];
    assert a == b;
  }

  /** An occurrence that lies inside a slice is an occurrence in the slice. */
  lemma OccursInsideSlice(s: string, w: string, lo: nat, hi: nat, j: nat)
    requires lo <= j && OccursAt(s, w, j) && j + |w| <= hi <= |s|
    ensures OccursAt(s[lo..hi], w, j - lo)
  {
    var a, b := s[lo..hi][j - lo..j - lo + |w|], s[j..j + |w|];
    assert forall k :: 0 <= k < |w| ==> a[k] == b[k];
    assert a == b;
  }

  /** An occurrence keeps its place relative to the text around it. */
  lemma OccursShifted(p: string, t: string, q: string, w: string, i: nat)
    requires OccursAt(t, w, i)
    ensures OccursAt(p + t + q, w, |p| + i)
  {
    assert (p + t + q)[|p| + i..|p| + i + |w|] == t[i..i + |w|];
  }

  /** An occurrence covering position `m` puts the matching character of the pattern there. */
  lemma CoveredChar(s: string, pat: string, j: nat, m: nat)
    requires OccursAt(s, pat, j) && j <= m < j + |pat|
    ensures s[m] == pat[m - j]
  {
    assert s[m] == s[j..j + |pat|][m - j];
  }

  /** A string occurs in itself, and in any text around it. */
  lemma InfixOfConcat(p: string, w: string, q: string)
    ensures OccursAt(p + w + q, w, |p|)
    ensures Infix(w, p + w + q)
  {
    assert (p + w + q)[|p|..|p| + |w|] == w;
    assert OccursAt(p + w + q, w, |p|);
  }

  /** Occurring inside is transitive. */
  lemma InfixTransitive(a: string, b: string, c: string)
    requires Infix(a, b) && Infix(b, c)
    ensures Infix(a, c)
  {
    var i :| 0 <= i <= |b| && OccursAt(b, a, i);
    var j :| 0 <= j <= |c| && OccursAt(c, b, j);
    assert c[j..j + |b|] == b;
    OccursInSlice(c, a, j, j + |b|, i);
  }

  /** The search from `from` finds the occurrence at `m` when none lies between. */
  lemma FirstOccurrenceAt(s: string, pat: string, from: nat, m: nat)
    requires from <= m && OccursAt(s, pat, m)
    requires forall j :: from <= j < m ==> !OccursAt(s, pat, j)
    ensures IndexOfFrom(s, pat, from) == Some(m)
  {
  }

  /** Every item of a list occurs in the joined text. */
  lemma {:induction false} JoinHasItem(xs: seq<string>, sep: string, k: nat)
    requires k < |xs|
    ensures Infix(xs[k], Join(xs, sep))
  {
    if |xs| == 1 {
      InfixOfConcat("", xs[0], "");
      assert "" + xs[0] + "" == Join(xs, sep);
    } else if k == 0 {
      assert Join(xs, sep) == "" + xs[0] + (sep + Join(xs[1..], sep));
      InfixOfConcat("", xs[0], sep + Join(xs[1..], sep));
    } else {
      JoinHasItem(xs[1..], sep, k - 1);
      var i: nat :| OccursAt(Join(xs[1..], sep), xs[1..][k - 1], i);
      assert Join(xs, sep) == (xs[0] + sep) + Join(xs[1..], sep) + "";
      OccursShifted(xs[0] + sep, Join(xs[1..], sep), "", xs[k], i);
    }
  }

  /** Joining keeps a lower bound that holds of every character of the items and the separator. */
  lemma {:induction false} JoinCharsAtLeast(xs: seq<string>, sep: string, lo: char)
    requires forall c :: c in sep ==> c >= lo
    requires forall k, c :: 0 <= k < |xs| && c in xs[k] ==> c >= lo
    ensures forall c :: c in Join(xs, sep) ==> c >= lo
  {
    if |xs| > 1 {
      assert forall k :: 0 <= k < |xs| - 1 ==> xs[1..][k] == xs[k + 1];
      JoinCharsAtLeast(xs[1..], sep, lo);
      assert Join(xs, sep) == xs[0] + sep + Join(xs[1..], sep);
    }
  }

  /** `xs.join(sep)`. */
  function Join(xs: seq<string>, sep: string): string {
    if |xs| == 0 then ""
    else if |xs| == 1 then xs[0]
    else xs[0] + sep + Join(xs[1..], sep)
  }

  /** Appending one more item to a non-empty list appends the separator and the item. */
  lemma {:induction false} JoinSnoc(xs: seq<string>, x: string, sep: string)
    requires |xs| >= 1
    ensures Join(xs + [x], sep) == Join(xs, sep) + sep + x
  {
    if |xs| == 1 {
      assert (xs + [x])[1..] == [x];
    } else {
      assert (xs + [x])[1..] == xs[1..] + [x];
      JoinSnoc(xs[1..], x, sep);
    }
  }

  /** The position of the first `c` in `s`. */
  function FirstIndex(s: string, c: char): (k: nat)
    requires c in s
    ensures k < |s| && s[k] == c && c !in s[..k]
  {
    if s[0] == c then 0 else 1 + FirstIndex(s[1..], c)
  }

  /** `s.split(d)` for a one-character separator: the pieces between the
      separators, so that joining them back with `d` gives `s`. */
  function Split(s: string, d: char): (r: seq<string>)
    ensures |r| >= 1
    ensures forall i :: 0 <= i < |r| ==> d !in r[i]
    ensures Join(r, [d]) == s
    ensures forall i, c :: 0 <= i < |r| && c in r[i] ==> c in s
    decreases |s|
  {
    if d in s then
      var k := FirstIndex(s, d);
      var rest := Split(s[k + 1..], d);
      var r := [s[..k]] + rest;
      assert r[1..] == rest;
      assert s == s[..k] + [d] + s[k + 1..];
      r
    else
      [s]
  }

  /** Splitting undoes joining when no item contains the separator. */
  lemma {:induction false} SplitJoin(xs: seq<string>, d: char)
    requires |xs| >= 1
    requires forall i :: 0 <= i < |xs| ==> d !in xs[i]
    ensures Split(Join(xs, [d]), d) == xs
  {
    if |xs| > 1 {
      var s := Join(xs, [d]);
      assert s == xs[0] + [d] + Join(xs[1..], [d]);
      assert d in s by { assert s[|xs[0]|] == d; }
      var k := FirstIndex(s, d);
      assert s[..|xs[0]|] == xs[0];
      assert k == |xs[0]|;
      assert s[..k] == xs[0];
      assert s[k + 1..] == Join(xs[1..], [d]);
      SplitJoin(xs[1..], d);
    }
  }

  /** A decimal digit. */
  function Digit(n: nat): (c: char)
    requires n < 10
    ensures '0' <= c <= '9'
  {
    ['0', '1', '2', '3', '4', '5', '6', '7', '8', '9'][n]
  }

  /** The value of a string of decimal digits. */
  function DigitsValue(s: string): nat
    requires forall i :: 0 <= i < |s| ==> '0' <= s[i] <= '9'
  {
    if s == [] then 0
    else DigitsValue(s[..|s| - 1]) * 10 + (s[|s| - 1] as int - '0' as int)
  }

  /** The decimal rendering of `n` in a template literal. */
  function NatToString(n: nat): string {
    if n < 10 then [Digit(n)] else NatToString(n / 10) + [Digit(n % 10)]
  }

  /** The rendering is digits only, has no leading zero, and reading it back gives `n`. */
  lemma {:induction false} NatToStringDigits(n: nat)
    ensures var r := NatToString(n);
      && |r| >= 1 && (forall i :: 0 <= i < |r| ==> '0' <= r[i] <= '9')
      && (r[0] != '0' || r == "0")
      && DigitsValue(r) == n
  {
    var r := NatToString(n);
    if n < 10 {
      assert r[..0] == [];
    } else {
      NatToStringDigits(n / 10);
      var p := NatToString(n / 10);
      assert r == p + [Digit(n % 10)];
      assert r[..|r| - 1] == p;
      assert r[0] == p[0];
    }
  }

  /** `s.substring(0, n) + (s.length > n ? '...' : '')`. */
  function Excerpt(s: string, n: nat): (r: string)
    ensures |s| <= n ==> r == s
    ensures |s| > n ==> |r| == n + 3 && r[..n] == s[..n] && r[n..] == "..."
    ensures |r| <= n + 3
  {
    if |s| > n then s[..n] + "..." else s
  }
}
