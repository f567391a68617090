/** SQLite's `LIKE` operator (no ESCAPE clause, default settings): `%`
    matches any run of characters, `_` exactly one character, and every other
    pattern character matches itself up to ASCII case. The store matches topics
    with `topic LIKE <topic>%` and the search query with `LIKE %<query>%`. */
module SqlLike {

  /** ASCII case folding, as SQLite's case-insensitive LIKE compares. */
  function FoldCase(c: char): (d: char)
    ensures 'A' <= c <= 'Z' ==> d as int == c as int + 32
    ensures !('A' <= c <= 'Z') ==> d == c
  {
    if 'A' <= c <= 'Z' then (c as int + 32) as char else c
  }

  /** `s LIKE pattern`. */
  predicate Like(pattern: string, s: string)
    decreases |pattern| + |s|
  {
    if pattern == [] then s == []
    else if pattern[0] == '%' then Like(pattern[1..], s) || (s != [] && Like(pattern, s[1..]))
    else s != [] && (pattern[0] == '_' || FoldCase(pattern[0]) == FoldCase(s[0])) && Like(pattern[1..], s[1..])
  }

  /** A pattern piece with no wildcard in it. */
  predicate Literal(w: string) {
    forall i :: 0 <= i < |w| ==> w[i] != '%' && w[i] != '_'
  }

  /** `w` is a prefix of `s` up to ASCII case. */
  predicate FoldPrefix(w: string, s: string) {
    |w| <= |s| && forall i :: 0 <= i < |w| ==> FoldCase(w[i]) == FoldCase(s[i])
  }

  /** `w` occurs in `s` up to ASCII case. */
  predicate FoldContains(s: string, w: string) {
    FoldPrefix(w, s) || (s != [] && FoldContains(s[1..], w))
  }

  /** A lone `%` matches every string. */
  lemma {:induction false} PercentMatchesAll(s: string)
    ensures Like("%", s)
  {
    assert "%"[1..] == "";
    if s != [] { PercentMatchesAll(s[1..]); }
  }

  /** `<w>%` with a wildcard-free `w` is exactly a case-insensitive prefix test. */
  lemma {:induction false} LiteralPrefixPattern(w: string, s: string)
    requires Literal(w)
    ensures Like(w + "%", s) <==> FoldPrefix(w, s)
  {
    if w == [] {
      assert w + "%" == "%";
      PercentMatchesAll(s);
    } else {
      assert (w + "%")[0] == w[0];
      assert (w + "%")[1..] == w[1..] + "%";
      if s != [] {
        LiteralPrefixPattern(w[1..], s[1..]);
        if FoldPrefix(w, s) {
          assert FoldPrefix(w[1..], s[1..]) by {
            forall i | 0 <= i < |w[1..]| ensures FoldCase(w[1..][i]) == FoldCase(s[1..][i]) {
              assert w[1..][i] == w[i + 1] && s[1..][i] == s[i + 1];
            }
          }
        }
        if Like(w + "%", s) {
          assert FoldPrefix(w[1..], s[1..]);
          forall i | 0 <= i < |w| ensures FoldCase(w[i]) == FoldCase(s[i]) {
            if i > 0 { assert w[i] == w[1..][i - 1] && s[i] == s[1..][i - 1]; }
          }
        }
      }
    }
  }

  /** `%<w>%` with a wildcard-free `w` is exactly a case-insensitive substring test. */
  lemma {:induction false} LiteralInfixPattern(w: string, s: string)
    requires Literal(w)
    ensures Like("%" + w + "%", s) <==> FoldContains(s, w)
  {
    var p := "%" + w + "%";
    assert p[0] == '%' && p[1..] == w + "%";
    LiteralPrefixPattern(w, s);
    if s != [] {
      LiteralInfixPattern(w, s[1..]);
    }
  }

  /** An exact occurrence is an occurrence up to case. */
  lemma {:induction false} OccursFoldContains(s: string, w: string, k: nat)
    requires k + |w| <= |s| && s[k..k + |w|] == w
    ensures FoldContains(s, w)
    decreases k
  {
    if k == 0 {
      assert forall i :: 0 <= i < |w| ==> s[i] == w[i];
    } else {
      assert s[1..][k - 1..k - 1 + |w|] == w;
      OccursFoldContains(s[1..], w, k - 1);
    }
  }

  /** A pattern character other than a wildcard must meet its match in the
      subject: some character of `s` folds to the same character. */
  lemma {:induction false} LikeNeedsChar(p: string, s: string, i: nat)
    requires Like(p, s)
    requires i < |p| && p[i] != '%' && p[i] != '_'
    ensures exists j :: 0 <= j < |s| && FoldCase(s[j]) == FoldCase(p[i])
    decreases |p| + |s|
  {
    if p[0] == '%' {
      if Like(p[1..], s) {
        LikeNeedsChar(p[1..], s, i - 1);
      } else {
        LikeNeedsChar(p, s[1..], i);
        var j :| 0 <= j < |s[1..]| && FoldCase(s[1..][j]) == FoldCase(p[i]);
        assert s[j + 1] == s[1..][j];
      }
    } else if i == 0 {
      assert FoldCase(s[0]) == FoldCase(p[0]);
    } else {
      LikeNeedsChar(p[1..], s[1..], i - 1);
      var j :| 0 <= j < |s[1..]| && FoldCase(s[1..][j]) == FoldCase(p[1..][i - 1]);
      assert s[j + 1] == s[1..][j];
    }
  }

  /** A pattern with a control character in it matches no text free of control characters. */
  lemma ControlCharUnmatched(p: string, s: string, i: nat)
    requires i < |p| && p[i] < ' '
    requires forall k :: 0 <= k < |s| ==> s[k] >= ' '
    ensures !Like(p, s)
  {
    if Like(p, s) {
      LikeNeedsChar(p, s, i);
      assert false;
    }
  }

  /** Any string followed by `%` matches itself followed by anything: a
      pattern character matches itself (a `%` by swallowing one character). */
  lemma {:induction false} SelfPrefixMatches(p: string, rest: string)
    ensures Like(p + "%", p + rest)
  {
    if p == [] {
      assert p + "%" == "%" && p + rest == rest;
      PercentMatchesAll(rest);
    } else {
      var pat, s := p + "%", p + rest;
      assert pat[0] == p[0] && pat[1..] == p[1..] + "%";
      assert s[0] == p[0] && s[1..] == p[1..] + rest;
      SelfPrefixMatches(p[1..], rest);
      if p[0] == '%' {
        // the leading `%` first swallows the `%` of the subject, then matches nothing
        assert Like(pat[1..], s[1..]);
        assert Like(pat, s[1..]);
      }
    }
  }

  /** `%%<r>` matches exactly what `%<r>` matches. */
  lemma {:induction false} DoublePercentHead(r: string, s: string)
    ensures Like("%%" + r, s) <==> Like("%" + r, s)
    decreases |s|
  {
    var p2, p1 := "%%" + r, "%" + r;
    assert p2[0] == '%' && p2[1..] == p1;
    assert p1[0] == '%' && p1[1..] == r;
    if s != [] {
      DoublePercentHead(r, s[1..]);
    }
  }

  /** A second trailing `%` changes nothing: `<p>%%` matches exactly what `<p>%` matches. */
  lemma {:induction false} DoublePercentTail(p: string, s: string)
    ensures Like(p + "%%", s) <==> Like(p + "%", s)
    decreases |p| + |s|
  {
    if p == [] {
      assert p + "%%" == "%%" + "" && p + "%" == "%" + "";
      DoublePercentHead("", s);
    } else {
      var a, b := p + "%%", p + "%";
      assert a[0] == p[0] && a[1..] == p[1..] + "%%";
      assert b[0] == p[0] && b[1..] == p[1..] + "%";
      DoublePercentTail(p[1..], s);
      if s != [] {
        DoublePercentTail(p[1..], s[1..]);
        if p[0] == '%' {
          DoublePercentTail(p, s[1..]);
        }
      }
    }
  }
}
