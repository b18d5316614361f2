/**
 * What `replaceAll` does to curly-brace placeholders such as "{Type of
 * Clothing}": a placeholder is a `{`, a label without braces and a `}`.
 *
 * Replacing one placeholder by text without `{` never creates a placeholder,
 * provided the text has no nested braces (`Flat`: after every `{` the next
 * brace is a `}`); it keeps the text flat, and it keeps every brace-free
 * piece of text that is not part of the placeholder.
 */
module Substitution {
  import opened Strings

  predicate IsBrace(c: char) {
    c == '{' || c == '}'
  }

  /** No character of `s` is a brace. */
  predicate BraceFree(s: string) {
    forall i :: 0 <= i < |s| ==> !IsBrace(s[i])
  }

  /** No character of `s` opens a brace. */
  predicate NoOpen(s: string) {
    forall i :: 0 <= i < |s| ==> s[i] != '{'
  }

  /** `{`, a label without braces, `}`. */
  predicate IsPlaceholder(p: string) {
    |p| >= 2 && p[0] == '{' && p[|p| - 1] == '}' && BraceFree(p[1..|p| - 1])
  }

  /** Index of the first brace of `t`, or `|t|` when there is none. */
  function NextBrace(t: string): (n: nat)
    ensures n <= |t|
    ensures forall i :: 0 <= i < n ==> !IsBrace(t[i])
    ensures n < |t| ==> IsBrace(t[n])
  {
    if t == [] || IsBrace(t[0]) then 0 else 1 + NextBrace(t[1..])
  }

  /** The first brace of `t`, if any, closes. */
  predicate ClosesFirst(t: string) {
    NextBrace(t) < |t| ==> t[NextBrace(t)] == '}'
  }

  /** No nested braces: every `{` of `s` is followed by a `}` before any other `{`. */
  predicate Flat(s: string) {
    s == [] || ((s[0] == '{' ==> ClosesFirst(s[1..])) && Flat(s[1..]))
  }

  lemma {:induction false} FlatSuffix(s: string, k: nat)
    requires Flat(s) && k <= |s|
    ensures Flat(s[k..])
    decreases k
  {
    if k > 0 {
      FlatSuffix(s[1..], k - 1);
      assert s[1..][k - 1..] == s[k..];
    }
  }

  lemma {:induction false} FlatPrepend(a: string, b: string)
    requires NoOpen(a) && Flat(b)
    ensures Flat(a + b)
    decreases |a|
  {
    if a != [] {
      assert (a + b)[1..] == a[1..] + b;
      FlatPrepend(a[1..], b);
    } else {
      assert a + b == b;
    }
  }

  /** Two texts that agree up to the first brace of one of them agree on where it is. */
  lemma {:induction false} NextBraceOfPrefix(u: string, t: string, m: nat)
    requires m <= |u| && m <= |t| && u[..m] == t[..m]
    requires NextBrace(t) < m
    ensures NextBrace(u) == NextBrace(t)
    decreases m
  {
    assert u[0] == u[..m][0] == t[..m][0] == t[0];
    if !IsBrace(t[0]) {
      assert u[1..][..m - 1] == u[..m][1..] == t[..m][1..] == t[1..][..m - 1];
      NextBraceOfPrefix(u[1..], t[1..], m - 1);
    }
  }

  /** `replaceAll` copies a prefix that has no `{`, since a placeholder starts with one. */
  lemma {:induction false} CopiesPrefix(t: string, p: string, rep: string, m: nat)
    requires p != [] && p[0] == '{'
    requires m <= |t|
    requires forall i :: 0 <= i < m ==> t[i] != '{'
    ensures m <= |ReplaceAll(t, p, rep)|
    ensures ReplaceAll(t, p, rep)[..m] == t[..m]
    decreases m
  {
    if m > 0 && |t| >= |p| {
      assert t[..|p|][0] != p[0];
      var r' := ReplaceAll(t[1..], p, rep);
      assert ReplaceAll(t, p, rep) == [t[0]] + r';
      CopiesPrefix(t[1..], p, rep, m - 1);
      ConsPrefix(t[0], r', m);
      ConsPrefix(t[0], t[1..], m);
      assert t == [t[0]] + t[1..];
    }
  }

  /** The first `m` characters of `[x] + r`. */
  lemma ConsPrefix(x: char, r: string, m: nat)
    requires 0 < m <= |r| + 1
    ensures ([x] + r)[..m] == [x] + r[..m - 1]
  {
  }

  /** A text without `{` holds no placeholder, so `replaceAll` leaves it alone. */
  lemma NoOpenUnchanged(t: string, p: string, rep: string)
    requires NoOpen(t) && p != [] && p[0] == '{'
    ensures ReplaceAll(t, p, rep) == t
  {
    assert forall k: nat :: OccursAt(t, p, k) ==> t[k] == t[k..k + |p|][0];
  }

  /**
   * A text `u` that ends in its first brace, a `}`, read at the start of
   * `replaceAll(t, p, rep)` was already at the start of `t` when the first
   * brace of `t` closes.
   */
  lemma ClosingPrefix(t: string, p: string, rep: string, u: string)
    requires p != [] && p[0] == '{' && ClosesFirst(t)
    requires u != [] && u[|u| - 1] == '}' && BraceFree(u[..|u| - 1])
    requires OccursAt(ReplaceAll(t, p, rep), u, 0)
    ensures OccursAt(t, u, 0)
  {
    var r := ReplaceAll(t, p, rep);
    var n := NextBrace(t);
    if n < |t| {
      CopiesPrefix(t, p, rep, n + 1);
      forall i | 0 <= i < |u| && i <= n ensures u[i] == t[i] {
        assert u[i] == r[..|u|][i] == r[..n + 1][i];
      }
      forall i | 0 <= i < |u| - 1 ensures !IsBrace(u[i]) {
        assert u[i] == u[..|u| - 1][i];
      }
      assert |u| <= n + 1;
    } else {
      NoOpenUnchanged(t, p, rep);
    }
    CopiesPrefix(t, p, rep, |u|);
  }

  lemma HeadOccurs(c: char, x: string, q: string)
    requires q != [] && OccursAt([c] + x, q, 0)
    ensures c == q[0] && OccursAt(x, q[1..], 0)
  {
    assert c == ([c] + x)[..|q|][0];
    assert x[..|q| - 1] == ([c] + x)[..|q|][1..];
  }

  lemma ConsOccurs(c: char, x: string, q: string)
    requires q != [] && c == q[0] && OccursAt(x, q[1..], 0)
    ensures OccursAt([c] + x, q, 0)
  {
    assert ([c] + x)[..|q|] == [c] + x[..|q| - 1];
  }

  /** An occurrence of a non-empty pattern starts with the pattern's first character. */
  lemma OccursHead(s: string, pat: string, k: nat)
    ensures OccursAt(s, pat, k) && pat != [] ==> s[k] == pat[0]
  {
    if OccursAt(s, pat, k) && pat != [] {
      assert s[k..k + |pat|][0] == s[k];
    }
  }

  /** No placeholder `q` is read across a replacement text without `{` and what follows it. */
  lemma NoPlaceholderAfterReplacement(rep: string, r': string, q: string)
    requires IsPlaceholder(q) && NoOpen(rep) && !Contains(r', q)
    ensures !Contains(rep + r', q)
  {
    var r := rep + r';
    forall k: nat | k < |r| ensures !OccursAt(r, q, k) {
      if k < |rep| {
        OccursHead(r, q, k);
        assert r[k] == rep[k];
      } else if OccursAt(r, q, k) {
        OccursPast(rep, r', q, k);
      }
    }
  }

  /**
   * A placeholder read at index 0 across a copied first `{` was already at
   * index 0 of the text, since the text after that `{` is copied up to and
   * including its first brace.
   */
  lemma PlaceholderAtCopy(s: string, p: string, rep: string, q: string)
    requires IsPlaceholder(p) && IsPlaceholder(q) && Flat(s) && s != []
    ensures OccursAt([s[0]] + ReplaceAll(s[1..], p, rep), q, 0) ==> OccursAt(s, q, 0)
  {
    var t := s[1..];
    var r' := ReplaceAll(t, p, rep);
    if OccursAt([s[0]] + r', q, 0) {
      HeadOccurs(s[0], r', q);
      assert q[1..][..|q[1..]| - 1] == q[1..|q| - 1];
      ClosingPrefix(t, p, rep, q[1..]);
      ConsOccurs(s[0], t, q);
      assert s == [s[0]] + t;
    }
  }

  /** No placeholder `q` is read across a copied first character. */
  lemma NoPlaceholderAfterCopy(s: string, p: string, rep: string, q: string)
    requires IsPlaceholder(p) && IsPlaceholder(q) && Flat(s) && s != []
    requires !OccursAt(s, q, 0)
    requires !Contains(ReplaceAll(s[1..], p, rep), q)
    ensures !Contains([s[0]] + ReplaceAll(s[1..], p, rep), q)
  {
    var r' := ReplaceAll(s[1..], p, rep);
    var r := [s[0]] + r';
    PlaceholderAtCopy(s, p, rep, q);
    forall k: nat | 0 < k < |r| ensures !OccursAt(r, q, k) {
      if OccursAt(r, q, k) {
        OccursPast([s[0]], r', q, k);
      }
    }
  }

  /**
   * Replacing a placeholder `p` by text without `{` creates no placeholder
   * `q` in flat text, and leaves no `p` behind.
   */
  lemma {:induction false} NoNewPlaceholder(s: string, p: string, rep: string, q: string)
    requires IsPlaceholder(p) && IsPlaceholder(q) && NoOpen(rep) && Flat(s)
    requires q == p || !Contains(s, q)
    ensures !Contains(ReplaceAll(s, p, rep), q)
    decreases |s|
  {
    if |s| < |p| {
    } else if s[..|p|] == p {
      var t := s[|p|..];
      FlatSuffix(s, |p|);
      forall k: nat | OccursAt(t, q, k) ensures OccursAt(s, q, k + |p|) {
        OccursInSuffix(s, |p|, q, k);
      }
      NoNewPlaceholder(t, p, rep, q);
      NoPlaceholderAfterReplacement(rep, ReplaceAll(t, p, rep), q);
    } else {
      var t := s[1..];
      forall k: nat | OccursAt(t, q, k) ensures OccursAt(s, q, k + 1) {
        OccursInSuffix(s, 1, q, k);
      }
      NoNewPlaceholder(t, p, rep, q);
      assert q == p ==> !OccursAt(s, q, 0);
      NoPlaceholderAfterCopy(s, p, rep, q);
    }
  }

  /** Replacing a placeholder by text without `{` keeps the text free of nested braces. */
  lemma {:induction false} FlatPreserved(s: string, p: string, rep: string)
    requires IsPlaceholder(p) && NoOpen(rep) && Flat(s)
    ensures Flat(ReplaceAll(s, p, rep))
    decreases |s|
  {
    if |s| < |p| {
    } else if s[..|p|] == p {
      var t := s[|p|..];
      FlatSuffix(s, |p|);
      FlatPreserved(t, p, rep);
      FlatPrepend(rep, ReplaceAll(t, p, rep));
    } else {
      var t := s[1..];
      FlatPreserved(t, p, rep);
      if s[0] == '{' {
        ClosesAfterCopy(t, p, rep);
      }
      FlatCons(s[0], ReplaceAll(t, p, rep));
    }
  }

  /** A character in front of a flat text keeps it flat unless it opens an unclosed brace. */
  lemma FlatCons(c: char, r: string)
    requires Flat(r) && (c == '{' ==> ClosesFirst(r))
    ensures Flat([c] + r)
  {
    assert ([c] + r)[1..] == r;
  }

  /** `replaceAll` keeps the first brace of a text closing. */
  lemma ClosesAfterCopy(t: string, p: string, rep: string)
    requires IsPlaceholder(p) && ClosesFirst(t)
    ensures ClosesFirst(ReplaceAll(t, p, rep))
  {
    var r' := ReplaceAll(t, p, rep);
    var n := NextBrace(t);
    if n < |t| {
      CopiesPrefix(t, p, rep, n + 1);
      NextBraceOfPrefix(r', t, n + 1);
      assert r'[n] == r'[..n + 1][n];
    } else {
      NoOpenUnchanged(t, p, rep);
    }
  }

  /**
   * A non-empty brace-free text that does not occur in the placeholder `p`
   * cannot occur in a copy of `p` either: an occurrence in `s` starts past
   * a leading `p`.
   */
  lemma NotInsidePlaceholder(s: string, p: string, w: string, i: nat)
    requires IsPlaceholder(p) && BraceFree(w) && w != [] && !Contains(p, w)
    requires OccursAt(s, w, i) && |p| <= |s| && s[..|p|] == p
    ensures |p| <= i
  {
    var j0 := if i < |p| && |p| <= i + |w| then |p| - 1 - i else 0;
    OccursChar(s, w, i, j0);
    var a := if i < |p| then i else |p|;
    var b := if i + |w| < |p| then i + |w| else |p|;
    PrefixSlice(s, p, a, b);
    PrefixSlice(s, p, |p| - 1, |p|);
    assert p[|p| - 1..|p|][0] == p[|p| - 1];
    assert OccursAt(p, w, i) ==> Contains(p, w);
  }

  /** Character `j` of an occurrence of `w` at `i`. */
  lemma OccursChar(s: string, w: string, i: nat, j: nat)
    requires OccursAt(s, w, i) && j < |w|
    ensures s[i + j] == w[j]
  {
    assert s[i..i + |w|][j] == s[i + j];
  }

  /** A slice inside a prefix `p` of `s` is the same slice of `p`. */
  lemma PrefixSlice(s: string, p: string, a: nat, b: nat)
    requires |p| <= |s| && s[..|p|] == p && a <= b <= |p|
    ensures s[a..b] == p[a..b]
  {
    forall k | 0 <= k < b - a
      ensures s[a..b][k] == p[a..b][k]
    {
      assert s[..|p|][a + k] == s[a + k];
    }
  }

  /**
   * A brace-free piece of text that does not occur inside the placeholder
   * survives `replaceAll`.
   */
  lemma {:induction false} KeepsText(s: string, p: string, rep: string, w: string, i: nat)
    requires IsPlaceholder(p) && BraceFree(w) && !Contains(p, w)
    requires OccursAt(s, w, i)
    ensures Contains(ReplaceAll(s, p, rep), w)
    decreases |s|
  {
    var r := ReplaceAll(s, p, rep);
    if w == [] {
      assert OccursAt(r, w, 0);
    } else if |s| < |p| {
    } else if s[..|p|] == p {
      var t := s[|p|..];
      NotInsidePlaceholder(s, p, w, i);
      OccursInTail(s, |p|, w, i);
      KeepsText(t, p, rep, w, i - |p|);
      var r' := ReplaceAll(t, p, rep);
      var j: nat :| OccursAt(r', w, j);
      assert r == rep + r';
      OccursAfter(rep, r', w, j);
    } else if i > 0 {
      var t := s[1..];
      var r' := ReplaceAll(t, p, rep);
      assert r == [s[0]] + r';
      OccursInTail(s, 1, w, i);
      KeepsText(t, p, rep, w, i - 1);
      var j: nat :| OccursAt(r', w, j);
      OccursAfter([s[0]], r', w, j);
    } else {
      HeadCopied(s, p, rep, w);
    }
  }

  /** Text at the start of `s`, where no placeholder starts, is copied. */
  lemma HeadCopied(s: string, p: string, rep: string, w: string)
    requires IsPlaceholder(p) && BraceFree(w) && w != []
    requires OccursAt(s, w, 0) && |p| <= |s| && s[..|p|] != p
    ensures OccursAt(ReplaceAll(s, p, rep), w, 0)
  {
    var t := s[1..];
    var r' := ReplaceAll(t, p, rep);
    assert ReplaceAll(s, p, rep) == [s[0]] + r';
    forall k | 0 <= k < |w| - 1 ensures t[k] != '{' {
      assert t[k] == s[..|w|][k + 1] == w[k + 1];
    }
    CopiesPrefix(t, p, rep, |w| - 1);
    ConsPrefix(s[0], r', |w|);
    ConsPrefix(s[0], t, |w|);
    assert s == [s[0]] + t;
  }

}
