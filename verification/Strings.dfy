/**
 * The JavaScript string built-ins that the grammar engine calls, stated on
 * `seq<char>`: `indexOf`, `replace` with a string pattern, `replaceAll` with a
 * string pattern, the `\s` character class and `split(/\s+/)`.
 */
module Strings {

  /** `pat` occurs in `s` starting at index `i`. */
  predicate OccursAt(s: string, pat: string, i: nat) {
    i + |pat| <= |s| && s[i..i + |pat|] == pat
  }

  /** `pat` occurs somewhere in `s`. */
  ghost predicate Contains(s: string, pat: string) {
    exists i: nat :: OccursAt(s, pat, i)
  }

  /** An occurrence in a suffix of `s` is an occurrence in `s`, shifted. */
  lemma OccursInSuffix(s: string, d: nat, pat: string, k: nat)
    requires d <= |s| && OccursAt(s[d..], pat, k)
    ensures OccursAt(s, pat, k + d)
  {
    assert s[k + d..k + d + |pat|] == s[d..][k..k + |pat|];
  }

  /** An occurrence in `s` at or after `d` is an occurrence in the suffix `s[d..]`. */
  lemma OccursInTail(s: string, d: nat, pat: string, k: nat)
    requires d <= k && OccursAt(s, pat, k)
    ensures OccursAt(s[d..], pat, k - d)
  {
    assert s[d..][k - d..k - d + |pat|] == s[k..k + |pat|];
  }

  /** An occurrence in `b` is an occurrence in `a + b`, shifted by `|a|`. */
  lemma OccursAfter(a: string, b: string, pat: string, k: nat)
    requires OccursAt(b, pat, k)
    ensures OccursAt(a + b, pat, k + |a|)
  {
    assert (a + b)[k + |a|..k + |a| + |pat|] == b[k..k + |pat|];
  }

  /** An occurrence in `a + b` past `a` is an occurrence in `b`. */
  lemma OccursPast(a: string, b: string, pat: string, k: nat)
    requires |a| <= k && OccursAt(a + b, pat, k)
    ensures OccursAt(b, pat, k - |a|)
  {
    assert (a + b)[k..k + |pat|] == b[k - |a|..k - |a| + |pat|];
  }

  /**
   * `s.indexOf(pat, from)`: the first index at or after `from` where `pat`
   * occurs, or -1 when there is none. An empty `pat` is found at `from`.
   */
  function IndexOf(s: string, pat: string, from: nat): (r: int)
    requires from <= |s|
    ensures r == -1 || (from <= r && OccursAt(s, pat, r))
    ensures r == -1 ==> forall k: nat :: from <= k ==> !OccursAt(s, pat, k)
    ensures r != -1 ==> forall k: nat :: from <= k < r ==> !OccursAt(s, pat, k)
    ensures pat == [] ==> r == from
    decreases |s| - from
  {
    if OccursAt(s, pat, from) then from
    else if from == |s| then -1
    else IndexOf(s, pat, from + 1)
  }

  /**
   * `s.replace(pat, rep)` with a string pattern: only the leftmost occurrence
   * of `pat` is replaced; without an occurrence `s` comes back unchanged.
   * (The `$` substitution patterns of the replacement string are not modelled.)
   */
  function ReplaceFirst(s: string, pat: string, rep: string): (r: string)
    ensures (forall k: nat :: !OccursAt(s, pat, k)) ==> r == s
    ensures forall k: nat ::
      OccursAt(s, pat, k) && (forall j: nat :: j < k ==> !OccursAt(s, pat, j))
      ==> r == s[..k] + rep + s[k + |pat|..]
  {
    var k := IndexOf(s, pat, 0);
    if k == -1 then s else s[..k] + rep + s[k + |pat|..]
  }

  /** Replacing an occurring pattern by a different string changes the text. */
  lemma ReplaceFirstChanges(s: string, pat: string, rep: string, k: nat)
    requires OccursAt(s, pat, k)
    requires rep != pat
    ensures ReplaceFirst(s, pat, rep) != s
  {
    var i := IndexOf(s, pat, 0);
    assert i != -1;
    SpliceDiffers(s, i, pat, rep);
  }

  /** Putting `rep` in place of an occurrence of a different `pat` changes the text. */
  lemma SpliceDiffers(s: string, i: nat, pat: string, rep: string)
    requires OccursAt(s, pat, i) && rep != pat
    ensures s[..i] + rep + s[i + |pat|..] != s
  {
    var r := s[..i] + rep + s[i + |pat|..];
    if |rep| == |pat| {
      assert r[i..i + |rep|] == rep;
    } else {
      assert |r| != |s|;
    }
  }


  /**
   * `s.replaceAll(pat, rep)` with a non-empty string pattern: the occurrences
   * found left to right, each search resuming after the previous occurrence,
   * are all replaced.
   */
  function ReplaceAll(s: string, pat: string, rep: string): string
    requires pat != []
    decreases |s|
  {
    if |s| < |pat| then s
    else if s[..|pat|] == pat then rep + ReplaceAll(s[|pat|..], pat, rep)
    else [s[0]] + ReplaceAll(s[1..], pat, rep)
  }

  /** A text without an occurrence comes back unchanged. */
  lemma {:induction false} ReplaceAllUnchanged(s: string, pat: string, rep: string)
    requires pat != [] && forall k: nat :: !OccursAt(s, pat, k)
    ensures ReplaceAll(s, pat, rep) == s
    decreases |s|
  {
    if |pat| <= |s| {
      assert !OccursAt(s, pat, 0);
      CopiesHead(s, pat, rep);
      forall k: nat ensures !OccursAt(s[1..], pat, k) {
        if OccursAt(s[1..], pat, k) {
          OccursInSuffix(s, 1, pat, k);
        }
      }
      ReplaceAllUnchanged(s[1..], pat, rep);
      assert s == [s[0]] + s[1..];
    }
  }

  /**
   * `replaceAll` rewrites the leftmost occurrence, keeps the text before it,
   * and goes on after the occurrence: the occurrences it replaces are the
   * leftmost non-overlapping ones.
   */
  lemma {:induction false} ReplaceAllLeftmost(s: string, pat: string, rep: string, k: nat)
    requires pat != [] && OccursAt(s, pat, k)
    requires forall j: nat :: j < k ==> !OccursAt(s, pat, j)
    ensures ReplaceAll(s, pat, rep) == s[..k] + rep + ReplaceAll(s[k + |pat|..], pat, rep)
    decreases |s|
  {
    if k == 0 {
      LeftmostAtStart(s, pat, rep, k);
    } else {
      LeftmostInTail(s, pat, k);
      ReplaceAllLeftmost(s[1..], pat, rep, k - 1);
      LeftmostShift(s, pat, rep, k);
    }
  }

  /** The step of `ReplaceAllLeftmost` past a first character that starts no occurrence. */
  lemma LeftmostShift(s: string, pat: string, rep: string, k: nat)
    requires pat != [] && 0 < k && OccursAt(s, pat, k) && !OccursAt(s, pat, 0)
    requires ReplaceAll(s[1..], pat, rep)
             == s[1..][..k - 1] + rep + ReplaceAll(s[1..][k - 1 + |pat|..], pat, rep)
    ensures ReplaceAll(s, pat, rep) == s[..k] + rep + ReplaceAll(s[k + |pat|..], pat, rep)
  {
    CopiesHead(s, pat, rep);
    var t, tail := s[1..], s[k + |pat|..];
    ShiftedSplice(s, k, |pat|);
    var x := ReplaceAll(tail, pat, rep);
    Regroup([s[0]], t[..k - 1], rep, x);
  }

  lemma LeftmostAtStart(s: string, pat: string, rep: string, k: nat)
    requires pat != [] && k == 0 && OccursAt(s, pat, k)
    ensures ReplaceAll(s, pat, rep) == s[..k] + rep + ReplaceAll(s[k + |pat|..], pat, rep)
  {
    ReplaceAllAtHead(s, pat, rep, k);
    DropEmpty(s[..k], rep, ReplaceAll(s[k + |pat|..], pat, rep));
  }

  /** An occurrence at the start is replaced and scanning resumes past it. */
  lemma ReplaceAllAtHead(s: string, pat: string, rep: string, k: nat)
    requires pat != [] && k == 0 && OccursAt(s, pat, k)
    ensures ReplaceAll(s, pat, rep) == rep + ReplaceAll(s[k + |pat|..], pat, rep)
  {
    assert s[..|pat|] == s[0..|pat|];
  }

  lemma DropEmpty(a: string, rep: string, x: string)
    requires |a| == 0
    ensures a + rep + x == rep + x
  {
  }

  /** The leftmost occurrence past the first character is leftmost in the tail. */
  lemma LeftmostInTail(s: string, pat: string, k: nat)
    requires pat != [] && 0 < k && OccursAt(s, pat, k)
    requires forall j: nat :: j < k ==> !OccursAt(s, pat, j)
    ensures !OccursAt(s, pat, 0) && OccursAt(s[1..], pat, k - 1)
    ensures forall j: nat :: j < k - 1 ==> !OccursAt(s[1..], pat, j)
  {
    OccursInTail(s, 1, pat, k);
    forall j: nat | j < k - 1 ensures !OccursAt(s[1..], pat, j) {
      if OccursAt(s[1..], pat, j) {
        OccursInSuffix(s, 1, pat, j);
      }
    }
  }

  /** Where no occurrence starts, `replaceAll` copies the first character. */
  lemma CopiesHead(s: string, pat: string, rep: string)
    requires pat != [] && |pat| <= |s| && !OccursAt(s, pat, 0)
    ensures ReplaceAll(s, pat, rep) == [s[0]] + ReplaceAll(s[1..], pat, rep)
  {
    assert s[..|pat|] != pat by {
      assert s[0..|pat|] == s[..|pat|];
    }
  }

  /** The text before and after an occurrence in the tail of `s`, seen from `s`. */
  lemma ShiftedSplice(s: string, k: nat, n: nat)
    requires 0 < k && k + n <= |s|
    ensures [s[0]] + s[1..][..k - 1] == s[..k]
    ensures s[1..][k - 1 + n..] == s[k + n..]
  {
  }

  lemma Regroup(h: string, a: string, rep: string, x: string)
    ensures h + (a + rep + x) == (h + a) + rep + x
  {
  }

  /** The characters that JavaScript's `\s` class matches. */
  predicate IsWhitespace(c: char) {
    || c == ' ' || c == '\t' || c == '\n' || c == '\r'
    || c == '\U{B}' || c == '\U{C}' || c == '\U{A0}' || c == '\U{1680}'
    || ('\U{2000}' <= c <= '\U{200A}')
    || c == '\U{2028}' || c == '\U{2029}' || c == '\U{202F}' || c == '\U{205F}'
    || c == '\U{3000}' || c == '\U{FEFF}'
  }

  /** Length of the longest prefix of `s` without whitespace. */
  function WordLength(s: string): (n: nat)
    ensures n <= |s|
    ensures forall i :: 0 <= i < n ==> !IsWhitespace(s[i])
    ensures n < |s| ==> IsWhitespace(s[n])
  {
    if s == [] || IsWhitespace(s[0]) then 0 else 1 + WordLength(s[1..])
  }

  /** Length of the longest prefix of `s` made only of whitespace. */
  function SpaceLength(s: string): (n: nat)
    ensures n <= |s|
    ensures forall i :: 0 <= i < n ==> IsWhitespace(s[i])
    ensures n < |s| ==> !IsWhitespace(s[n])
  {
    if s == [] || !IsWhitespace(s[0]) then 0 else 1 + SpaceLength(s[1..])
  }

  /** Every character of `s` is whitespace. */
  predicate AllWhitespace(s: string) {
    forall i :: 0 <= i < |s| ==> IsWhitespace(s[i])
  }

  /** The pieces joined with the separators in between. */
  function Interleave(pieces: seq<string>, seps: seq<string>): (s: string)
    requires |pieces| == |seps| + 1
    decreases |seps|
  {
    if seps == [] then pieces[0]
    else pieces[0] + seps[0] + Interleave(pieces[1..], seps[1..])
  }

  /**
   * `s` is `pieces` joined by non-empty whitespace runs, with no whitespace
   * in a piece and no empty piece between two runs: then the runs are the
   * maximal whitespace runs of `s`, and the pieces the text between them.
   */
  ghost predicate SplitsAt(s: string, pieces: seq<string>, seps: seq<string>) {
    && |pieces| == |seps| + 1
    && (forall i :: 0 <= i < |seps| ==> seps[i] != [] && AllWhitespace(seps[i]))
    && (forall i :: 0 <= i < |pieces| ==> forall j :: 0 <= j < |pieces[i]| ==> !IsWhitespace(pieces[i][j]))
    && (forall i :: 0 < i < |pieces| - 1 ==> pieces[i] != [])
    && Interleave(pieces, seps) == s
  }

  /**
   * `s.split(/\s+/)`: the pieces between maximal whitespace runs. A leading
   * or trailing run yields an empty first or last piece, and "" gives [""].
   */
  function SplitOnWhitespace(s: string): (pieces: seq<string>)
    ensures |pieces| >= 1
    ensures forall p :: p in pieces ==> forall i :: 0 <= i < |p| ==> !IsWhitespace(p[i])
    ensures |pieces| == 1 <==> forall i :: 0 <= i < |s| ==> !IsWhitespace(s[i])
    decreases |s|
  {
    var n := WordLength(s);
    if n == |s| then [s]
    else
      var m := n + SpaceLength(s[n..]);
      [s[..n]] + SplitOnWhitespace(s[m..])
  }

  /** Joining the pieces of `split(/\s+/)` with the whitespace runs between them gives the text back. */
  lemma {:induction false} SplitRoundTrip(s: string)
    ensures exists seps :: SplitsAt(s, SplitOnWhitespace(s), seps)
    decreases |s|
  {
    var pieces := SplitOnWhitespace(s);
    var n := WordLength(s);
    if n == |s| {
      assert SplitsAt(s, pieces, []);
    } else {
      var m := n + SpaceLength(s[n..]);
      var t := s[m..];
      var rest := SplitOnWhitespace(t);
      SplitRoundTrip(t);
      var seps' :| SplitsAt(t, rest, seps');
      if t != [] {
        FirstPieceNonEmpty(t);
      }
      SplitHead(s, n, m);
      ThreeParts(s, n, m);
      SplitsCons(s, s[..n], s[n..m], t, rest, seps');
      assert pieces == [s[..n]] + rest;
    }
  }

  /** The first word and the whitespace run after it. */
  lemma SplitHead(s: string, n: nat, m: nat)
    requires n == WordLength(s) < |s| && m == n + SpaceLength(s[n..])
    ensures n < m <= |s|
    ensures forall j :: 0 <= j < n ==> !IsWhitespace(s[..n][j])
    ensures AllWhitespace(s[n..m])
    ensures m < |s| ==> !IsWhitespace(s[m..][0])
  {
    var u := s[n..];
    assert u[0] == s[n];
    forall j | 0 <= j < n
      ensures !IsWhitespace(s[..n][j])
    {
      assert s[..n][j] == s[j];
    }
    forall j | 0 <= j < m - n
      ensures IsWhitespace(s[n..m][j])
    {
      assert s[n..m][j] == u[j];
    }
    if m < |s| {
      assert s[m..][0] == u[m - n];
    }
  }

  lemma ThreeParts(s: string, n: nat, m: nat)
    requires n <= m <= |s|
    ensures s == s[..n] + s[n..m] + s[m..]
  {
  }

  /** A piece and a run in front of a split text give a split of the longer text. */
  lemma SplitsCons(s: string, p: string, sep: string, t: string, rest: seq<string>, seps: seq<string>)
    requires SplitsAt(t, rest, seps)
    requires sep != [] && AllWhitespace(sep)
    requires forall j :: 0 <= j < |p| ==> !IsWhitespace(p[j])
    requires |rest| > 1 ==> rest[0] != []
    requires s == p + sep + t
    ensures SplitsAt(s, [p] + rest, [sep] + seps)
  {
    var pieces, seps' := [p] + rest, [sep] + seps;
    assert pieces[1..] == rest && seps'[1..] == seps;
    assert Interleave(pieces, seps') == p + sep + Interleave(rest, seps);
  }

  /** A text that starts with a non-whitespace character has a non-empty first piece. */
  lemma FirstPieceNonEmpty(t: string)
    requires t != [] && !IsWhitespace(t[0])
    ensures SplitOnWhitespace(t)[0] != []
  {
    assert WordLength(t) > 0;
  }
}
