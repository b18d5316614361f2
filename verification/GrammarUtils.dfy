/**
 * The suggestion applicator of `client/src/lib/grammar-utils.ts`: the
 * `GrammarIssue` record, applying one suggestion, applying a whole list of
 * them (copy, stable sort, fold) and the client-side grammar score.
 *
 * The central property is offset safety: issues that carry positions into
 * one snapshot of the text are applied right to left, so every stored
 * position is still valid when its turn comes, and the outcome is the
 * snapshot with every span replaced, whatever order the issues came in.
 */
module GrammarUtils {
  import opened Strings
  import opened Sorting

  datatype Option<T> = None | Some(value: T)

  /** A half-open span `[start, end)` of the text the issue was computed on. */
  datatype Position = Position(start: nat, end: nat)

  datatype GrammarIssue = GrammarIssue(
    original: string,
    suggestion: string,
    explanation: Option<string>,
    position: Option<Position>)

  function Min(a: nat, b: nat): nat {
    if a <= b then a else b
  }

  /**
   * `applyGrammarSuggestion`. Empty text is returned as it is. With a
   * position the span is replaced (`substring` clamps offsets past the end of
   * the text); whether the span still reads `original` is not checked.
   * Without a position the first literal occurrence of `original` is replaced.
   */
  function ApplyGrammarSuggestion(text: string, issue: GrammarIssue): (r: string)
    ensures text == [] ==> r == text
    ensures (text != [] && issue.position.Some?
             && issue.position.value.start <= issue.position.value.end <= |text|) ==>
        var p := issue.position.value;
        && |r| == |text| - (p.end - p.start) + |issue.suggestion|
        && r[..p.start] == text[..p.start]
        && r[p.start..p.start + |issue.suggestion|] == issue.suggestion
        && r[p.start + |issue.suggestion|..] == text[p.end..]
    ensures text != [] && issue.position.None? && (forall k: nat :: !OccursAt(text, issue.original, k)) ==>
      r == text
    ensures text != [] && issue.position.None? ==>
      forall k: nat ::
        OccursAt(text, issue.original, k) && (forall j: nat :: j < k ==> !OccursAt(text, issue.original, j))
        ==> r == text[..k] + issue.suggestion + text[k + |issue.original|..]
  {
    if text == [] then text
    else match issue.position
      case Some(p) =>
        text[..Min(p.start, |text|)] + issue.suggestion + text[Min(p.end, |text|)..]
      case None =>
        ReplaceFirst(text, issue.original, issue.suggestion)
  }

  /**
   * The sort key equivalent to the comparator of `applyAllGrammarSuggestions`:
   * positioned issues by descending start, then the position-less ones.
   */
  function ApplyKey(issue: GrammarIssue): int {
    match issue.position
    case Some(p) => -(p.start as int)
    case None => 1
  }

  /**
   * The comparator passed to `sort` in `applyAllGrammarSuggestions`; it
   * orders exactly as `ApplyKey` does, which is why sorting by that key
   * models the call.
   */
  function CompareForApply(a: GrammarIssue, b: GrammarIssue): (c: int)
    ensures c < 0 <==> ApplyKey(a) < ApplyKey(b)
    ensures c == 0 <==> ApplyKey(a) == ApplyKey(b)
    ensures c > 0 <==> ApplyKey(a) > ApplyKey(b)
  {
    if a.position.Some? && b.position.Some? then b.position.value.start - a.position.value.start
    else if a.position.Some? then -1
    else if b.position.Some? then 1
    else 0
  }

  /** The issues without a position, in their order. */
  function Unpositioned(issues: seq<GrammarIssue>): seq<GrammarIssue> {
    if issues == [] then []
    else (if issues[0].position.None? then [issues[0]] else []) + Unpositioned(issues[1..])
  }

  /**
   * The order in which `applyAllGrammarSuggestions` applies the issues: the
   * copied list is sorted only when its first issue has a position.
   */
  function ApplyOrder(issues: seq<GrammarIssue>): (r: seq<GrammarIssue>)
    ensures multiset(r) == multiset(issues)
    ensures issues == [] || issues[0].position.None? ==> r == issues
    ensures issues != [] && issues[0].position.Some? ==>
      forall i, j :: 0 <= i < j < |r| && r[j].position.Some? ==>
        r[i].position.Some? && r[i].position.value.start >= r[j].position.value.start
  {
    if issues != [] && issues[0].position.Some? then
      var r := SortBy(issues, ApplyKey);
      assert forall i, j :: 0 <= i < j < |r| ==> ApplyKey(r[i]) <= ApplyKey(r[j]);
      r
    else issues
  }

  /** Applies the issues one after the other, each to the previous result. */
  function ApplyInOrder(text: string, issues: seq<GrammarIssue>): string
    decreases |issues|
  {
    if issues == [] then text
    else ApplyInOrder(ApplyGrammarSuggestion(text, issues[0]), issues[1..])
  }

  /** What `applyAllGrammarSuggestions` returns. */
  function ApplyAll(text: string, issues: seq<GrammarIssue>): string {
    if text == [] || issues == [] then text
    else ApplyInOrder(text, ApplyOrder(issues))
  }

  /**
   * `applyAllGrammarSuggestions`: copy the list, sort the copy when its first
   * issue has a position, then fold `applyGrammarSuggestion` over it.
   */
  method ApplyAllGrammarSuggestions(text: string, issues: seq<GrammarIssue>) returns (result: string)
    ensures result == ApplyAll(text, issues)
  {
    if text == [] || issues == [] {
      return text;
    }
    var sortedIssues := issues;
    if sortedIssues[0].position.Some? {
      sortedIssues := SortBy(sortedIssues, ApplyKey);
    }
    assert sortedIssues == ApplyOrder(issues);
    result := text;
    for i := 0 to |sortedIssues|
      invariant ApplyInOrder(result, sortedIssues[i..]) == ApplyInOrder(text, sortedIssues)
    {
      assert sortedIssues[i..][1..] == sortedIssues[i + 1..];
      result := ApplyGrammarSuggestion(result, sortedIssues[i]);
    }
  }

  /** When the first issue has a position, the issues without one keep their relative order. */
  lemma UnpositionedKeepOrder(issues: seq<GrammarIssue>)
    requires issues != [] && issues[0].position.Some?
    ensures Unpositioned(ApplyOrder(issues)) == Unpositioned(issues)
  {
    var r := SortBy(issues, ApplyKey);
    SortByStable(issues, ApplyKey, 1);
    UnpositionedIsFilter(issues);
    UnpositionedIsFilter(r);
  }

  lemma {:induction false} UnpositionedIsFilter(issues: seq<GrammarIssue>)
    ensures Unpositioned(issues) == Filter(issues, ApplyKey, 1)
    decreases |issues|
  {
    if issues != [] {
      UnpositionedIsFilter(issues[1..]);
    }
  }

  // ---------------------------------------------------------------------
  // Offset safety

  /** The issue has a position, and its span lies inside a text of length `len`. */
  predicate Placed(issue: GrammarIssue, len: nat) {
    issue.position.Some? && issue.position.value.start <= issue.position.value.end <= len
  }

  /** The spans of two placed issues do not overlap. */
  predicate Disjoint(a: GrammarIssue, b: GrammarIssue)
    requires a.position.Some? && b.position.Some?
  {
    a.position.value.end <= b.position.value.start || b.position.value.end <= a.position.value.start
  }

  /**
   * A batch computed against one snapshot: every issue is placed inside the
   * text, no two start at the same offset and no two spans overlap.
   */
  predicate OffsetSafeBatch(text: string, issues: seq<GrammarIssue>) {
    && (forall i :: 0 <= i < |issues| ==> Placed(issues[i], |text|))
    && (forall i, j :: 0 <= i < j < |issues| ==>
          issues[i].position.value.start != issues[j].position.value.start
          && Disjoint(issues[i], issues[j]))
  }

  /**
   * Placed issues inside a text of length `len`, by strictly descending start,
   * each one ending at or before the start of every issue before it.
   */
  predicate DescendingChain(len: nat, es: seq<GrammarIssue>) {
    && (forall i :: 0 <= i < |es| ==> Placed(es[i], len))
    && (forall i, j :: 0 <= i < j < |es| ==>
          es[j].position.value.start < es[i].position.value.start
          && es[j].position.value.end <= es[i].position.value.start)
  }

  /**
   * The reference result: every span of the snapshot replaced by its
   * suggestion, the text between the spans kept.
   */
  function Snapshot(text: string, es: seq<GrammarIssue>): string
    requires DescendingChain(|text|, es)
    decreases |es|
  {
    if es == [] then text
    else
      var p := es[0].position.value;
      Snapshot(text[..p.start], es[1..]) + es[0].suggestion + text[p.end..]
  }

  /** Edits that all lie inside `P` ignore the text `S` that follows it. */
  lemma {:induction false} ApplyInOrderPrefix(P: string, S: string, es: seq<GrammarIssue>)
    requires DescendingChain(|P|, es)
    requires es != [] ==> P != []
    ensures ApplyInOrder(P + S, es) == ApplyInOrder(P, es) + S
    decreases |es|
  {
    if es != [] {
      var P' := ApplyGrammarSuggestion(P, es[0]);
      SpliceIgnoresSuffix(P, S, es[0]);
      if |es| > 1 {
        assert es[1].position.value.start < es[0].position.value.start;
      }
      assert DescendingChain(|P'|, es[1..]);
      ApplyInOrderPrefix(P', S, es[1..]);
    }
  }

  lemma SpliceIgnoresSuffix(P: string, S: string, e: GrammarIssue)
    requires P != [] && Placed(e, |P|)
    ensures ApplyGrammarSuggestion(P + S, e) == ApplyGrammarSuggestion(P, e) + S
  {
    var p := e.position.value;
    assert (P + S)[..p.start] == P[..p.start];
    assert (P + S)[p.end..] == P[p.end..] + S;
  }

  /** Applying a descending chain one edit at a time gives the reference result. */
  lemma {:induction false} ApplyDescendingChain(text: string, es: seq<GrammarIssue>)
    requires DescendingChain(|text|, es)
    requires es != [] ==> text != []
    ensures ApplyInOrder(text, es) == Snapshot(text, es)
    decreases |es|
  {
    if es != [] {
      var p := es[0].position.value;
      var P, S := text[..p.start], es[0].suggestion + text[p.end..];
      assert ApplyGrammarSuggestion(text, es[0]) == P + S;
      assert DescendingChain(|P|, es[1..]);
      if |es| > 1 {
        assert es[1].position.value.start < es[0].position.value.start;
      }
      ApplyInOrderPrefix(P, S, es[1..]);
      ApplyDescendingChain(P, es[1..]);
    }
  }

  /** Sorting an offset-safe batch by `ApplyKey` yields a descending chain. */
  lemma SortedBatchIsChain(text: string, issues: seq<GrammarIssue>)
    requires OffsetSafeBatch(text, issues)
    ensures DescendingChain(|text|, SortBy(issues, ApplyKey))
  {
    var r := SortBy(issues, ApplyKey);
    assert DistinctKeys(issues, ApplyKey);
    SortByStrict(issues, ApplyKey);
    forall i | 0 <= i < |r| ensures Placed(r[i], |text|) {
      assert r[i] in multiset(issues);
    }
    forall i, j | 0 <= i < j < |r|
      ensures r[j].position.value.start < r[i].position.value.start
      ensures r[j].position.value.end <= r[i].position.value.start
    {
      assert ApplyKey(r[i]) < ApplyKey(r[j]);
      assert r[i] in multiset(issues) && r[j] in multiset(issues);
      var a :| 0 <= a < |issues| && issues[a] == r[i];
      var b :| 0 <= b < |issues| && issues[b] == r[j];
      assert a != b;
      if a < b {
        assert Disjoint(issues[a], issues[b]);
      } else {
        assert Disjoint(issues[b], issues[a]);
      }
    }
  }

  /**
   * Offset safety: on non-empty text, an offset-safe batch is applied as if
   * every edit were made to the original snapshot.
   * Example: "AA BB CC" with [0,2) -> "XXX" and [6,8) -> "Y" gives "XXX BB Y".
   */
  lemma OffsetSafe(text: string, issues: seq<GrammarIssue>)
    requires text != []
    requires OffsetSafeBatch(text, issues)
    ensures DescendingChain(|text|, SortBy(issues, ApplyKey))
    ensures ApplyAll(text, issues) == Snapshot(text, SortBy(issues, ApplyKey))
  {
    SortedBatchIsChain(text, issues);
    if issues != [] {
      assert Placed(issues[0], |text|);
      ApplyDescendingChain(text, SortBy(issues, ApplyKey));
    }
  }

  /**
   * Issues that all carry positions with distinct starts give the same result
   * in whatever order they are listed.
   */
  lemma OrderIndependent(text: string, xs: seq<GrammarIssue>, ys: seq<GrammarIssue>)
    requires forall i :: 0 <= i < |xs| ==> xs[i].position.Some?
    requires DistinctKeys(xs, ApplyKey) && DistinctKeys(ys, ApplyKey)
    requires multiset(xs) == multiset(ys)
    ensures ApplyAll(text, xs) == ApplyAll(text, ys)
  {
    assert |xs| == |multiset(xs)| == |ys|;
    if xs != [] {
      assert ys[0] in multiset(xs);
      assert ys[0].position.Some?;
      SortByStrict(xs, ApplyKey);
      SortByStrict(ys, ApplyKey);
      StrictlySortedUnique(SortBy(xs, ApplyKey), SortBy(ys, ApplyKey), ApplyKey);
    }
  }

  lemma ExampleSteps(a: GrammarIssue, c: GrammarIssue)
    requires a == GrammarIssue("AA", "XXX", None, Some(Position(0, 2)))
    requires c == GrammarIssue("CC", "Y", None, Some(Position(6, 8)))
    ensures ApplyGrammarSuggestion("AA BB CC", c) == "AA BB Y"
    ensures ApplyGrammarSuggestion("AA BB Y", a) == "XXX BB Y"
  {
    assert "AA BB CC"[..6] == "AA BB ";
    assert "AA BB CC"[8..] == [];
    assert "AA BB Y"[..0] == [];
    assert "AA BB Y"[2..] == " BB Y";
  }

  /** Sorting [c, a] right to left keeps it as it is. */
  lemma ExampleSorted(a: GrammarIssue, c: GrammarIssue)
    requires a == GrammarIssue("AA", "XXX", None, Some(Position(0, 2)))
    requires c == GrammarIssue("CC", "Y", None, Some(Position(6, 8)))
    ensures SortBy([c, a], ApplyKey) == [c, a]
  {
    assert SortBy([c], ApplyKey) == [c];
    assert [c, a][..1] == [c];
  }

  lemma ExampleApplied(a: GrammarIssue, c: GrammarIssue)
    requires a == GrammarIssue("AA", "XXX", None, Some(Position(0, 2)))
    requires c == GrammarIssue("CC", "Y", None, Some(Position(6, 8)))
    ensures ApplyAll("AA BB CC", [c, a]) == "XXX BB Y"
  {
    ExampleSteps(a, c);
    ExampleSorted(a, c);
    assert [c, a][1..] == [a] && [a][1..] == [];
    assert ApplyInOrder("AA BB Y", [a]) == "XXX BB Y";
  }

  /** Two positioned edits give the same text in either order; the later one's offsets stay valid. */
  lemma OffsetSafeExample()
    ensures
      var a := GrammarIssue("AA", "XXX", None, Some(Position(0, 2)));
      var c := GrammarIssue("CC", "Y", None, Some(Position(6, 8)));
      && ApplyAll("AA BB CC", [a, c]) == "XXX BB Y"
      && ApplyAll("AA BB CC", [c, a]) == "XXX BB Y"
  {
    var a := GrammarIssue("AA", "XXX", None, Some(Position(0, 2)));
    var c := GrammarIssue("CC", "Y", None, Some(Position(6, 8)));
    ExampleApplied(a, c);
    ExampleOrders(a, c);
  }

  lemma ExampleOrders(a: GrammarIssue, c: GrammarIssue)
    requires a == GrammarIssue("AA", "XXX", None, Some(Position(0, 2)))
    requires c == GrammarIssue("CC", "Y", None, Some(Position(6, 8)))
    ensures ApplyAll("AA BB CC", [a, c]) == ApplyAll("AA BB CC", [c, a])
  {
    assert multiset([a, c]) == multiset([c, a]);
    OrderIndependent("AA BB CC", [a, c], [c, a]);
  }

  /** Without a position only the first occurrence is replaced. */
  lemma FirstOccurrenceExample()
    ensures ApplyGrammarSuggestion("cat cat cat", GrammarIssue("cat", "dog", None, None)) == "dog cat cat"
  {
    FirstOccurrenceOf("cat cat cat", GrammarIssue("cat", "dog", None, None));
  }

  lemma FirstOccurrenceOf(text: string, issue: GrammarIssue)
    requires text == "cat cat cat" && issue == GrammarIssue("cat", "dog", None, None)
    ensures ApplyGrammarSuggestion(text, issue) == "dog cat cat"
  {
    ApplyWithoutPosition(text, issue);
    CatAtStart(text);
    ReplaceFirstAtStart(text, "cat", "dog");
    DogCatCat(text);
  }

  /** Without a position the suggestion is applied by `replace`. */
  lemma ApplyWithoutPosition(text: string, issue: GrammarIssue)
    requires text != [] && issue.position.None?
    ensures ApplyGrammarSuggestion(text, issue) == ReplaceFirst(text, issue.original, issue.suggestion)
  {
  }

  lemma CatAtStart(text: string)
    requires text == "cat cat cat"
    ensures OccursAt(text, "cat", 0)
  {
  }

  lemma DogCatCat(text: string)
    requires text == "cat cat cat"
    ensures "dog" + text[3..] == "dog cat cat"
  {
  }

  /** An occurrence at the very start is the one `replace` rewrites. */
  lemma ReplaceFirstAtStart(s: string, pat: string, rep: string)
    requires OccursAt(s, pat, 0)
    ensures ReplaceFirst(s, pat, rep) == rep + s[|pat|..]
  {
    assert IndexOf(s, pat, 0) == 0;
    assert s[..0] + rep == rep;
  }

  // ---------------------------------------------------------------------
  // Score

  /** `text.split(/\s+/).length`. */
  function WordCount(text: string): (n: nat)
    ensures n >= 1
  {
    |SplitOnWhitespace(text)|
  }

  /** `Math.round`: the nearest integer, halves rounded up. */
  function Round(x: real): int {
    (x + 0.5).Floor
  }

  /** `Math.max(0, Math.min(100, r))`. */
  function Clamp(r: int): (c: int)
    ensures 0 <= c <= 100
    ensures 0 <= r <= 100 ==> c == r
  {
    if r < 0 then 0 else if r > 100 then 100 else r
  }

  /**
   * `calculateGrammarScore`: 0 for empty text, 100 without issues, otherwise
   * 100 - issues / (words * 0.1) * 100, rounded and clamped to [0, 100].
   */
  function CalculateGrammarScore(text: string, issues: seq<GrammarIssue>): (score: int)
    ensures 0 <= score <= 100
    ensures text == [] ==> score == 0
    ensures text != [] && issues == [] ==> score == 100
  {
    if text == [] then 0
    else if issues == [] then 100
    else
      var wordCount := WordCount(text);
      var issueRatio := (|issues| as real) / ((wordCount as real) * 0.1);
      var score := 100.0 - issueRatio * 100.0;
      Clamp(Round(score))
  }

  /** 1000 * issues / words: the points the score loses before rounding. */
  function Ratio(n: nat, w: nat): (q: real)
    requires w >= 1
    ensures q * (w as real) == 1000.0 * (n as real)
  {
    1000.0 * (n as real) / (w as real)
  }

  lemma ScoreOfRatio(text: string, issues: seq<GrammarIssue>)
    requires text != [] && issues != []
    ensures CalculateGrammarScore(text, issues) == Clamp(Round(100.0 - Ratio(|issues|, WordCount(text))))
  {
    RatioIdentity(|issues| as real, WordCount(text) as real);
  }

  /** Dividing by a tenth of the words and scaling by 100 is scaling by 1000. */
  lemma RatioIdentity(n: real, w: real)
    requires w > 0.0
    ensures n / (w * 0.1) * 100.0 == 1000.0 * n / w
  {
    var q := n / (w * 0.1);
    var r := 1000.0 * n / w;
    assert q * (w * 0.1) == n;
    assert r * w == 1000.0 * n;
    assert (q * 100.0) * w == r * w;
  }

  lemma ScaleCompare(x: real, y: real, w: real)
    requires w > 0.0
    ensures x <= y <==> x * w <= y * w
  {
  }

  /** `Ratio(n, w) <= num / den` read back on the integers. */
  lemma RatioAtMost(n: nat, w: nat, num: nat, den: nat)
    requires w >= 1 && den >= 1
    ensures Ratio(n, w) <= (num as real) / (den as real) <==> 1000 * den * n <= num * w
  {
    var q, b := Ratio(n, w), (num as real) / (den as real);
    ScaleCompare(q, b, w as real);
    assert b * (den as real) == num as real;
    ScaleCompare(1000.0 * (n as real), b * (w as real), den as real);
    assert b * (w as real) * (den as real) == (num as real) * (w as real);
  }

  /** With issues, the score reaches 100 exactly when there are at least 2000 words per issue. */
  lemma ScoreFullIff(text: string, issues: seq<GrammarIssue>)
    requires text != [] && issues != []
    ensures CalculateGrammarScore(text, issues) == 100 <==> 2000 * |issues| <= WordCount(text)
  {
    ScoreOfRatio(text, issues);
    var q := Ratio(|issues|, WordCount(text));
    RatioAtMost(|issues|, WordCount(text), 1, 2);
    assert Round(100.0 - q) >= 100 <==> q <= 1.0 / 2.0;
  }

  /** With issues, the score drops to 0 exactly when issues exceed 199/2000 of the words. */
  lemma ScoreZeroIff(text: string, issues: seq<GrammarIssue>)
    requires text != [] && issues != []
    ensures CalculateGrammarScore(text, issues) == 0 <==> 2000 * |issues| > 199 * WordCount(text)
  {
    ScoreOfRatio(text, issues);
    var q := Ratio(|issues|, WordCount(text));
    RatioAtMost(|issues|, WordCount(text), 199, 2);
    assert Round(100.0 - q) <= 0 <==> q > 199.0 / 2.0;
  }

  lemma RatioMonotone(n1: nat, n2: nat, w: nat)
    requires w >= 1 && n1 <= n2
    ensures Ratio(n1, w) <= Ratio(n2, w)
  {
    ScaleCompare(Ratio(n1, w), Ratio(n2, w), w as real);
  }

  lemma ScoreMonotoneStep(q1: real, q2: real)
    requires q1 <= q2
    ensures Clamp(Round(100.0 - q2)) <= Clamp(Round(100.0 - q1))
  {
  }

  /** On the same text, more issues never give a higher score. */
  lemma ScoreMonotone(text: string, fewer: seq<GrammarIssue>, more: seq<GrammarIssue>)
    requires |fewer| <= |more|
    ensures CalculateGrammarScore(text, more) <= CalculateGrammarScore(text, fewer)
  {
    if text != [] && fewer != [] {
      ScoreOfRatio(text, fewer);
      ScoreOfRatio(text, more);
      RatioMonotone(|fewer|, |more|, WordCount(text));
      ScoreMonotoneStep(Ratio(|fewer|, WordCount(text)), Ratio(|more|, WordCount(text)));
    }
  }
}
