/**
 * The grammar-check endpoint of `server/routes.ts`: the decision between the
 * 400 reply, the fallback checker and the language-model reply, the
 * normalisation of that reply, and the fallback checker
 * `getFallbackGrammarCheck` itself.
 *
 * Each of the checker's fixed regular expressions is given as a `Pattern`
 * with the length of its match at one index (`MatchLength`); `text.match(re)`
 * with the global flag is `Matches(p, text)`, the leftmost non-overlapping
 * matches found left to right (their spans are `Spans(p, text)`).
 */
module Routes {
  import opened Strings
  import opened GrammarUtils

  // ---------------------------------------------------------------------
  // Patterns and global matching

  datatype CharClass = Whitespace | Marks

  predicate InClass(cls: CharClass, c: char) {
    match cls
    case Whitespace => IsWhitespace(c)
    case Marks => c == '!' || c == '?'
  }

  predicate IsUpper(c: char) {
    'A' <= c <= 'Z'
  }

  /**
   * `RunOf(cls)`: two or more characters of the class, greedily (`/\s\s+/`,
   * `/[!?]{2,}/`); `PeriodUpper`: `/\.[A-Z]/`; `OneOf(alts)`: the literal
   * alternatives of a `|` pattern, tried in the order listed.
   */
  datatype Pattern = RunOf(cls: CharClass) | PeriodUpper | OneOf(alts: seq<string>)

  /** Length of the longest run of class characters starting at `i`. */
  function RunLength(cls: CharClass, s: string, i: nat): (n: nat)
    requires i <= |s|
    ensures i + n <= |s|
    ensures forall j :: i <= j < i + n ==> InClass(cls, s[j])
    ensures i + n < |s| ==> !InClass(cls, s[i + n])
    decreases |s| - i
  {
    if i < |s| && InClass(cls, s[i]) then 1 + RunLength(cls, s, i + 1) else 0
  }

  /** Index of the first alternative occurring at `i`, or `|alts|` when none does. */
  function FirstAlt(alts: seq<string>, s: string, i: nat): (k: nat)
    ensures k <= |alts|
    ensures k < |alts| ==> OccursAt(s, alts[k], i)
    ensures forall j :: 0 <= j < k ==> !OccursAt(s, alts[j], i)
    decreases |alts|
  {
    if alts == [] then 0
    else if OccursAt(s, alts[0], i) then 0
    else 1 + FirstAlt(alts[1..], s, i)
  }

  /** Length of the match of `p` at index `i`; 0 when `p` does not match there. */
  function MatchLength(p: Pattern, s: string, i: nat): (n: nat)
    requires i <= |s|
    ensures i + n <= |s|
  {
    match p
    case RunOf(cls) =>
      var r := RunLength(cls, s, i);
      if r >= 2 then r else 0
    case PeriodUpper =>
      if i + 2 <= |s| && s[i] == '.' && IsUpper(s[i + 1]) then 2 else 0
    case OneOf(alts) =>
      var k := FirstAlt(alts, s, i);
      if k < |alts| then |alts[k]| else 0
  }

  /** Index `j` lies inside one of the spans. */
  ghost predicate Covered(ms: seq<Position>, j: nat) {
    exists k :: 0 <= k < |ms| && ms[k].start <= j < ms[k].end
  }

  /** The length of the match of `p` at every index of `s`. */
  function MatchLengths(p: Pattern, s: string): (lens: seq<nat>)
    ensures |lens| == |s|
    ensures forall i :: 0 <= i < |s| ==> lens[i] == MatchLength(p, s, i)
    ensures Fits(lens)
  {
    seq(|s|, i requires 0 <= i < |s| => MatchLength(p, s, i))
  }

  /** Every match ends inside the text. */
  predicate Fits(lens: seq<nat>) {
    forall i :: 0 <= i < |lens| ==> i + lens[i] <= |lens|
  }

  /**
   * The scan of a global regular expression from index `from` on, given the
   * length of the match at every index (0 for none): the match at an index
   * is taken and the scan resumes after it, otherwise it moves one on.
   */
  function Scan(lens: seq<nat>, from: nat): (ms: seq<Position>)
    requires Fits(lens) && from <= |lens|
    ensures forall k :: 0 <= k < |ms| ==> from <= ms[k].start <= ms[k].end <= |lens|
    decreases |lens| - from
  {
    if from == |lens| then []
    else if lens[from] > 0 then [Position(from, from + lens[from])] + Scan(lens, from + lens[from])
    else Scan(lens, from + 1)
  }

  /** Every span is a match at its start, and starts at or after `from`. */
  predicate AreMatches(lens: seq<nat>, from: nat, ms: seq<Position>) {
    forall k :: 0 <= k < |ms| ==>
      && from <= ms[k].start < |lens|
      && lens[ms[k].start] > 0
      && ms[k].end == ms[k].start + lens[ms[k].start]
  }

  /** The spans are listed left to right and do not overlap. */
  predicate Ordered(ms: seq<Position>) {
    forall k, l :: 0 <= k < l < |ms| ==> ms[k].end <= ms[l].start
  }

  /** Every index from `from` on where a match starts lies inside a span. */
  ghost predicate NoneMissed(lens: seq<nat>, from: nat, ms: seq<Position>) {
    forall j: nat :: from <= j < |lens| && lens[j] > 0 ==> Covered(ms, j)
  }

  lemma {:induction false} ScanAreMatches(lens: seq<nat>, from: nat)
    requires Fits(lens) && from <= |lens|
    ensures AreMatches(lens, from, Scan(lens, from))
    decreases |lens| - from
  {
    if from < |lens| {
      ScanAreMatches(lens, if lens[from] > 0 then from + lens[from] else from + 1);
    }
  }

  lemma {:induction false} ScanOrdered(lens: seq<nat>, from: nat)
    requires Fits(lens) && from <= |lens|
    ensures Ordered(Scan(lens, from))
    decreases |lens| - from
  {
    if from < |lens| {
      var n := lens[from];
      var next := if n > 0 then from + n else from + 1;
      ScanOrdered(lens, next);
      if n > 0 {
        var rest := Scan(lens, next);
        var ms := Scan(lens, from);
        assert ms == [Position(from, from + n)] + rest;
        forall k, l | 0 <= k < l < |ms| ensures ms[k].end <= ms[l].start {
          if k > 0 {
            assert ms[k] == rest[k - 1] && ms[l] == rest[l - 1];
          } else {
            assert ms[l] == rest[l - 1];
          }
        }
      }
    }
  }

  lemma {:induction false} ScanNoneMissed(lens: seq<nat>, from: nat)
    requires Fits(lens) && from <= |lens|
    ensures NoneMissed(lens, from, Scan(lens, from))
    decreases |lens| - from
  {
    if from < |lens| {
      var n := lens[from];
      var next := if n > 0 then from + n else from + 1;
      var rest := Scan(lens, next);
      ScanNoneMissed(lens, next);
      var ms := Scan(lens, from);
      if n > 0 {
        assert ms == [Position(from, from + n)] + rest;
        forall j: nat | from <= j < |lens| && lens[j] > 0 ensures Covered(ms, j) {
          if j < next {
            assert ms[0].start <= j < ms[0].end;
          } else {
            assert Covered(rest, j);
            var k :| 0 <= k < |rest| && rest[k].start <= j < rest[k].end;
            assert ms[k + 1] == rest[k];
          }
        }
      }
    }
  }

  /** The spans of the matches that `s.match(re)` with the global flag finds. */
  function Spans(p: Pattern, s: string): (ms: seq<Position>)
    ensures forall k :: 0 <= k < |ms| ==> ms[k].start <= ms[k].end <= |s|
  {
    Scan(MatchLengths(p, s), 0)
  }

  /**
   * The global match finds the leftmost matches: every span is a match of
   * `p` at its start, the spans are in order without overlap, and every
   * index where `p` matches lies inside a span.
   */
  lemma SpansSpec(p: Pattern, s: string)
    ensures var ms := Spans(p, s);
      && (forall k :: 0 <= k < |ms| ==>
            && ms[k].start < |s|
            && MatchLength(p, s, ms[k].start) > 0
            && ms[k].end == ms[k].start + MatchLength(p, s, ms[k].start))
      && Ordered(ms)
      && (forall j: nat :: j < |s| && MatchLength(p, s, j) > 0 ==> Covered(ms, j))
  {
    var lens := MatchLengths(p, s);
    ScanAreMatches(lens, 0);
    ScanOrdered(lens, 0);
    ScanNoneMissed(lens, 0);
  }

  /** `text.match(re)` with the global flag: the matched strings, left to right. */
  function Matches(p: Pattern, s: string): (ms: seq<string>)
    ensures |ms| == |Spans(p, s)|
  {
    var spans := Spans(p, s);
    seq(|spans|, k requires 0 <= k < |spans| => s[spans[k].start..spans[k].end])
  }

  /** The `k`-th span is a match of `p` at its start. */
  lemma SpanAt(p: Pattern, s: string, k: nat)
    requires k < |Spans(p, s)|
    ensures var m := Spans(p, s)[k];
      && m.start < |s|
      && MatchLength(p, s, m.start) > 0
      && m.end == m.start + MatchLength(p, s, m.start)
  {
    SpansSpec(p, s);
  }

  /** An index where `p` matches lies inside a span. */
  lemma CoveredAt(p: Pattern, s: string, j: nat)
    requires j < |s| && MatchLength(p, s, j) > 0
    ensures Covered(Spans(p, s), j)
  {
    SpansSpec(p, s);
  }

  /** `ms` lists the maximal-munch runs of two or more class characters, none missed. */
  ghost predicate RunScan(cls: CharClass, s: string, ms: seq<Position>) {
    && (forall k :: 0 <= k < |ms| ==>
          ms[k].start < |s| && RunLength(cls, s, ms[k].start) >= 2
          && ms[k].end == ms[k].start + RunLength(cls, s, ms[k].start))
    && Ordered(ms)
    && (forall j: nat :: j < |s| && RunLength(cls, s, j) >= 2 ==> Covered(ms, j))
  }

  lemma RunSpans(cls: CharClass, s: string)
    ensures RunScan(cls, s, Spans(RunOf(cls), s))
  {
    var ms := Spans(RunOf(cls), s);
    SpansSpec(RunOf(cls), s);
    forall j: nat | j < |s| && RunLength(cls, s, j) >= 2 ensures Covered(ms, j) {
      assert MatchLength(RunOf(cls), s, j) > 0;
    }
  }

  /** A run that starts right after a class character is one shorter than the run before it. */
  lemma RunLengthBack(cls: CharClass, s: string, i: nat)
    requires 0 < i <= |s|
    ensures InClass(cls, s[i - 1]) ==> RunLength(cls, s, i - 1) == 1 + RunLength(cls, s, i)
  {
  }

  lemma ScannedRunLeftMaximal(cls: CharClass, s: string, ms: seq<Position>, k: nat)
    requires RunScan(cls, s, ms) && k < |ms|
    ensures ms[k].start == 0 || !InClass(cls, s[ms[k].start - 1])
  {
    var a := ms[k].start;
    if a > 0 {
      RunLengthBack(cls, s, a);
      forall l | 0 <= l < |ms|
        ensures !(ms[l].start <= a - 1 < ms[l].end)
      {
        NoSpanOverlapsBefore(cls, s, ms, k, l);
      }
    }
  }

  /** No span covers the index just before another span. */
  lemma NoSpanOverlapsBefore(cls: CharClass, s: string, ms: seq<Position>, k: nat, l: nat)
    requires RunScan(cls, s, ms) && k < |ms| && l < |ms| && 0 < ms[k].start
    ensures !(ms[l].start <= ms[k].start - 1 < ms[l].end)
  {
    var a := ms[k].start;
    if l < k {
      assert ms[l].end <= a;
      assert a < |s| && InClass(cls, s[a]);
    } else if k < l {
      assert ms[k].end <= ms[l].start;
    }
  }

  /** The run starting at the beginning of a maximal run covers all of it. */
  lemma RunLengthOfMaximal(cls: CharClass, s: string, a: nat, b: nat)
    requires a <= b <= |s|
    requires forall j :: a <= j < b ==> InClass(cls, s[j])
    requires b == |s| || !InClass(cls, s[b])
    ensures RunLength(cls, s, a) == b - a
  {
  }

  lemma MaximalRunIsScanned(cls: CharClass, s: string, ms: seq<Position>, a: nat, b: nat)
    requires RunScan(cls, s, ms)
    requires a + 2 <= b <= |s|
    requires forall j :: a <= j < b ==> InClass(cls, s[j])
    requires a == 0 || !InClass(cls, s[a - 1])
    requires b == |s| || !InClass(cls, s[b])
    ensures Position(a, b) in ms
  {
    RunLengthOfMaximal(cls, s, a, b);
    var k := CoveringSpan(cls, s, ms, a);
    SpanStartsRun(cls, s, ms, k, a);
    assert ms[k].end == b;
    assert ms[k] == Position(a, b);
  }

  /** A run of two or more class characters starts inside some span. */
  lemma CoveringSpan(cls: CharClass, s: string, ms: seq<Position>, a: nat) returns (k: nat)
    requires RunScan(cls, s, ms)
    requires a < |s| && RunLength(cls, s, a) >= 2
    ensures k < |ms| && ms[k].start <= a < ms[k].end
  {
    assert Covered(ms, a);
    k :| 0 <= k < |ms| && ms[k].start <= a < ms[k].end;
  }

  /** A span covering the start of a maximal run starts there. */
  lemma SpanStartsRun(cls: CharClass, s: string, ms: seq<Position>, k: nat, a: nat)
    requires RunScan(cls, s, ms) && k < |ms|
    requires ms[k].start <= a < ms[k].end
    requires a == 0 || !InClass(cls, s[a - 1])
    ensures ms[k].start == a
  {
    var m := ms[k];
    assert forall j :: m.start <= j < m.end ==> InClass(cls, s[j]);
  }

  /**
   * The spans of a run pattern are exactly the maximal runs of two or more
   * class characters: every span is one ...
   */
  lemma RunSpanIsMaximal(cls: CharClass, s: string, k: nat)
    requires k < |Spans(RunOf(cls), s)|
    ensures var m := Spans(RunOf(cls), s)[k];
      && m.start + 2 <= m.end <= |s|
      && (forall j :: m.start <= j < m.end ==> InClass(cls, s[j]))
      && (m.start == 0 || !InClass(cls, s[m.start - 1]))
      && (m.end == |s| || !InClass(cls, s[m.end]))
  {
    RunSpans(cls, s);
    ScannedRunLeftMaximal(cls, s, Spans(RunOf(cls), s), k);
  }

  /** ... and every maximal run of two or more class characters is a span. */
  lemma MaximalRunIsSpan(cls: CharClass, s: string, a: nat, b: nat)
    requires a + 2 <= b <= |s|
    requires forall j :: a <= j < b ==> InClass(cls, s[j])
    requires a == 0 || !InClass(cls, s[a - 1])
    requires b == |s| || !InClass(cls, s[b])
    ensures Position(a, b) in Spans(RunOf(cls), s)
  {
    RunSpans(cls, s);
    MaximalRunIsScanned(cls, s, Spans(RunOf(cls), s), a, b);
  }

  /** Every span of `/\.[A-Z]/` is a period followed by a capital letter ... */
  lemma PeriodSpan(s: string, k: nat)
    requires k < |Spans(PeriodUpper, s)|
    ensures var m := Spans(PeriodUpper, s)[k];
      m.end == m.start + 2 <= |s| && s[m.start] == '.' && IsUpper(s[m.start + 1])
  {
    SpanAt(PeriodUpper, s, k);
  }

  /** ... and every period followed by a capital letter starts a span. */
  lemma PeriodIsSpan(s: string, j: nat)
    requires j + 2 <= |s| && s[j] == '.' && IsUpper(s[j + 1])
    ensures Position(j, j + 2) in Spans(PeriodUpper, s)
  {
    var ms := Spans(PeriodUpper, s);
    CoveredAt(PeriodUpper, s, j);
    var k :| 0 <= k < |ms| && ms[k].start <= j < ms[k].end;
    PeriodSpan(s, k);
    assert ms[k] == Position(j, j + 2);
  }

  /**
   * Every span of a list of literal alternatives reads the first listed
   * alternative that occurs at its start.
   */
  lemma AlternativeSpan(alts: seq<string>, s: string, k: nat)
    requires k < |Spans(OneOf(alts), s)|
    ensures var m := Spans(OneOf(alts), s)[k];
      var i := FirstAlt(alts, s, m.start);
      && i < |alts|
      && s[m.start..m.end] == alts[i]
      && forall j :: 0 <= j < i ==> !OccursAt(s, alts[j], m.start)
  {
    SpanAt(OneOf(alts), s, k);
  }

  // ---------------------------------------------------------------------
  // The rules of the fallback checker

  /**
   * The checks of `getFallbackGrammarCheck`, in the order they run: the
   * whitespace rule, the period rule, one rule per common confusion and the
   * punctuation-mark rule.
   */
  datatype Rule =
    | Spaces
    | PeriodSpace
    | Confusion(wrong: string, right: string, alts: seq<string>)
    | RepeatedMarks

  function PatternOf(rule: Rule): Pattern {
    match rule
    case Spaces => RunOf(Whitespace)
    case PeriodSpace => PeriodUpper
    case Confusion(_, _, alts) => OneOf(alts)
    case RepeatedMarks => RunOf(Marks)
  }

  /** Points taken off the score per match. */
  function Penalty(rule: Rule): (n: nat)
    ensures n >= 2
  {
    match rule
    case Spaces => 2
    case PeriodSpace => 3
    case Confusion(_, _, _) => 5
    case RepeatedMarks => 3
  }

  /** The contexts of the `commonErrors` entries with more than one context. */
  const ItsContexts: seq<string> := ["its a", "its the", "its not", "its going", "its time"]
  const TheirContexts: seq<string> :=
    ["their a", "their the", "their not", "their going", "their here", "their there"]
  const YourContexts: seq<string> :=
    ["your a", "your the", "your not", "your going", "your right", "your wrong"]
  const ThenContexts: seq<string> := ["more then", "better then", "worse then", "rather then"]

  /** The `commonErrors` table: wrong word, right word, context alternatives. */
  const CommonErrors: seq<Rule> := [
    Confusion("its", "it's", ItsContexts),
    Confusion("their", "they're", TheirContexts),
    Confusion("your", "you're", YourContexts),
    Confusion("then", "than", ThenContexts),
    Confusion("affect", "effect", ["the affect"]),
    Confusion("effect", "affect", ["effect the"])
  ]

  /** `m.charAt(i)`: the character at `i` as a string, "" past the end. */
  function CharAt(m: string, i: nat): (c: string)
    ensures i < |m| ==> c == [m[i]]
    ensures i >= |m| ==> c == ""
  {
    if i < |m| then [m[i]] else ""
  }

  /** The issue pushed for one match `m` of the rule. */
  function MakeIssue(rule: Rule, m: string): GrammarIssue {
    match rule
    case Spaces =>
      GrammarIssue(m, " ", Some("Multiple spaces should be a single space"), None)
    case PeriodSpace =>
      GrammarIssue(m, CharAt(m, 0) + " " + CharAt(m, 1), Some("Add a space after period"), None)
    case Confusion(wrong, right, _) =>
      GrammarIssue(m, ReplaceFirst(m, wrong, right),
        Some("'" + wrong + "' might be incorrect in this context. Did you mean '" + right + "'?"), None)
    case RepeatedMarks =>
      GrammarIssue(m, CharAt(m, 0), Some("Use a single punctuation mark for professional writing"), None)
  }

  /** One issue per match, in the order of the matches. */
  function IssuesFor(rule: Rule, ms: seq<string>): (issues: seq<GrammarIssue>)
    ensures |issues| == |ms|
    decreases |ms|
  {
    if ms == [] then []
    else IssuesFor(rule, ms[..|ms| - 1]) + [MakeIssue(rule, ms[|ms| - 1])]
  }

  /** The issues one rule pushes, one per match, left to right. */
  function RuleIssues(rule: Rule, text: string): seq<GrammarIssue> {
    IssuesFor(rule, Matches(PatternOf(rule), text))
  }

  /** The issues of a list of rules, rule after rule. */
  function IssuesOf(rules: seq<Rule>, text: string): seq<GrammarIssue>
    decreases |rules|
  {
    if rules == [] then []
    else IssuesOf(rules[..|rules| - 1], text) + RuleIssues(rules[|rules| - 1], text)
  }

  /** The points one rule takes off: its penalty once per match. */
  function RulePenalty(rule: Rule, text: string): nat {
    |Matches(PatternOf(rule), text)| * Penalty(rule)
  }

  /** The points a list of rules takes off. */
  function PenaltyOf(rules: seq<Rule>, text: string): nat
    decreases |rules|
  {
    if rules == [] then 0
    else
      PenaltyOf(rules[..|rules| - 1], text) + RulePenalty(rules[|rules| - 1], text)
  }

  /** All rules of the checker, in the order they run. */
  function AllRules(): seq<Rule> {
    [Spaces, PeriodSpace] + CommonErrors + [RepeatedMarks]
  }

  datatype CheckResult = CheckResult(issues: seq<GrammarIssue>, score: int)

  /** What `getFallbackGrammarCheck` returns. */
  function FallbackCheck(text: string): CheckResult {
    CheckResult(IssuesOf(AllRules(), text), Clamp(95 - PenaltyOf(AllRules(), text)))
  }

  // ---------------------------------------------------------------------
  // The checker

  /** The `forEach` of one rule's block: push one issue per match. */
  method PushIssues(rule: Rule, matches: seq<string>, issues: seq<GrammarIssue>)
    returns (issues': seq<GrammarIssue>)
    ensures issues' == issues + IssuesFor(rule, matches)
  {
    issues' := issues;
    for k := 0 to |matches|
      invariant issues' == issues + IssuesFor(rule, matches[..k])
    {
      assert matches[..k + 1][..k] == matches[..k];
      issues' := issues' + [MakeIssue(rule, matches[k])];
    }
    assert matches[..|matches|] == matches;
  }

  /**
   * One rule's block: run the global match and, when there are matches,
   * push their issues and take the rule's penalty off once per match.
   */
  method RunRule(rule: Rule, text: string, issues: seq<GrammarIssue>, score: int)
    returns (issues': seq<GrammarIssue>, score': int)
    ensures issues' == issues + RuleIssues(rule, text)
    ensures score' == score - RulePenalty(rule, text)
  {
    var matches := Matches(PatternOf(rule), text);
    if matches != [] {
      issues' := PushIssues(rule, matches, issues);
      score' := score - |matches| * Penalty(rule);
    } else {
      issues', score' := issues, score;
      assert IssuesFor(rule, matches) == [];
    }
  }

  /** Running one more rule appends its issues and adds its penalty. */
  lemma RulesSnoc(rules: seq<Rule>, rule: Rule, text: string)
    ensures IssuesOf(rules + [rule], text) == IssuesOf(rules, text) + RuleIssues(rule, text)
    ensures PenaltyOf(rules + [rule], text) == PenaltyOf(rules, text) + RulePenalty(rule, text)
  {
    assert (rules + [rule])[..|rules|] == rules;
  }

  /** The rules up to and including `rules[i]`. */
  lemma RulesPrefixSnoc(rules: seq<Rule>, i: nat, text: string)
    requires i < |rules|
    ensures IssuesOf(rules[..i + 1], text) == IssuesOf(rules[..i], text) + RuleIssues(rules[i], text)
    ensures PenaltyOf(rules[..i + 1], text) == PenaltyOf(rules[..i], text) + RulePenalty(rules[i], text)
  {
    var pre, next := rules[..i], rules[..i + 1];
    assert next == pre + [rules[i]];
    RulesSnoc(pre, rules[i], text);
  }

  lemma ConcatAssoc<T>(a: seq<T>, b: seq<T>, c: seq<T>)
    ensures a + (b + c) == (a + b) + c
  {
  }

  /** Running two lists of rules one after the other. */
  lemma {:induction false} RulesAppend(a: seq<Rule>, b: seq<Rule>, text: string)
    ensures IssuesOf(a + b, text) == IssuesOf(a, text) + IssuesOf(b, text)
    ensures PenaltyOf(a + b, text) == PenaltyOf(a, text) + PenaltyOf(b, text)
    decreases |b|
  {
    if b == [] {
      assert a + b == a;
    } else {
      var init, last := b[..|b| - 1], b[|b| - 1];
      assert a + b == (a + init) + [last];
      assert b == init + [last];
      RulesAppend(a, init, text);
      RulesSnoc(a + init, last, text);
      RulesSnoc(init, last, text);
      ConcatAssoc(IssuesOf(a, text), IssuesOf(init, text), RuleIssues(last, text));
    }
  }

  /** `commonErrors.forEach(...)`: run each confusion rule in turn. */
  method RunRules(rules: seq<Rule>, text: string, issues: seq<GrammarIssue>, score: int)
    returns (issues': seq<GrammarIssue>, score': int)
    ensures issues' == issues + IssuesOf(rules, text)
    ensures score' == score - PenaltyOf(rules, text)
  {
    issues', score' := issues, score;
    for i := 0 to |rules|
      invariant issues' == issues + IssuesOf(rules[..i], text)
      invariant score' == score - PenaltyOf(rules[..i], text)
    {
      issues', score' := RunRule(rules[i], text, issues', score');
      RulesPrefixSnoc(rules, i, text);
      ConcatAssoc(issues, IssuesOf(rules[..i], text), RuleIssues(rules[i], text));
    }
    assert rules[..|rules|] == rules;
  }

  /**
   * `getFallbackGrammarCheck`: start from no issues and a score of 95, run
   * the rules in order, then clamp the score to [0, 100].
   */
  method GetFallbackGrammarCheck(text: string) returns (result: CheckResult)
    ensures result == FallbackCheck(text)
  {
    var issues: seq<GrammarIssue> := [];
    var score: int := 95;
    issues, score := RunRule(Spaces, text, issues, score);
    issues, score := RunRule(PeriodSpace, text, issues, score);
    issues, score := RunRules(CommonErrors, text, issues, score);
    issues, score := RunRule(RepeatedMarks, text, issues, score);
    AllRulesIssues(text);
    AllRulesPenalty(text);
    score := Clamp(score);
    result := CheckResult(issues, score);
  }

  // ---------------------------------------------------------------------
  // Properties of the checker

  /** The number of matches a list of rules finds. */
  function CountOf(rules: seq<Rule>, text: string): nat
    decreases |rules|
  {
    if rules == [] then 0
    else CountOf(rules[..|rules| - 1], text) + |Matches(PatternOf(rules[|rules| - 1]), text)|
  }

  lemma RulePenaltyBounds(rule: Rule, text: string)
    ensures 2 * |RuleIssues(rule, text)| <= RulePenalty(rule, text) <= 5 * |RuleIssues(rule, text)|
  {
  }

  /**
   * A list of rules emits one issue per match and takes between 2 and 5
   * points off per issue.
   */
  lemma {:induction false} IssuesAndPenalty(rules: seq<Rule>, text: string)
    ensures |IssuesOf(rules, text)| == CountOf(rules, text)
    ensures 2 * |IssuesOf(rules, text)| <= PenaltyOf(rules, text) <= 5 * |IssuesOf(rules, text)|
    decreases |rules|
  {
    if rules != [] {
      IssuesAndPenalty(rules[..|rules| - 1], text);
      RulePenaltyBounds(rules[|rules| - 1], text);
    }
  }

  /**
   * The fallback score lies in [0, 95] and is 95 exactly when no issue is
   * emitted; each issue costs between 2 and 5 points until the score hits 0.
   */
  lemma FallbackScore(text: string)
    ensures var r := FallbackCheck(text);
      && 0 <= r.score <= 95
      && (r.score == 95 <==> r.issues == [])
      && (r.score > 0 ==> 2 * |r.issues| <= 95 - r.score <= 5 * |r.issues|)
  {
    IssuesAndPenalty(AllRules(), text);
  }

  /** The number of issues is the number of matches of all the rules. */
  lemma FallbackIssueCount(text: string)
    ensures |FallbackCheck(text).issues| == CountOf(AllRules(), text)
  {
    IssuesAndPenalty(AllRules(), text);
  }

  /** The points the confusion rules take off, each match costing 5. */
  lemma {:induction false} ConfusionPenalty(rules: seq<Rule>, text: string)
    requires forall i :: 0 <= i < |rules| ==> rules[i].Confusion?
    ensures PenaltyOf(rules, text) == 5 * CountOf(rules, text)
    decreases |rules|
  {
    if rules != [] {
      ConfusionPenalty(rules[..|rules| - 1], text);
    }
  }

  /** The issues of the rules, rule group by rule group. */
  lemma AllRulesIssues(text: string)
    ensures IssuesOf(AllRules(), text) ==
      [] + RuleIssues(Spaces, text) + RuleIssues(PeriodSpace, text)
      + IssuesOf(CommonErrors, text) + RuleIssues(RepeatedMarks, text)
  {
    RulesSnoc([], Spaces, text);
    RulesSnoc([Spaces], PeriodSpace, text);
    RulesAppend([Spaces, PeriodSpace], CommonErrors, text);
    RulesSnoc([Spaces, PeriodSpace] + CommonErrors, RepeatedMarks, text);
  }

  /** The points the rules take off, rule group by rule group. */
  lemma AllRulesPenalty(text: string)
    ensures PenaltyOf(AllRules(), text) ==
      RulePenalty(Spaces, text) + RulePenalty(PeriodSpace, text)
      + PenaltyOf(CommonErrors, text) + RulePenalty(RepeatedMarks, text)
  {
    RulesSnoc([], Spaces, text);
    RulesSnoc([Spaces], PeriodSpace, text);
    RulesAppend([Spaces, PeriodSpace], CommonErrors, text);
    RulesSnoc([Spaces, PeriodSpace] + CommonErrors, RepeatedMarks, text);
  }

  /** Every entry of the `commonErrors` table costs 5 points per match. */
  lemma CommonErrorsPenalty(text: string)
    ensures PenaltyOf(CommonErrors, text) == 5 * CountOf(CommonErrors, text)
  {
    assert forall i :: 0 <= i < |CommonErrors| ==> CommonErrors[i].Confusion?;
    ConfusionPenalty(CommonErrors, text);
  }

  /**
   * The score is max(0, 95 - 2 * whitespace runs - 3 * missing spaces after a
   * period - 5 * confusions - 3 * repeated marks).
   */
  lemma FallbackScoreFormula(text: string)
    ensures FallbackCheck(text).score ==
      var penalty := 2 * |Matches(RunOf(Whitespace), text)| + 3 * |Matches(PeriodUpper, text)|
        + 5 * CountOf(CommonErrors, text) + 3 * |Matches(RunOf(Marks), text)|;
      if 95 - penalty < 0 then 0 else 95 - penalty
  {
    AllRulesPenalty(text);
    CommonErrorsPenalty(text);
  }

  // ---------------------------------------------------------------------
  // What each issue says

  /** A confusion rule whose every context contains the wrong word, which differs from the right one. */
  ghost predicate WellFormedConfusion(rule: Rule) {
    rule.Confusion? && rule.wrong != rule.right
    && forall a :: a in rule.alts ==> Contains(a, rule.wrong)
  }

  lemma CommonErrorsWellFormed()
    ensures forall i :: 0 <= i < |CommonErrors| ==> WellFormedConfusion(CommonErrors[i])
  {
    ItsContextsContain();
    TheirContextsContain();
    YourContextsContain();
    ThenContextsContain();
    assert OccursAt("the affect", "affect", 4) && OccursAt("effect the", "effect", 0);
  }

  lemma ItsContextsContain()
    ensures forall a :: a in ItsContexts ==> Contains(a, "its")
  {
    assert OccursAt("its a", "its", 0) && OccursAt("its the", "its", 0) && OccursAt("its not", "its", 0);
    assert OccursAt("its going", "its", 0) && OccursAt("its time", "its", 0);
  }

  lemma TheirContextsContain()
    ensures forall a :: a in TheirContexts ==> Contains(a, "their")
  {
    assert OccursAt("their a", "their", 0) && OccursAt("their the", "their", 0);
    assert OccursAt("their not", "their", 0) && OccursAt("their going", "their", 0);
    assert OccursAt("their here", "their", 0) && OccursAt("their there", "their", 0);
  }

  lemma YourContextsContain()
    ensures forall a :: a in YourContexts ==> Contains(a, "your")
  {
    assert OccursAt("your a", "your", 0) && OccursAt("your the", "your", 0);
    assert OccursAt("your not", "your", 0) && OccursAt("your going", "your", 0);
    assert OccursAt("your right", "your", 0) && OccursAt("your wrong", "your", 0);
  }

  lemma ThenContextsContain()
    ensures forall a :: a in ThenContexts ==> Contains(a, "then")
  {
    assert OccursAt("more then", "then", 5) && OccursAt("better then", "then", 7);
    assert OccursAt("worse then", "then", 6) && OccursAt("rather then", "then", 7);
  }

  /** An issue the fallback checker can emit for `text`. */
  ghost predicate FallbackIssue(text: string, issue: GrammarIssue) {
    && issue.position.None?
    && issue.explanation.Some?
    && Contains(text, issue.original)
    && issue.original != issue.suggestion
  }

  lemma IssuesForAt(rule: Rule, ms: seq<string>, k: nat)
    requires k < |ms|
    ensures IssuesFor(rule, ms)[k] == MakeIssue(rule, ms[k])
    decreases |ms|
  {
    if k < |ms| - 1 {
      IssuesForAt(rule, ms[..|ms| - 1], k);
    }
  }

  /** The `k`-th match is the text of the `k`-th span, a non-empty match of `p` there. */
  lemma MatchAt(p: Pattern, text: string, k: nat)
    requires k < |Matches(p, text)|
    ensures var span := Spans(p, text)[k];
      && Matches(p, text)[k] == text[span.start..span.end]
      && OccursAt(text, Matches(p, text)[k], span.start)
      && span.start < |text|
      && 0 < |Matches(p, text)[k]| == MatchLength(p, text, span.start)
  {
    SpanAt(p, text, k);
  }

  /** A match of a confusion rule is one of its contexts, so it contains the wrong word. */
  lemma ConfusionMatch(rule: Rule, text: string, k: nat)
    requires WellFormedConfusion(rule)
    requires k < |Matches(OneOf(rule.alts), text)|
    ensures Contains(Matches(OneOf(rule.alts), text)[k], rule.wrong)
  {
    AlternativeSpan(rule.alts, text, k);
    MatchAt(OneOf(rule.alts), text, k);
    var span := Spans(OneOf(rule.alts), text)[k];
    var i := FirstAlt(rule.alts, text, span.start);
    assert rule.alts[i] in rule.alts;
  }

  /** Every issue of a rule quotes a piece of the text and suggests something else. */
  lemma RuleIssueIsSound(rule: Rule, text: string, k: nat)
    requires rule.Confusion? ==> WellFormedConfusion(rule)
    requires k < |RuleIssues(rule, text)|
    ensures FallbackIssue(text, RuleIssues(rule, text)[k])
  {
    var p := PatternOf(rule);
    var m := Matches(p, text)[k];
    MatchAt(p, text, k);
    IssuesForAt(rule, Matches(p, text), k);
    var issue := RuleIssues(rule, text)[k];
    assert issue == MakeIssue(rule, m);
    match rule
    case Spaces =>
      assert |m| >= 2;
    case PeriodSpace =>
      assert |issue.suggestion| == 3;
    case Confusion(wrong, right, alts) =>
      ConfusionMatch(rule, text, k);
      var at: nat :| OccursAt(m, wrong, at);
      ReplaceFirstChanges(m, wrong, right, at);
    case RepeatedMarks =>
      assert |m| >= 2;
  }

  lemma {:induction false} IssuesOfSound(rules: seq<Rule>, text: string)
    requires forall i :: 0 <= i < |rules| ==> rules[i].Confusion? ==> WellFormedConfusion(rules[i])
    ensures forall issue :: issue in IssuesOf(rules, text) ==> FallbackIssue(text, issue)
    decreases |rules|
  {
    if rules != [] {
      var last := rules[|rules| - 1];
      IssuesOfSound(rules[..|rules| - 1], text);
      forall k | 0 <= k < |RuleIssues(last, text)| ensures FallbackIssue(text, RuleIssues(last, text)[k]) {
        RuleIssueIsSound(last, text, k);
      }
    }
  }

  /**
   * Every issue of the fallback checker quotes text that occurs in the input,
   * suggests something different, has an explanation and carries no position.
   */
  lemma FallbackIssuesSound(text: string)
    ensures forall issue :: issue in FallbackCheck(text).issues ==> FallbackIssue(text, issue)
  {
    CommonErrorsWellFormed();
    IssuesOfSound(AllRules(), text);
  }

  /** The contexts of the "their" rule at each index of "their there". */
  lemma TheirThereLengths()
    ensures var lens := MatchLengths(OneOf(TheirContexts), "their there");
      lens[0] == 9 && lens[9] == 0 && lens[10] == 0
  {
    var s := "their there";
    var alts := TheirContexts;
    assert !OccursAt(s, alts[0], 0) by { assert s[6] != alts[0][6]; }
    assert OccursAt(s, alts[1], 0);
    assert FirstAlt(alts, s, 0) == 1 by {
      assert alts[1..][0] == alts[1];
    }
    assert |alts[1]| == 9;
    TheirThereTail(s, alts);
  }

  /** No context of the "their" rule starts with 'r' or 'e'. */
  lemma TheirThereTail(s: string, alts: seq<string>)
    requires s == "their there" && alts == TheirContexts
    ensures FirstAlt(alts, s, 9) == |alts| && FirstAlt(alts, s, 10) == |alts|
  {
    forall j | 0 <= j < |alts| ensures alts[j][0] == 't' {}
    assert forall j :: 0 <= j < |alts| ==> !OccursAt(s, alts[j], 9);
  }

  /** The "their" rule finds a single match in "their there", covering its first nine characters. */
  lemma TheirThereSpans()
    ensures Spans(OneOf(TheirContexts), "their there") == [Position(0, 9)]
  {
    var lens := MatchLengths(OneOf(TheirContexts), "their there");
    TheirThereLengths();
    assert Scan(lens, 9) == [] by {
      assert Scan(lens, 10) == [] by { assert Scan(lens, 11) == []; }
    }
    assert Scan(lens, 0) == [Position(0, 9)] + Scan(lens, 9);
  }

  /**
   * Alternatives are tried in the order listed, so in "their there" the
   * context "their the" wins over "their there".
   */
  lemma FirstAlternativeWins()
    ensures Matches(PatternOf(CommonErrors[1]), "their there") == ["their the"]
    ensures RuleIssues(CommonErrors[1], "their there")[0].suggestion == "they're the"
  {
    var s := "their there";
    assert PatternOf(CommonErrors[1]) == OneOf(TheirContexts);
    var ms := Matches(PatternOf(CommonErrors[1]), s);
    TheirThereSpans();
    assert |ms| == 1;
    assert ms[0] == s[0..9] == "their the";
    assert ms == ["their the"];
    IssuesForAt(CommonErrors[1], ms, 0);
    TheirTheSuggestion();
  }

  lemma TheirTheSuggestion()
    ensures ReplaceFirst("their the", "their", "they're") == "they're the"
  {
    assert OccursAt("their the", "their", 0);
    assert IndexOf("their the", "their", 0) == 0;
  }

  /** The "its" rule at each index of "bits a". */
  lemma BitsALengths()
    ensures var lens := MatchLengths(OneOf(ItsContexts), "bits a");
      lens[0] == 0 && lens[1] == 5
  {
    var s := "bits a";
    var alts := ItsContexts;
    assert OccursAt(s, alts[0], 1);
    assert FirstAlt(alts, s, 1) == 0;
    assert forall j :: 0 <= j < |alts| ==> !OccursAt(s, alts[j], 0) by {
      assert s[0] == 'b';
      forall j | 0 <= j < |alts| ensures alts[j][0] == 'i' { }
    }
  }

  /** Contexts are matched without word boundaries: "bits a" yields the match "its a". */
  lemma NotWordBounded()
    ensures Matches(PatternOf(CommonErrors[0]), "bits a") == ["its a"]
  {
    var s := "bits a";
    assert PatternOf(CommonErrors[0]) == OneOf(ItsContexts);
    var p := OneOf(ItsContexts);
    var lens := MatchLengths(p, s);
    BitsALengths();
    assert Scan(lens, 6) == [];
    assert Scan(lens, 1) == [Position(1, 6)] + Scan(lens, 6);
    assert Spans(p, s) == [Position(1, 6)];
    var ms := Matches(p, s);
    assert ms[0] == s[1..6] == "its a";
    assert ms == ["its a"];
  }

  /** A whitespace issue quotes a maximal run of two or more whitespace characters and suggests one space. */
  lemma SpacesIssue(text: string, k: nat)
    requires k < |RuleIssues(Spaces, text)|
    ensures var span := Spans(RunOf(Whitespace), text)[k];
      var issue := RuleIssues(Spaces, text)[k];
      && issue.original == text[span.start..span.end]
      && issue.suggestion == " "
      && span.start + 2 <= span.end
      && (forall j :: span.start <= j < span.end ==> IsWhitespace(text[j]))
      && (span.start == 0 || !IsWhitespace(text[span.start - 1]))
      && (span.end == |text| || !IsWhitespace(text[span.end]))
  {
    MatchAt(RunOf(Whitespace), text, k);
    IssuesForAt(Spaces, Matches(RunOf(Whitespace), text), k);
    RunSpanIsMaximal(Whitespace, text, k);
  }

  /** A period issue quotes a period and a capital letter and suggests them with a space between. */
  lemma PeriodIssue(text: string, k: nat)
    requires k < |RuleIssues(PeriodSpace, text)|
    ensures var span := Spans(PeriodUpper, text)[k];
      var issue := RuleIssues(PeriodSpace, text)[k];
      && span.end == span.start + 2
      && IsUpper(text[span.start + 1])
      && issue.original == ['.', text[span.start + 1]]
      && issue.suggestion == ['.', ' ', text[span.start + 1]]
  {
    MatchAt(PeriodUpper, text, k);
    IssuesForAt(PeriodSpace, Matches(PeriodUpper, text), k);
    PeriodSpan(text, k);
  }

  /** A marks issue quotes a maximal run of two or more of `!` and `?` and suggests its first mark. */
  lemma MarksIssue(text: string, k: nat)
    requires k < |RuleIssues(RepeatedMarks, text)|
    ensures var span := Spans(RunOf(Marks), text)[k];
      var issue := RuleIssues(RepeatedMarks, text)[k];
      && span.start + 2 <= span.end <= |text|
      && issue.original == text[span.start..span.end]
      && issue.suggestion == [text[span.start]]
      && (forall j :: span.start <= j < span.end ==> text[j] == '!' || text[j] == '?')
      && (span.start == 0 || !(text[span.start - 1] == '!' || text[span.start - 1] == '?'))
      && (span.end == |text| || !(text[span.end] == '!' || text[span.end] == '?'))
  {
    MatchAt(RunOf(Marks), text, k);
    IssuesForAt(RepeatedMarks, Matches(RunOf(Marks), text), k);
    RunSpanIsMaximal(Marks, text, k);
  }

  /**
   * A confusion issue quotes the first listed context that occurs where the
   * match starts, and suggests it with its first occurrence of the wrong
   * word replaced by the right one.
   */
  lemma ConfusionIssue(rule: Rule, text: string, k: nat)
    requires rule.Confusion?
    requires k < |RuleIssues(rule, text)|
    ensures var span := Spans(OneOf(rule.alts), text)[k];
      var i := FirstAlt(rule.alts, text, span.start);
      var issue := RuleIssues(rule, text)[k];
      && i < |rule.alts|
      && (forall j :: 0 <= j < i ==> !OccursAt(text, rule.alts[j], span.start))
      && issue.original == text[span.start..span.end] == rule.alts[i]
      && issue.suggestion == ReplaceFirst(rule.alts[i], rule.wrong, rule.right)
  {
    MatchAt(OneOf(rule.alts), text, k);
    IssuesForAt(rule, Matches(OneOf(rule.alts), text), k);
    AlternativeSpan(rule.alts, text, k);
  }

  // ---------------------------------------------------------------------
  // The endpoint

  /**
   * The fallback is used when the key is missing or empty (`!key`) or is the
   * placeholder "sk-123".
   */
  predicate UseFallback(apiKey: Option<string>) {
    apiKey.None? || apiKey == Some("") || apiKey == Some("sk-123")
  }

  /**
   * What the language-model call yields: a thrown error (the request fails
   * or `JSON.parse` rejects the content), content that is not a string, or
   * a parsed object whose `issues` and `score` fields may be missing or
   * falsy (`None`).
   */
  datatype ModelReply =
    | ApiError
    | NonStringContent
    | Parsed(issues: Option<seq<GrammarIssue>>, score: Option<int>)

  /** `{ issues: result.issues || [], score: result.score || 100 }`. */
  function Normalise(issues: Option<seq<GrammarIssue>>, score: Option<int>): (r: CheckResult)
    ensures r.issues == (if issues.Some? then issues.value else [])
    ensures score.Some? && score.value != 0 ==> r.score == score.value
    ensures score.None? || score == Some(0) ==> r.score == 100
  {
    CheckResult(
      match issues case Some(list) => list case None => [],
      match score case Some(n) => (if n != 0 then n else 100) case None => 100)
  }

  /** A normalised result is left alone by a second normalisation. */
  lemma NormaliseIdempotent(issues: Option<seq<GrammarIssue>>, score: Option<int>)
    ensures var r := Normalise(issues, score);
      Normalise(Some(r.issues), Some(r.score)) == r
  {
  }

  /** A score within [0, 100], or none, normalises to a score within [1, 100]. */
  lemma NormaliseScoreInRange(issues: Option<seq<GrammarIssue>>, score: Option<int>)
    requires score.Some? ==> 0 <= score.value <= 100
    ensures 1 <= Normalise(issues, score).score <= 100
  {
  }

  datatype Response = BadRequest(message: string) | Ok(result: CheckResult)

  /**
   * The `/api/grammar-check` handler for the request's `text` (`None` when
   * it is missing), the configured key and what the model call yields.
   */
  function HandleGrammarCheck(text: Option<string>, apiKey: Option<string>, reply: ModelReply): (r: Response)
    ensures r.BadRequest? <==> text.None? || text == Some("")
    ensures r.BadRequest? ==> r.message == "Text is required"
    ensures r.Ok? && UseFallback(apiKey) ==> r.result == FallbackCheck(text.value)
    ensures r.Ok? && reply.ApiError? ==> r.result == FallbackCheck(text.value)
    ensures r.Ok? && !UseFallback(apiKey) && reply.NonStringContent? ==> r.result == CheckResult([], 100)
    ensures r.Ok? && !UseFallback(apiKey) && reply.Parsed? ==> r.result == Normalise(reply.issues, reply.score)
  {
    if text.None? || text.value == "" then BadRequest("Text is required")
    else if UseFallback(apiKey) then Ok(FallbackCheck(text.value))
    else
      match reply
      case ApiError => Ok(FallbackCheck(text.value))
      case NonStringContent => Ok(Normalise(Some([]), Some(100)))
      case Parsed(issues, score) => Ok(Normalise(issues, score))
  }

  /**
   * Without a usable key the reply of the model does not matter: the
   * handler answers with the fallback result whatever the model would say.
   */
  lemma FallbackIgnoresModel(text: string, apiKey: Option<string>, a: ModelReply, b: ModelReply)
    requires text != "" && UseFallback(apiKey)
    ensures HandleGrammarCheck(Some(text), apiKey, a) == HandleGrammarCheck(Some(text), apiKey, b)
    ensures HandleGrammarCheck(Some(text), apiKey, a) == Ok(FallbackCheck(text))
  {
  }

  /**
   * Every successful response has a score in [0, 100] when the model's
   * own score, if any, is in that range.
   */
  lemma ResponseScoreInRange(text: Option<string>, apiKey: Option<string>, reply: ModelReply)
    requires reply.Parsed? && reply.score.Some? ==> 0 <= reply.score.value <= 100
    ensures var r := HandleGrammarCheck(text, apiKey, reply);
      r.Ok? ==> 0 <= r.result.score <= 100
  {
    if text.Some? && text.value != "" {
      FallbackScore(text.value);
    }
  }
}
