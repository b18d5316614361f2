/**
 * The narrative form of `client/src/components/TheftNarrativeGenerator.tsx`:
 * the template table and field labels, the substitution of field values into
 * a template, the grammar-score badge, the split of the narrative into plain
 * and highlighted segments, and the component's state with the handlers that
 * change it.
 */
module TheftNarrative {
  import opened Strings
  import opened Sorting
  import opened GrammarUtils
  import opened Substitution
  import Routes

  // ---------------------------------------------------------------------
  // Tables

  /** The narrative template of each theft type, in the order listed. */
  const TheftTemplates: seq<(string, string)> := [
    ("Cancellation - Traditional, all items were scanned",
      "The individual wearing {Type of Clothing} selected {Number of Snacks/Drinks}, scanned {Number of Snacks/Drinks} in the kiosk, canceled the transaction, and left the market area with {Number of Items Left With} unpaid items."),
    ("Cancellation - Traditional, only some items were scanned",
      "The individual wearing {Type of Clothing} selected {Number of Snacks/Drinks}, scanned {Number of Snacks/Drinks} in the kiosk while overlooking {Number of Items Overlooked/Unpaid}, canceled the transaction, and left the market area with {Number of Items Left With} unpaid items."),
    ("Cancellation - Failed Payment",
      "The individual wearing {Type of Clothing} selected {Number of Snacks/Drinks} and scanned {Number of Snacks/Drinks} in the kiosk. The individual attempted to pay {Number of Times Tried to Pay} times using {Payment Method Used} for {Item Name from the Report}, but was unsuccessful. Then, the individual left the market area with {Number of Items Left With} unpaid items."),
    ("Cancellation - Timeout",
      "The individual wearing {Type of Clothing} selected {Number of Snacks/Drinks} and scanned {Number of Snacks/Drinks} in the kiosk. The individual attempted to pay {Number of Times Tried to Pay} times using {Payment Method Used}, but progress was ceased for the transaction. While the pending transaction timed out due to inactivity, the individual left the market area with {Number of Items Left With} unpaid items."),
    ("Cancellation - Proxy Cancel",
      "The individual wearing {Type of Clothing} selected {Number of Snacks/Drinks} and scanned {Number of Snacks/Drinks} in the kiosk. The individual attempted to pay, but progress was ceased for the transaction. Nevertheless, the individual left the market area with {Number of Items Left With} unpaid items while another individual canceled the transaction."),
    ("Cancellation/Underinging",
      "The individual wearing {Type of Clothing} selected {Number of Snacks/Drinks}, scanned {Number of Snacks/Drinks} in the kiosk, and canceled the transaction. Then, the individual re-scanned the same items, but despite completing the transaction, the individual only paid for {Number of Items Paid} out of {Number of Snacks/Drinks} actual items. Nevertheless, the individual left the market area with {Number of Items Paid} paid items and {Number of Items Overlooked/Unpaid} unpaid items."),
    ("Underinging - Traditional",
      "The individual wearing {Type of Clothing} selected {Number of Snacks/Drinks} and scanned {Number of Snacks/Drinks} in the kiosk, but despite completing the transaction, the individual only paid for {Number of Items Paid} out of {Number of Snacks/Drinks} items. Nevertheless, the individual left the market area with {Number of Items Paid} paid items and {Number of Items Overlooked/Unpaid} unpaid items."),
    ("Underinging - Free Item",
      "The individual wearing {Type of Clothing} selected {Number of Snacks/Drinks} and scanned {Number of Snacks/Drinks} in the kiosk, but after completing the transaction, selected {Number of Items Overlooked/Unpaid} additional item(s) without scanning. Hence, the individual left the market area with {Number of Items Paid} paid items and {Number of Items Overlooked/Unpaid} unpaid items."),
    ("Underinging - Switcheroo",
      "The individual wearing {Type of Clothing} selected {Number of Snacks/Drinks} and interacted with the kiosk, but despite completing the transaction, the individual inputted a totally irrelevant item, identified as a {Name of the Irrelevant Item}, costing {Cost of Irrelevant Item Inputted}, and the cost of the {Name of the Irrelevant Item} was lower than the cost of the item the individual selected, identified as a {Item Name from the Report}. Hence, the individual only paid for {Number of Items Paid} out of {Number of Snacks/Drinks} actual items. Nevertheless, the individual left the market area with {Number of Items Paid} paid items and {Number of Items Overlooked/Unpaid} unpaid items."),
    ("Underinging - No Reports Available",
      "The individual wearing {Type of Clothing} selected {Number of Snacks/Drinks} and scanned {Number of Snacks/Drinks} in the kiosk, but the kiosk's screen showed only {Number of Items Paid} registered. Hence, the individual only paid for {Number of Items Paid} out of {Number of Snacks/Drinks} total items. Nevertheless, the individual left the market area with {Number of Items Paid} paid items and {Number of Items Overlooked/Unpaid} unpaid items."),
    ("Walkout - Traditional",
      "The individual wearing {Type of Clothing} selected {Number of Snacks/Drinks} and left the market area without paying for {Number of Snacks/Drinks}."),
    ("Walkout - Pseudo-Cancellation",
      "The individual wearing {Type of Clothing} selected {Number of Snacks/Drinks} and scanned {Number of Snacks/Drinks} in the kiosk. The individual attempted to pay {Number of Times Tried to Pay} times using {Payment Method Used}, but progress ceased. While the pending transaction returned to the home screen, the individual left with {Number of Items Left With} unpaid items."),
    ("Walkout - Fake Scan",
      "The individual wearing {Type of Clothing} selected {Number of Snacks/Drinks} and attempted to scan {Number of Snacks/Drinks}, but nothing happened. The individual then left without paying."),
    ("Walkout - Playing with the Kiosk",
      "The individual wearing {Type of Clothing} selected {Number of Snacks/Drinks} and interacted with the kiosk, but did not scan the items. The individual then left without paying."),
    ("Null Transactions",
      "The individual wearing {Type of Clothing} entered the market and interacted with the kiosk, but as per the reports, did not scan anything. The individual selected {Number of Snacks/Drinks} and left with {Number of Items Left With} unpaid items after the transaction timed out."),
    ("Individual lingers in the market area",
      "The individual wearing {Type of Clothing} entered at {Time Item Consumed Without Paying}, stayed nearby, [insert theft narrative here], returned to the table, stayed until leaving with {Number of Items Overlooked/Unpaid} unpaid items at {Individual Left Time}."),
    ("Individual lingers and consumes unpaid items",
      "The individual wearing {Type of Clothing} entered at {Time Item Consumed Without Paying}, stayed nearby, [insert theft narrative here], consumed unpaid items, and left with {Number of Items Overlooked/Unpaid} unpaid items at {Individual Left Time}."),
    ("Individual goes off-cam and returns",
      "...the individual went off-camera for a while. Then, the individual returned to the market area..."),
    ("Kiosk not visible",
      "...However, as per the market reports, the transaction was cancelled, and payments involving the items of concern taking place during the indicated timeframe and the succeeding one-hour timeframe were non-existent. Nevertheless, the individual left the market area with {Number of Items Overlooked/Unpaid} items."),
    ("Individual re-scans items",
      "[insert theft narrative here]...Then, the individual re-scanned {Number of Items Paid} items..."),
    ("Individual enters market area with others",
      "The individual wearing {Type of Clothing} entered the market area accompanied by another individual. They [insert theft narrative here]")
  ]

  /** The label shown for each form field, which is also its placeholder text. */
  const FieldMappings: seq<(string, string)> := [
    ("typeOfClothing", "Type of Clothing"),
    ("numberOfSnacksDrinks", "Number of Snacks/Drinks"),
    ("numberOfItemsLeft", "Number of Items Left With"),
    ("numberOfItemsPaid", "Number of Items Paid"),
    ("numberOfTimesTriedToPay", "Number of Times Tried to Pay"),
    ("paymentMethod", "Payment Method Used"),
    ("numberOfItemsOverlooked", "Number of Items Overlooked/Unpaid"),
    ("numberOfItemsOverlookedorUnpaidadditionalitems", "Number of Items Overlooked/Unpaid additional items"),
    ("nameOfIdentifiedSelectedItemBeingOverLooked", "Name of Identified Selected Item Being OverLooked"),
    ("costOfOverlookedItem", "Cost of Overlooked Item"),
    ("itemNameFromReport", "Item Name from the Report"),
    ("costOfIrrelevantItem", "Cost of Irrelevant Item Inputted"),
    ("nameOfIrrelevantItem", "Name of the Irrelevant Item"),
    ("timeItemConsumed", "Time Item Consumed Without Paying"),
    ("individualLeftTime", "Individual Left Time")
  ]

  /** Entry `i` of `table` is the first one whose key is `key`. */
  predicate FirstWithKey<V>(table: seq<(string, V)>, key: string, i: int) {
    0 <= i < |table| && table[i].0 == key && forall j :: 0 <= j < i ==> table[j].0 != key
  }

  /**
   * Property lookup in an object literal given as its entries in order:
   * the value of the first entry with the key, or `None` (`undefined`).
   */
  function Lookup<V>(table: seq<(string, V)>, key: string): (r: Option<V>)
    ensures r.None? <==> forall i :: 0 <= i < |table| ==> table[i].0 != key
    ensures forall i :: FirstWithKey(table, key, i) ==> r == Some(table[i].1)
  {
    if table == [] then None
    else if table[0].0 == key then Some(table[0].1)
    else
      var r := Lookup(table[1..], key);
      assert forall i :: FirstWithKey(table, key, i) ==> FirstWithKey(table[1..], key, i - 1);
      r
  }

  /**
   * `formatFieldName`: the label of a known field, and the name itself for
   * any other (every label is non-empty, so `||` only falls back on `undefined`).
   */
  function FormatFieldName(fieldName: string): (r: string)
    ensures forall i :: 0 <= i < |FieldMappings| && FieldMappings[i].0 == fieldName ==> r == FieldMappings[i].1
    ensures (forall i :: 0 <= i < |FieldMappings| ==> FieldMappings[i].0 != fieldName) ==> r == fieldName
  {
    FirstKeyWins(fieldName);
    match Lookup(FieldMappings, fieldName)
    case Some(text) => text
    case None => fieldName
  }

  /** Among the field labels, a key occurs at most once. */
  lemma FirstKeyWins(key: string)
    ensures forall i, j :: 0 <= j < i < |FieldMappings| && FieldMappings[i].0 == key ==> FieldMappings[j].0 != key
  {
    forall i, j | 0 <= j < i < |FieldMappings| && FieldMappings[i].0 == key
      ensures FieldMappings[j].0 != key
    {
      assert |FieldMappings[i].0| != |FieldMappings[j].0| || FieldMappings[i].0[0..6] != FieldMappings[j].0[0..6]
        || FieldMappings[i].0 != FieldMappings[j].0;
    }
  }

  // ---------------------------------------------------------------------
  // Filling a template

  /** The characters a label avoids: braces and the opening square bracket. */
  predicate LabelText(s: string) {
    forall i :: 0 <= i < |s| ==> s[i] != '{' && s[i] != '}' && s[i] != '['
  }

  lemma LabelTextAppend(a: string, b: string)
    requires LabelText(a) && LabelText(b)
    ensures LabelText(a + b)
  {
  }

  lemma FirstLabelsAreText()
    ensures forall i :: 0 <= i < 5 ==> LabelText(FieldMappings[i].1)
  {
    assert LabelText(FieldMappings[0].1);
    assert LabelText(FieldMappings[1].1);
    assert LabelText(FieldMappings[2].1);
    assert LabelText(FieldMappings[3].1);
    assert LabelText(FieldMappings[4].1);
  }

  lemma MiddleLabelsAreText()
    ensures forall i :: 5 <= i < 10 ==> LabelText(FieldMappings[i].1)
  {
    assert LabelText(FieldMappings[5].1);
    assert LabelText(FieldMappings[6].1);
    OverlookedAdditionalLabel();
    IdentifiedItemLabel();
    assert LabelText(FieldMappings[9].1);
  }

  lemma OverlookedAdditionalLabel()
    ensures LabelText(FieldMappings[7].1)
  {
    LabelTextAppend("Number of Items Overlooked/Unpaid", " additional items");
    assert "Number of Items Overlooked/Unpaid" + " additional items" == FieldMappings[7].1;
  }

  lemma IdentifiedItemLabel()
    ensures LabelText(FieldMappings[8].1)
  {
    LabelTextAppend("Name of Identified Selected", " Item Being OverLooked");
    assert "Name of Identified Selected" + " Item Being OverLooked" == FieldMappings[8].1;
  }

  lemma LastLabelsAreText()
    ensures forall i :: 10 <= i < 15 ==> LabelText(FieldMappings[i].1)
  {
    assert LabelText(FieldMappings[10].1);
    assert LabelText(FieldMappings[11].1);
    assert LabelText(FieldMappings[12].1);
    assert LabelText(FieldMappings[13].1);
    assert LabelText(FieldMappings[14].1);
  }

  /** No label contains a brace or an opening square bracket. */
  lemma LabelsAreText()
    ensures forall i :: 0 <= i < |FieldMappings| ==> LabelText(FieldMappings[i].1)
  {
    FirstLabelsAreText();
    MiddleLabelsAreText();
    LastLabelsAreText();
  }

  /**
   * `fieldMappings[key]` in a template literal: the label of a field with
   * one, and "undefined" for any other.
   */
  function FieldLabel(key: string): (name: string)
    ensures LabelText(name)
    ensures forall i :: FirstWithKey(FieldMappings, key, i) ==> name == FieldMappings[i].1
    ensures (forall i :: 0 <= i < |FieldMappings| ==> FieldMappings[i].0 != key) ==> name == "undefined"
  {
    LabelsAreText();
    match Lookup(FieldMappings, key)
    case Some(text) =>
      ghost var i :| FirstWithKey(FieldMappings, key, i);
      text
    case None => "undefined"
  }

  /** `theftType` has no label, so its placeholder is "{undefined}". */
  lemma TheftTypePlaceholder()
    ensures PlaceholderFor("theftType") == "{undefined}"
  {
    TheftTypeLabel();
    PlaceholderOfLabel("theftType", "undefined");
    BracedLiteral();
  }

  lemma BracedLiteral()
    ensures "{" + "undefined" + "}" == "{undefined}"
  {
  }

  lemma PlaceholderOfLabel(key: string, name: string)
    requires FieldLabel(key) == name
    ensures PlaceholderFor(key) == "{" + name + "}"
  {
  }

  lemma TheftTypeLabel()
    ensures FieldLabel("theftType") == "undefined"
  {
    NoTheftTypeLabel();
  }

  lemma NoTheftTypeLabel()
    ensures forall i :: 0 <= i < |FieldMappings| ==> FieldMappings[i].0 != "theftType"
  {
    forall i | 0 <= i < |FieldMappings| ensures FieldMappings[i].0 != "theftType" {
      assert |FieldMappings[i].0| != 9;
    }
  }

  /** The placeholder `{${fieldMappings[key]}}` of a field: its label in braces. */
  function PlaceholderFor(key: string): (p: string)
    ensures IsPlaceholder(p)
    ensures forall i :: 0 <= i < |p| ==> p[i] != '['
  {
    var p := "{" + FieldLabel(key) + "}";
    assert p[1..|p| - 1] == FieldLabel(key);
    p
  }

  /** `value || "[Not Provided]"`. */
  function ValueOrDefault(value: string): (r: string)
    ensures r != []
    ensures value != [] ==> r == value
    ensures NoOpen(value) ==> NoOpen(r)
  {
    if value == "" then "[Not Provided]" else value
  }

  /**
   * The template after the fields, in order, each replaced every
   * placeholder of theirs by their value.
   */
  function Substitute(template: string, fields: seq<(string, string)>): string
    decreases |fields|
  {
    if fields == [] then template
    else
      var last := fields[|fields| - 1];
      ReplaceAll(Substitute(template, fields[..|fields| - 1]), PlaceholderFor(last.0), ValueOrDefault(last.1))
  }

  /** The `forEach` over the form entries of `generateNarrative`. */
  method FillTemplate(template: string, fields: seq<(string, string)>) returns (narrative: string)
    ensures narrative == Substitute(template, fields)
  {
    narrative := template;
    for i := 0 to |fields|
      invariant narrative == Substitute(template, fields[..i])
    {
      assert fields[..i + 1][..i] == fields[..i];
      narrative := ReplaceAll(narrative, PlaceholderFor(fields[i].0), ValueOrDefault(fields[i].1));
    }
    assert fields[..|fields|] == fields;
  }

  /**
   * In a template without nested braces, filled with values that contain
   * no `{`, no placeholder of any of the fields survives.
   */
  lemma {:induction false} NoPlaceholderSurvives(template: string, fields: seq<(string, string)>)
    requires Flat(template)
    requires forall i :: 0 <= i < |fields| ==> NoOpen(fields[i].1)
    ensures Flat(Substitute(template, fields))
    ensures forall i :: 0 <= i < |fields| ==> !Contains(Substitute(template, fields), PlaceholderFor(fields[i].0))
    decreases |fields|
  {
    if fields != [] {
      var init, last := fields[..|fields| - 1], fields[|fields| - 1];
      NoPlaceholderSurvives(template, init);
      var before := Substitute(template, init);
      var p, rep := PlaceholderFor(last.0), ValueOrDefault(last.1);
      FlatPreserved(before, p, rep);
      forall i | 0 <= i < |fields| ensures !Contains(Substitute(template, fields), PlaceholderFor(fields[i].0)) {
        if i < |fields| - 1 {
          assert fields[i] == init[i];
        }
        NoNewPlaceholder(before, p, rep, PlaceholderFor(fields[i].0));
      }
    }
  }

  /**
   * Text without braces that no placeholder contains, such as
   * "[insert theft narrative here]", passes through substitution unchanged.
   */
  lemma {:induction false} UnbracedTextKept(template: string, fields: seq<(string, string)>, w: string)
    requires BraceFree(w) && Contains(template, w)
    requires forall i :: 0 <= i < |fields| ==> !Contains(PlaceholderFor(fields[i].0), w)
    ensures Contains(Substitute(template, fields), w)
    decreases |fields|
  {
    if fields != [] {
      var init, last := fields[..|fields| - 1], fields[|fields| - 1];
      UnbracedTextKept(template, init, w);
      var before := Substitute(template, init);
      var k: nat :| OccursAt(before, w, k);
      KeepsText(before, PlaceholderFor(last.0), ValueOrDefault(last.1), w, k);
    }
  }

  /** The marker of the templates where the writer continues by hand. */
  const InsertMarker: string := "[insert theft narrative here]"

  lemma InsertMarkerBraceFree()
    ensures BraceFree(InsertMarker)
  {
    assert BraceFree("[insert theft");
    assert BraceFree(" narrative here]");
    assert "[insert theft" + " narrative here]" == InsertMarker;
  }

  /** No placeholder holds the marker, which starts with `[`. */
  lemma MarkerNotInPlaceholder(key: string)
    ensures !Contains(PlaceholderFor(key), InsertMarker)
  {
    var p := PlaceholderFor(key);
    forall k: nat | OccursAt(p, InsertMarker, k) ensures p[k] == '[' {
      assert p[k] == p[k..k + |InsertMarker|][0];
    }
  }

  /** The marker survives substitution whatever the form holds. */
  lemma InsertMarkerKept(template: string, fields: seq<(string, string)>)
    requires Contains(template, InsertMarker)
    ensures Contains(Substitute(template, fields), InsertMarker)
  {
    InsertMarkerBraceFree();
    forall i | 0 <= i < |fields| ensures !Contains(PlaceholderFor(fields[i].0), InsertMarker) {
      MarkerNotInPlaceholder(fields[i].0);
    }
    UnbracedTextKept(template, fields, InsertMarker);
  }

  /**
   * Without the no-nesting condition a placeholder can survive: in
   * "{{Type of Clothing}}" the value "Type of Clothing" replaces the inner
   * placeholder and rebuilds it.
   */
  lemma NestedPlaceholderSurvives()
    ensures !Flat("{{Type of Clothing}}")
    ensures Substitute("{{Type of Clothing}}", [("typeOfClothing", "Type of Clothing")]) == "{Type of Clothing}"
  {
    var fields := [("typeOfClothing", "Type of Clothing")];
    var p := PlaceholderFor("typeOfClothing");
    ClothingPlaceholder();
    NestedNotFlat(p);
    NestedReplaced(p, "Type of Clothing");
    SubstituteOne("{{Type of Clothing}}", fields[0]);
    assert ValueOrDefault("Type of Clothing") == "Type of Clothing";
    assert "{{Type of Clothing}}" == "{" + p + "}";
  }

  lemma SubstituteOne(template: string, field: (string, string))
    ensures Substitute(template, [field]) == ReplaceAll(template, PlaceholderFor(field.0), ValueOrDefault(field.1))
  {
    assert [field][..0] == [];
  }

  lemma ClothingLabel()
    ensures FieldLabel("typeOfClothing") == "Type of Clothing"
  {
    assert FirstWithKey(FieldMappings, "typeOfClothing", 0);
  }

  lemma ClothingPlaceholder()
    ensures PlaceholderFor("typeOfClothing") == "{Type of Clothing}"
  {
    ClothingLabel();
    PlaceholderOfLabel("typeOfClothing", "Type of Clothing");
    BracedClothing();
  }

  lemma BracedClothing()
    ensures "{" + "Type of Clothing" + "}" == "{Type of Clothing}"
  {
  }

  /** A placeholder inside braces breaks the no-nesting condition. */
  lemma NestedNotFlat(p: string)
    requires IsPlaceholder(p)
    ensures !Flat("{" + p + "}")
  {
    var s := "{" + p + "}";
    assert s[1..][0] == '{';
    assert NextBrace(s[1..]) == 0;
  }

  /** Replacing the inner placeholder by its own label rebuilds a placeholder. */
  lemma NestedReplaced(p: string, rep: string)
    requires IsPlaceholder(p)
    ensures ReplaceAll("{" + p + "}", p, rep) == "{" + rep + "}"
  {
    var s := "{" + p + "}";
    assert s[..|p|] != p by {
      assert s[..|p|][1] == p[0] == '{';
      if |p| > 2 {
        assert p[1] == p[1..|p| - 1][0];
      }
    }
    assert s[1..] == p + "}";
    assert (p + "}")[..|p|] == p && (p + "}")[|p|..] == "}";
    assert ReplaceAll("}", p, rep) == "}";
  }

  // ---------------------------------------------------------------------
  // Grammar-score badge

  datatype BadgeVariant = Excellent | Good | NeedsWork

  /** The text shown on each badge (the emoji before it is not modelled). */
  function BadgeText(v: BadgeVariant): string {
    match v
    case Excellent => "Excellent"
    case Good => "Good"
    case NeedsWork => "Needs Work"
  }

  /** Rank of a badge, higher is better. */
  function BadgeRank(v: BadgeVariant): nat {
    match v
    case Excellent => 2
    case Good => 1
    case NeedsWork => 0
  }

  /**
   * `getGrammarScoreBadge`: no badge while there is no score or the score
   * is 0 (`!grammarScore`); otherwise Excellent from 90, Good from 70,
   * Needs Work below.
   */
  function GrammarScoreBadge(grammarScore: Option<int>): (r: Option<BadgeVariant>)
    ensures r.None? <==> grammarScore.None? || grammarScore.value == 0
    ensures r == Some(Excellent) <==> grammarScore.Some? && grammarScore.value >= 90
    ensures r == Some(Good) <==> grammarScore.Some? && 70 <= grammarScore.value < 90
    ensures r == Some(NeedsWork) <==> grammarScore.Some? && grammarScore.value < 70 && grammarScore.value != 0
  {
    match grammarScore
    case None => None
    case Some(score) =>
      if score == 0 then None
      else if score >= 90 then Some(Excellent)
      else if score >= 70 then Some(Good)
      else Some(NeedsWork)
  }

  /** A higher non-zero score never shows a worse badge. */
  lemma BadgeMonotone(a: int, b: int)
    requires a != 0 && b != 0 && a <= b
    ensures BadgeRank(GrammarScoreBadge(Some(a)).value) <= BadgeRank(GrammarScoreBadge(Some(b)).value)
  {
  }

  /**
   * A score the server normalised from the model's reply always shows a
   * badge, since `score || 100` is never 0; only the fallback checker can
   * hide it, by scoring 0.
   */
  lemma NormalisedScoreShowsBadge(issues: Option<seq<GrammarIssue>>, score: Option<int>)
    ensures GrammarScoreBadge(Some(Routes.Normalise(issues, score).score)).Some?
  {
  }

  // ---------------------------------------------------------------------
  // Highlighting the issues in the narrative

  /** A `<span>` of the rendered narrative: plain text, or an issue's `original` marked. */
  datatype Segment = Plain(text: string) | Highlight(issue: GrammarIssue)

  /** What `renderHighlightedText` returns: the bare narrative, or its segments. */
  datatype Highlighting = Unmarked(narrative: string) | Marked(segments: seq<Segment>)

  function SegmentText(seg: Segment): string {
    match seg
    case Plain(text) => text
    case Highlight(issue) => issue.original
  }

  /** The text a reader sees, segment after segment. */
  function Concat(segs: seq<Segment>): string
    decreases |segs|
  {
    if segs == [] then [] else Concat(segs[..|segs| - 1]) + SegmentText(segs[|segs| - 1])
  }

  function ShownText(h: Highlighting): string {
    match h
    case Unmarked(narrative) => narrative
    case Marked(segs) => Concat(segs)
  }

  /** The issues of the highlighted segments, in order. */
  function Highlighted(segs: seq<Segment>): seq<GrammarIssue>
    decreases |segs|
  {
    if segs == [] then []
    else
      var last := segs[|segs| - 1];
      Highlighted(segs[..|segs| - 1]) + (if last.Highlight? then [last.issue] else [])
  }

  predicate PlainsNonEmpty(segs: seq<Segment>) {
    forall i :: 0 <= i < |segs| && segs[i].Plain? ==> segs[i].text != []
  }

  predicate NoAdjacentPlains(segs: seq<Segment>) {
    forall i :: 0 < i < |segs| && segs[i].Plain? ==> segs[i - 1].Highlight?
  }

  /** `a` is `b` with some elements left out. */
  predicate IsSubsequence<T(==)>(a: seq<T>, b: seq<T>)
    decreases |b|
  {
    if b == [] then a == []
    else
      IsSubsequence(a, b[..|b| - 1])
      || (a != [] && a[|a| - 1] == b[|b| - 1] && IsSubsequence(a[..|a| - 1], b[..|b| - 1]))
  }

  lemma {:induction false} SubsequenceElements<T>(a: seq<T>, b: seq<T>)
    requires IsSubsequence(a, b)
    ensures forall x :: x in a ==> x in b
    decreases |b|
  {
    if b != [] {
      if IsSubsequence(a, b[..|b| - 1]) {
        SubsequenceElements(a, b[..|b| - 1]);
      } else {
        SubsequenceElements(a[..|a| - 1], b[..|b| - 1]);
        assert a == a[..|a| - 1] + [a[|a| - 1]];
      }
    }
  }

  /** The key the issues are sorted by: where `original` first occurs, or -1. */
  function OccurrenceKey(narrative: string): GrammarIssue -> int {
    (issue: GrammarIssue) => IndexOf(narrative, issue.original, 0)
  }

  /** The loop state: `lastIndex` and the segments pushed so far. */
  datatype Cursor = Cursor(lastIndex: nat, segs: seq<Segment>)

  /** One turn of the `for` loop: find the issue at or after `lastIndex`, or skip it. */
  function Step(narrative: string, issue: GrammarIssue, c: Cursor): (d: Cursor)
    requires c.lastIndex <= |narrative|
    ensures c.lastIndex <= d.lastIndex <= |narrative|
  {
    var idx := IndexOf(narrative, issue.original, c.lastIndex);
    if idx == -1 then c
    else
      var before := if idx > c.lastIndex then [Plain(narrative[c.lastIndex..idx])] else [];
      Cursor(idx + |issue.original|, c.segs + before + [Highlight(issue)])
  }

  /**
   * A turn skips the issue exactly when its `original` does not occur from
   * `lastIndex` on; otherwise it highlights the issue at its first such
   * occurrence and moves `lastIndex` past it.
   */
  lemma StepFinds(narrative: string, issue: GrammarIssue, c: Cursor)
    requires c.lastIndex <= |narrative|
    ensures var d := Step(narrative, issue, c);
      && (d == c <==> forall k: nat :: c.lastIndex <= k ==> !OccursAt(narrative, issue.original, k))
      && (d != c ==>
        var at := d.lastIndex - |issue.original|;
        && c.lastIndex <= at
        && OccursAt(narrative, issue.original, at)
        && (forall k: nat :: c.lastIndex <= k < at ==> !OccursAt(narrative, issue.original, k))
        && |d.segs| > 0 && d.segs[|d.segs| - 1] == Highlight(issue))
  {
    var idx := IndexOf(narrative, issue.original, c.lastIndex);
    if idx != -1 {
      var d := Step(narrative, issue, c);
      assert |d.segs| > |c.segs|;
    }
  }

  /** The loop state after the first `|sorted|` turns. */
  function Walk(narrative: string, sorted: seq<GrammarIssue>): (c: Cursor)
    ensures c.lastIndex <= |narrative|
    decreases |sorted|
  {
    if sorted == [] then Cursor(0, [])
    else Step(narrative, sorted[|sorted| - 1], Walk(narrative, sorted[..|sorted| - 1]))
  }

  /** The walk over one more issue takes one more turn. */
  lemma WalkSnoc(narrative: string, sorted: seq<GrammarIssue>, i: nat)
    requires i < |sorted|
    ensures Walk(narrative, sorted[..i + 1]) == Step(narrative, sorted[i], Walk(narrative, sorted[..i]))
  {
    var pre, next := sorted[..i], sorted[..i + 1];
    assert next[..i] == pre;
  }

  /** The segments with the rest of the narrative after the last issue found. */
  function Finish(narrative: string, c: Cursor): seq<Segment>
    requires c.lastIndex <= |narrative|
  {
    c.segs + (if c.lastIndex < |narrative| then [Plain(narrative[c.lastIndex..])] else [])
  }

  /**
   * `renderHighlightedText` as a value: the bare narrative when it or the
   * issue list is empty, and otherwise the segments found by walking the
   * issues sorted by where they first occur.
   */
  function HighlightView(narrative: string, grammarIssues: seq<GrammarIssue>): Highlighting {
    if narrative == [] || grammarIssues == [] then Unmarked(narrative)
    else Marked(Finish(narrative, Walk(narrative, SortBy(grammarIssues, OccurrenceKey(narrative)))))
  }

  /** `renderHighlightedText`, with its loop over the sorted issues. */
  method RenderHighlightedText(narrative: string, grammarIssues: seq<GrammarIssue>) returns (view: Highlighting)
    ensures view == HighlightView(narrative, grammarIssues)
  {
    if narrative == [] || grammarIssues == [] {
      return Unmarked(narrative);
    }
    var lastIndex: nat := 0;
    var segments: seq<Segment> := [];
    var sortedIssues := SortBy(grammarIssues, OccurrenceKey(narrative));
    for i := 0 to |sortedIssues|
      invariant lastIndex <= |narrative|
      invariant Cursor(lastIndex, segments) == Walk(narrative, sortedIssues[..i])
    {
      WalkSnoc(narrative, sortedIssues, i);
      lastIndex, segments := HighlightTurn(narrative, sortedIssues[i], lastIndex, segments);
    }
    assert sortedIssues[..|sortedIssues|] == sortedIssues;
    if lastIndex < |narrative| {
      segments := segments + [Plain(narrative[lastIndex..])];
    }
    view := Marked(segments);
  }

  /** The body of the loop for one issue: skip it, or push the text before it and the issue. */
  method HighlightTurn(narrative: string, issue: GrammarIssue, lastIndex: nat, segments: seq<Segment>)
    returns (lastIndex': nat, segments': seq<Segment>)
    requires lastIndex <= |narrative|
    ensures Cursor(lastIndex', segments') == Step(narrative, issue, Cursor(lastIndex, segments))
  {
    lastIndex', segments' := lastIndex, segments;
    var issueIndex := IndexOf(narrative, issue.original, lastIndex);
    if issueIndex == -1 {
      return;
    }
    if issueIndex > lastIndex {
      segments' := segments' + [Plain(narrative[lastIndex..issueIndex])];
    }
    segments' := segments' + [Highlight(issue)];
    lastIndex' := issueIndex + |issue.original|;
  }

  lemma ConcatSnoc(segs: seq<Segment>, seg: Segment)
    ensures Concat(segs + [seg]) == Concat(segs) + SegmentText(seg)
  {
    assert (segs + [seg])[..|segs|] == segs;
  }

  lemma HighlightedSnoc(segs: seq<Segment>, seg: Segment)
    ensures Highlighted(segs + [seg]) == Highlighted(segs) + (if seg.Highlight? then [seg.issue] else [])
  {
    assert (segs + [seg])[..|segs|] == segs;
  }

  lemma SpellsPlain(narrative: string, segs: seq<Segment>, from: nat, to: nat)
    requires from <= to <= |narrative| && Concat(segs) == narrative[..from]
    ensures Concat(segs + [Plain(narrative[from..to])]) == narrative[..to]
  {
    ConcatSnoc(segs, Plain(narrative[from..to]));
    assert narrative[..to] == narrative[..from] + narrative[from..to];
  }

  lemma SpellsHighlight(narrative: string, segs: seq<Segment>, idx: nat, issue: GrammarIssue)
    requires OccursAt(narrative, issue.original, idx) && Concat(segs) == narrative[..idx]
    ensures Concat(segs + [Highlight(issue)]) == narrative[..idx + |issue.original|]
  {
    ConcatSnoc(segs, Highlight(issue));
    assert narrative[..idx + |issue.original|] == narrative[..idx] + narrative[idx..idx + |issue.original|];
  }

  /** One turn keeps the segments spelling the narrative up to `lastIndex`. */
  lemma StepSpells(narrative: string, issue: GrammarIssue, c: Cursor)
    requires c.lastIndex <= |narrative| && Concat(c.segs) == narrative[..c.lastIndex]
    ensures var d := Step(narrative, issue, c); Concat(d.segs) == narrative[..d.lastIndex]
  {
    var idx := IndexOf(narrative, issue.original, c.lastIndex);
    if idx != -1 {
      var plain := Plain(narrative[c.lastIndex..idx]);
      var pushed := if idx > c.lastIndex then c.segs + [plain] else c.segs;
      if idx > c.lastIndex {
        SpellsPlain(narrative, c.segs, c.lastIndex, idx);
      }
      SpellsHighlight(narrative, pushed, idx, issue);
      assert c.segs + (if idx > c.lastIndex then [plain] else []) + [Highlight(issue)] == pushed + [Highlight(issue)];
    }
  }

  /** The segments pushed so far spell the narrative up to `lastIndex`. */
  lemma {:induction false} WalkSpells(narrative: string, sorted: seq<GrammarIssue>)
    ensures var c := Walk(narrative, sorted); Concat(c.segs) == narrative[..c.lastIndex]
    decreases |sorted|
  {
    if sorted != [] {
      WalkSpells(narrative, sorted[..|sorted| - 1]);
      StepSpells(narrative, sorted[|sorted| - 1], Walk(narrative, sorted[..|sorted| - 1]));
    }
  }

  /** The highlighted issues are the sorted issues with some left out, in order. */
  lemma {:induction false} WalkPicks(narrative: string, sorted: seq<GrammarIssue>)
    ensures IsSubsequence(Highlighted(Walk(narrative, sorted).segs), sorted)
    decreases |sorted|
  {
    if sorted != [] {
      var init := sorted[..|sorted| - 1];
      var c := Walk(narrative, init);
      var issue := sorted[|sorted| - 1];
      WalkPicks(narrative, init);
      var idx := IndexOf(narrative, issue.original, c.lastIndex);
      if idx == -1 {
        assert IsSubsequence(Highlighted(c.segs), sorted);
      } else {
        var plain := Plain(narrative[c.lastIndex..idx]);
        var pushed := if idx > c.lastIndex then c.segs + [plain] else c.segs;
        if idx > c.lastIndex {
          HighlightedSnoc(c.segs, plain);
        }
        assert c.segs + (if idx > c.lastIndex then [plain] else []) + [Highlight(issue)] == pushed + [Highlight(issue)];
        HighlightedSnoc(pushed, Highlight(issue));
        var h := Highlighted(pushed) + [issue];
        assert h[..|h| - 1] == Highlighted(c.segs);
      }
    }
  }

  /** Every plain segment pushed is non-empty, and each is followed by a highlight. */
  lemma {:induction false} WalkShape(narrative: string, sorted: seq<GrammarIssue>)
    ensures var c := Walk(narrative, sorted);
      && PlainsNonEmpty(c.segs) && NoAdjacentPlains(c.segs)
      && (c.segs != [] ==> c.segs[|c.segs| - 1].Highlight?)
    decreases |sorted|
  {
    if sorted != [] {
      WalkShape(narrative, sorted[..|sorted| - 1]);
    }
  }

  /** With the rest of the narrative added, the segments spell all of it. */
  lemma FinishSpells(narrative: string, sorted: seq<GrammarIssue>)
    ensures Concat(Finish(narrative, Walk(narrative, sorted))) == narrative
  {
    WalkSpells(narrative, sorted);
    FinishCursorSpells(narrative, Walk(narrative, sorted));
  }

  lemma FinishCursorSpells(narrative: string, c: Cursor)
    requires c.lastIndex <= |narrative| && Concat(c.segs) == narrative[..c.lastIndex]
    ensures Concat(Finish(narrative, c)) == narrative
  {
    if c.lastIndex < |narrative| {
      ConcatSnoc(c.segs, Plain(narrative[c.lastIndex..]));
      assert narrative == narrative[..c.lastIndex] + narrative[c.lastIndex..];
    } else {
      assert c.segs + [] == c.segs;
    }
  }

  /** The rest of the narrative adds no highlight. */
  lemma FinishPicks(narrative: string, sorted: seq<GrammarIssue>)
    ensures IsSubsequence(Highlighted(Finish(narrative, Walk(narrative, sorted))), sorted)
  {
    var c := Walk(narrative, sorted);
    WalkPicks(narrative, sorted);
    if c.lastIndex < |narrative| {
      HighlightedSnoc(c.segs, Plain(narrative[c.lastIndex..]));
      assert Highlighted(c.segs) + [] == Highlighted(c.segs);
    } else {
      assert c.segs + [] == c.segs;
    }
  }

  /** The rest of the narrative is a non-empty plain span after a highlight, if any. */
  lemma FinishShape(narrative: string, sorted: seq<GrammarIssue>)
    ensures var segs := Finish(narrative, Walk(narrative, sorted));
      PlainsNonEmpty(segs) && NoAdjacentPlains(segs)
  {
    WalkShape(narrative, sorted);
  }

  lemma SortedElements(issues: seq<GrammarIssue>, key: GrammarIssue -> int)
    ensures forall issue :: issue in SortBy(issues, key) ==> issue in issues
  {
    forall issue | issue in SortBy(issues, key) ensures issue in issues {
      assert issue in multiset(SortBy(issues, key));
    }
  }

  /** What a reader sees is exactly the narrative. */
  lemma HighlightSpellsNarrative(narrative: string, grammarIssues: seq<GrammarIssue>)
    ensures ShownText(HighlightView(narrative, grammarIssues)) == narrative
  {
    if narrative != [] && grammarIssues != [] {
      FinishSpells(narrative, SortBy(grammarIssues, OccurrenceKey(narrative)));
    }
  }

  /**
   * The highlighted issues come from the list, in the order of their first
   * occurrence in the narrative, each at most as often as it is listed.
   */
  lemma HighlightsFollowIssues(narrative: string, grammarIssues: seq<GrammarIssue>)
    requires narrative != [] && grammarIssues != []
    ensures var segs := HighlightView(narrative, grammarIssues).segments;
      && IsSubsequence(Highlighted(segs), SortBy(grammarIssues, OccurrenceKey(narrative)))
      && forall issue :: issue in Highlighted(segs) ==> issue in grammarIssues
  {
    var sorted := SortBy(grammarIssues, OccurrenceKey(narrative));
    var segs := Finish(narrative, Walk(narrative, sorted));
    FinishPicks(narrative, sorted);
    SubsequenceElements(Highlighted(segs), sorted);
    SortedElements(grammarIssues, OccurrenceKey(narrative));
  }

  /** The segments never hold an empty or a doubled plain span. */
  lemma HighlightShape(narrative: string, grammarIssues: seq<GrammarIssue>)
    requires narrative != [] && grammarIssues != []
    ensures var segs := HighlightView(narrative, grammarIssues).segments;
      PlainsNonEmpty(segs) && NoAdjacentPlains(segs)
  {
    FinishShape(narrative, SortBy(grammarIssues, OccurrenceKey(narrative)));
  }

  // ---------------------------------------------------------------------
  // The form and the component's state

  /** The form fields in the order the component declares them, all empty. */
  const InitialForm: seq<(string, string)> := [
    ("theftType", ""),
    ("typeOfClothing", ""),
    ("numberOfSnacksDrinks", ""),
    ("numberOfItemsLeft", ""),
    ("numberOfItemsPaid", ""),
    ("numberOfTimesTriedToPay", ""),
    ("paymentMethod", ""),
    ("numberOfItemsOverlooked", ""),
    ("numberOfItemsOverlookedorUnpaidadditionalitems", ""),
    ("nameOfIdentifiedSelectedItemBeingOverLooked", ""),
    ("costOfOverlookedItem", ""),
    ("itemNameFromReport", ""),
    ("costOfIrrelevantItem", ""),
    ("nameOfIrrelevantItem", ""),
    ("timeItemConsumed", ""),
    ("individualLeftTime", "")
  ]

  /**
   * `{ ...prev, [field]: value }`: a field already present keeps its place
   * and takes the new value; a new field is added at the end.
   */
  function SetField(fields: seq<(string, string)>, field: string, value: string): (r: seq<(string, string)>)
    decreases |fields|
  {
    if fields == [] then [(field, value)]
    else if fields[0].0 == field then [(field, value)] + fields[1..]
    else [fields[0]] + SetField(fields[1..], field, value)
  }

  /** After the change the field reads the new value and every other field reads as before. */
  lemma {:induction false} SetFieldLookup(fields: seq<(string, string)>, field: string, value: string, other: string)
    ensures Lookup(SetField(fields, field, value), field) == Some(value)
    ensures other != field ==> Lookup(SetField(fields, field, value), other) == Lookup(fields, other)
    decreases |fields|
  {
    if fields != [] && fields[0].0 != field {
      SetFieldLookup(fields[1..], field, value, other);
      var r := SetField(fields, field, value);
      assert r[1..] == SetField(fields[1..], field, value);
    }
  }

  /** The change keeps the fields in their order, adding a new one only at the end. */
  lemma {:induction false} SetFieldOrder(fields: seq<(string, string)>, field: string, value: string)
    ensures var r := SetField(fields, field, value);
      && |r| == |fields| + (if Lookup(fields, field).None? then 1 else 0)
      && (forall i :: 0 <= i < |fields| ==> r[i].0 == fields[i].0)
      && (Lookup(fields, field).None? ==> r[|r| - 1] == (field, value))
    decreases |fields|
  {
    if fields != [] && fields[0].0 != field {
      SetFieldOrder(fields[1..], field, value);
      var r := SetField(fields, field, value);
      assert r[1..] == SetField(fields[1..], field, value);
      assert Lookup(fields, field) == Lookup(fields[1..], field);
    }
  }

  /** `formData.theftType`, with a missing field read as empty. */
  function TheftTypeOf(formData: seq<(string, string)>): string {
    match Lookup(formData, "theftType")
    case Some(t) => t
    case None => ""
  }

  /** `theftTemplates[theftType]`. */
  function TemplateFor(theftType: string): Option<string> {
    Lookup(TheftTemplates, theftType)
  }

  /** How `generateNarrative` ends. */
  datatype Outcome =
    | TheftTypeRequired   // the "Theft type required" toast, nothing else changes
    | UnknownTheftType    // no template for the theft type, nothing changes
    | Generated           // the narrative is replaced

  /** Every theft type and every template is non-empty, so `!template` only catches a missing one. */
  lemma TemplatesNonEmpty()
    ensures forall i :: 0 <= i < |TheftTemplates| ==> TheftTemplates[i].0 != [] && TheftTemplates[i].1 != []
  {
  }

  /** Choosing a listed theft type on any form lets the narrative be generated. */
  lemma ChosenTypeHasTemplate(formData: seq<(string, string)>, theftType: string)
    requires TemplateFor(theftType).Some?
    ensures TheftTypeOf(SetField(formData, "theftType", theftType)) == theftType
    ensures theftType != []
  {
    SetFieldLookup(formData, "theftType", theftType, "theftType");
    TemplatesNonEmpty();
  }

  /**
   * The narrative form's state: the form fields, the narrative and whether
   * the grammar issues are shown. The issues and the score belong to the
   * grammar-check hook and come in as arguments.
   */
  class NarrativeGenerator {
    var formData: seq<(string, string)>
    var narrative: string
    var showGrammarIssues: bool

    constructor()
      ensures formData == InitialForm && narrative == "" && !showGrammarIssues
    {
      formData := InitialForm;
      narrative := "";
      showGrammarIssues := false;
    }

    /** `handleChange`. */
    method HandleChange(field: string, value: string)
      modifies this
      ensures formData == SetField(old(formData), field, value)
      ensures narrative == old(narrative) && showGrammarIssues == old(showGrammarIssues)
    {
      formData := SetField(formData, field, value);
    }

    /**
     * `generateNarrative`. `heldIssues` is the issue list the handler read
     * when it started: the check it starts does not change that value, so
     * the issues are shown when the previous check had found some.
     */
    method GenerateNarrative(heldIssues: seq<GrammarIssue>) returns (outcome: Outcome)
      modifies this
      ensures formData == old(formData)
      ensures outcome == TheftTypeRequired <==> TheftTypeOf(old(formData)) == ""
      ensures outcome == UnknownTheftType <==>
        TheftTypeOf(old(formData)) != "" && TemplateFor(TheftTypeOf(old(formData))).None?
      ensures outcome != Generated ==>
        narrative == old(narrative) && showGrammarIssues == old(showGrammarIssues)
      ensures outcome == Generated ==>
        && narrative == Substitute(TemplateFor(TheftTypeOf(old(formData))).value, old(formData))
        && showGrammarIssues == (heldIssues != [])
    {
      var theftType := TheftTypeOf(formData);
      if theftType == "" {
        return TheftTypeRequired;
      }
      var template := TemplateFor(theftType);
      if template.None? {
        return UnknownTheftType;
      }
      var filled := FillTemplate(template.value, formData);
      narrative := filled;
      showGrammarIssues := false;
      if |heldIssues| > 0 {
        showGrammarIssues := true;
      }
      outcome := Generated;
    }

    /**
     * `handleApplySuggestion`: with issues listed, the chosen one is applied
     * to the narrative; with none, nothing happens. An index outside the list
     * reads `undefined`, which `applyGrammarSuggestion` hands back as the text
     * unchanged.
     */
    method ApplySuggestion(grammarIssues: seq<GrammarIssue>, issueIndex: int)
      modifies this
      ensures 0 <= issueIndex < |grammarIssues| ==>
        narrative == ApplyGrammarSuggestion(old(narrative), grammarIssues[issueIndex])
      ensures !(0 <= issueIndex < |grammarIssues|) ==> narrative == old(narrative)
      ensures formData == old(formData) && showGrammarIssues == old(showGrammarIssues)
    {
      if |grammarIssues| > 0 {
        if 0 <= issueIndex < |grammarIssues| {
          narrative := ApplyGrammarSuggestion(narrative, grammarIssues[issueIndex]);
        }
        // else the issue is `undefined` and the text comes back as it was
      }
    }

    /** `handleApplyAllSuggestions`: all issues applied, then the issue list hidden. */
    method ApplyAllSuggestions(grammarIssues: seq<GrammarIssue>)
      modifies this
      ensures grammarIssues == [] ==> narrative == old(narrative) && showGrammarIssues == old(showGrammarIssues)
      ensures grammarIssues != [] ==> narrative == ApplyAll(old(narrative), grammarIssues) && !showGrammarIssues
      ensures formData == old(formData)
    {
      if |grammarIssues| > 0 {
        var newNarrative := ApplyAllGrammarSuggestions(narrative, grammarIssues);
        narrative := newNarrative;
        showGrammarIssues := false;
      }
    }
  }
}
