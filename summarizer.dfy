/**
 * `generate_detailed_summary`: the text written for a set of selected detail
 * names. Each block is one or more lines; the blocks come in a fixed order and
 * are joined with newlines.
 */
module Summarizer {
  import opened Wrappers
  import opened Text
  import opened Extractor

  /** The details a caller may select, in the order their blocks are written. */
  datatype Field = NameField | AffiliationField | SummaryField | InterestsField | MetricsField | PublicationsField

  /** The detail name a caller selects a field with. */
  function FieldName(f: Field): string {
    match f
    case NameField => "name"
    case AffiliationField => "affiliation"
    case SummaryField => "summary"
    case InterestsField => "interests"
    case MetricsField => "metrics"
    case PublicationsField => "publications"
  }

  /** The place of a field's block in the output. */
  function Position(f: Field): nat {
    match f
    case NameField => 0
    case AffiliationField => 1
    case SummaryField => 2
    case InterestsField => 3
    case MetricsField => 4
    case PublicationsField => 5
  }

  /** Python's `f"{x}"` of an optional text: the text itself, or "None". */
  function Show(s: Option<string>): string {
    if s.Some? then s.value else "None"
  }

  /** Python truthiness of an optional text: present and non-empty. */
  predicate Present(s: Option<string>) {
    s.Some? && s.value != ""
  }

  /** `metrics.get(key, '0')`. */
  function MetricOrZero(metrics: map<string, string>, key: string): string {
    if key in metrics then metrics[key] else "0"
  }

  function NameLine(name: Option<string>): string {
    "Name: " + Show(name) + "\n"
  }

  function AffiliationLine(affiliation: string): string {
    "Affiliation: " + affiliation + "\n"
  }

  function SummaryLine(summary: string): string {
    "Summary: " + summary + "\n"
  }

  function InterestsLine(interests: seq<string>): string {
    "Research Interests/Keywords: " + Join(interests, ", ") + "\n"
  }

  function MetricsLine(metrics: map<string, string>): string {
    "Citations: " + MetricOrZero(metrics, "Citations")
    + ", H-index: " + MetricOrZero(metrics, "h-index")
    + ", i10-index: " + MetricOrZero(metrics, "i10-index") + "\n"
  }

  const PublicationsHeading: string := "\nPublications:\n"

  function PublicationLine(p: Publication): string {
    "• " + p.title + " (" + NatToDecimal(p.year) + ") - " + NatToDecimal(p.citations) + " citations\n"
  }

  /** `publications[:5]`: the first five entries in list order, or all of them when fewer. */
  function FirstFive(pubs: seq<Publication>): (shown: seq<Publication>)
    ensures |shown| == if |pubs| < 5 then |pubs| else 5
    ensures shown == pubs[..|shown|]
  {
    if |pubs| <= 5 then pubs else pubs[..5]
  }

  /** One bullet line per publication, in list order. */
  function PublicationLines(pubs: seq<Publication>): seq<string> {
    seq(|pubs|, k requires 0 <= k < |pubs| => PublicationLine(pubs[k]))
  }

  function NameBlock(info: AuthorInfo, selected: seq<string>): seq<string> {
    if "name" in selected then [NameLine(info.name)] else []
  }

  function AffiliationBlock(info: AuthorInfo, selected: seq<string>): seq<string> {
    if "affiliation" in selected && Present(info.affiliation) then [AffiliationLine(info.affiliation.value)] else []
  }

  function SummaryBlock(info: AuthorInfo, selected: seq<string>): seq<string> {
    if "summary" in selected && Present(info.summary) then [SummaryLine(info.summary.value)] else []
  }

  function InterestsBlock(info: AuthorInfo, selected: seq<string>): seq<string> {
    if "interests" in selected && info.interests != [] then [InterestsLine(info.interests)] else []
  }

  function MetricsBlock(info: AuthorInfo, selected: seq<string>): seq<string> {
    if "metrics" in selected && info.metrics != map[] then [MetricsLine(info.metrics)] else []
  }

  function PublicationsBlock(pubs: seq<Publication>, selected: seq<string>): seq<string> {
    if "publications" in selected && pubs != [] then [PublicationsHeading] + PublicationLines(FirstFive(pubs)) else []
  }

  /** The lines a field contributes: none unless selected and, except for the name, present. */
  function Block(f: Field, info: AuthorInfo, pubs: seq<Publication>, selected: seq<string>): seq<string> {
    match f
    case NameField => NameBlock(info, selected)
    case AffiliationField => AffiliationBlock(info, selected)
    case SummaryField => SummaryBlock(info, selected)
    case InterestsField => InterestsBlock(info, selected)
    case MetricsField => MetricsBlock(info, selected)
    case PublicationsField => PublicationsBlock(pubs, selected)
  }

  /** The list `summary` that `generate_detailed_summary` builds: the blocks in field order. */
  function SummaryParts(info: AuthorInfo, pubs: seq<Publication>, selected: seq<string>): seq<string> {
    Block(NameField, info, pubs, selected) + Block(AffiliationField, info, pubs, selected)
    + Block(SummaryField, info, pubs, selected) + Block(InterestsField, info, pubs, selected)
    + Block(MetricsField, info, pubs, selected) + Block(PublicationsField, info, pubs, selected)
  }

  /** The summary text: the parts joined by newlines. */
  function Summary(info: AuthorInfo, pubs: seq<Publication>, selected: seq<string>): string {
    Join(SummaryParts(info, pubs, selected), "\n")
  }

  /**
   * When a field's block is written: the field is selected and, for every field
   * but the name, its data is present (a non-empty text, list or map).
   */
  predicate Emits(f: Field, info: AuthorInfo, pubs: seq<Publication>, selected: seq<string>) {
    FieldName(f) in selected &&
    match f
    case NameField => true
    case AffiliationField => Present(info.affiliation)
    case SummaryField => Present(info.summary)
    case InterestsField => |info.interests| > 0
    case MetricsField => |info.metrics| > 0
    case PublicationsField => |pubs| > 0
  }

  /** The block a summary part belongs to, told by its first character. */
  function PartField(part: string): Option<Field> {
    if part == [] then None
    else if part[0] == 'N' then Some(NameField)
    else if part[0] == 'A' then Some(AffiliationField)
    else if part[0] == 'S' then Some(SummaryField)
    else if part[0] == 'R' then Some(InterestsField)
    else if part[0] == 'C' then Some(MetricsField)
    else if part[0] == '\n' || part[0] == '•' then Some(PublicationsField)
    else None
  }

  /** Every part of the field's block is recognised as belonging to that field. */
  lemma BlockPartsBelong(f: Field, info: AuthorInfo, pubs: seq<Publication>, selected: seq<string>)
    ensures forall p :: p in Block(f, info, pubs, selected) ==> PartField(p) == Some(f)
    ensures f != PublicationsField ==> |Block(f, info, pubs, selected)| <= 1
    ensures Block(f, info, pubs, selected) != [] <==> Emits(f, info, pubs, selected)
  {
  }

  /** The parts are in field order; only the publications block has more than one. */
  ghost predicate InFieldOrder(parts: seq<string>) {
    (forall i :: 0 <= i < |parts| ==> PartField(parts[i]).Some?)
    && (forall i, j :: 0 <= i < j < |parts| ==>
         Position(PartField(parts[i]).value) < Position(PartField(parts[j]).value)
         || PartField(parts[i]) == PartField(parts[j]) == Some(PublicationsField))
  }

  /** Appending the next field's block to parts of earlier fields keeps the field order. */
  lemma AppendBlock(parts: seq<string>, f: Field, info: AuthorInfo, pubs: seq<Publication>, selected: seq<string>)
    requires InFieldOrder(parts)
    requires forall i :: 0 <= i < |parts| ==> Position(PartField(parts[i]).value) < Position(f)
    ensures InFieldOrder(parts + Block(f, info, pubs, selected))
    ensures forall i :: 0 <= i < |parts + Block(f, info, pubs, selected)| ==>
      Position(PartField((parts + Block(f, info, pubs, selected))[i]).value) <= Position(f)
  {
    var b := Block(f, info, pubs, selected);
    BlockPartsBelong(f, info, pubs, selected);
    assert forall i :: 0 <= i < |b| ==> PartField(b[i]) == Some(f);
  }

  /**
   * The blocks appear in the order name, affiliation, summary, interests,
   * metrics, publications, whatever the order of the selection; every block but
   * the publications is a single part.
   */
  lemma {:induction false} SummaryInFieldOrder(info: AuthorInfo, pubs: seq<Publication>, selected: seq<string>)
    ensures InFieldOrder(SummaryParts(info, pubs, selected))
  {
    var p0 := Block(NameField, info, pubs, selected);
    BlockPartsBelong(NameField, info, pubs, selected);
    assert forall i :: 0 <= i < |p0| ==> p0[i] in p0;
    var p1 := p0 + Block(AffiliationField, info, pubs, selected);
    AppendBlock(p0, AffiliationField, info, pubs, selected);
    var p2 := p1 + Block(SummaryField, info, pubs, selected);
    AppendBlock(p1, SummaryField, info, pubs, selected);
    var p3 := p2 + Block(InterestsField, info, pubs, selected);
    AppendBlock(p2, InterestsField, info, pubs, selected);
    var p4 := p3 + Block(MetricsField, info, pubs, selected);
    AppendBlock(p3, MetricsField, info, pubs, selected);
    AppendBlock(p4, PublicationsField, info, pubs, selected);
  }

  /**
   * A field's block is in the summary exactly when the field is selected and,
   * except for the name, its data is present.
   */
  lemma SummaryBlockPresence(f: Field, info: AuthorInfo, pubs: seq<Publication>, selected: seq<string>)
    ensures (exists p :: p in SummaryParts(info, pubs, selected) && PartField(p) == Some(f))
            <==> Emits(f, info, pubs, selected)
  {
    BlockPartsBelong(NameField, info, pubs, selected);
    BlockPartsBelong(AffiliationField, info, pubs, selected);
    BlockPartsBelong(SummaryField, info, pubs, selected);
    BlockPartsBelong(InterestsField, info, pubs, selected);
    BlockPartsBelong(MetricsField, info, pubs, selected);
    BlockPartsBelong(PublicationsField, info, pubs, selected);
    var b := Block(f, info, pubs, selected);
    if b != [] {
      assert b[0] in b;
    }
  }

  /** A selected name is always written first, even when the page had no name ("Name: None"). */
  lemma NameComesFirst(info: AuthorInfo, pubs: seq<Publication>, selected: seq<string>)
    requires "name" in selected
    ensures SummaryParts(info, pubs, selected)[0] == NameLine(info.name)
    ensures |NameLine(info.name)| <= |Summary(info, pubs, selected)|
    ensures Summary(info, pubs, selected)[..|NameLine(info.name)|] == NameLine(info.name)
  {
  }

  /** Only membership in the selection matters, not its order or repetitions. */
  lemma SelectionOrderIrrelevant(info: AuthorInfo, pubs: seq<Publication>, s1: seq<string>, s2: seq<string>)
    requires forall x :: x in s1 <==> x in s2
    ensures Summary(info, pubs, s1) == Summary(info, pubs, s2)
  {
    assert forall f :: Block(f, info, pubs, s1) == Block(f, info, pubs, s2);
  }

  /** Selecting none of the detail names yields the empty text. */
  lemma NothingSelectedIsEmpty(info: AuthorInfo, pubs: seq<Publication>, selected: seq<string>)
    requires forall f :: FieldName(f) !in selected
    ensures Summary(info, pubs, selected) == ""
  {
    assert FieldName(NameField) !in selected && FieldName(AffiliationField) !in selected;
    assert FieldName(SummaryField) !in selected && FieldName(InterestsField) !in selected;
    assert FieldName(MetricsField) !in selected && FieldName(PublicationsField) !in selected;
  }

  /** The three keys the metrics line reads. */
  predicate IsShownMetric(key: string) {
    key == "Citations" || key == "h-index" || key == "i10-index"
  }

  /** A missing metric key is written exactly as if its value were the text "0". */
  lemma MissingMetricShowsZero(metrics: map<string, string>, key: string)
    requires IsShownMetric(key) && key !in metrics
    ensures MetricsLine(metrics) == MetricsLine(metrics[key := "0"])
  {
  }

  /** The metrics line depends on the three shown keys only; any other label is ignored. */
  lemma MetricsLineReadsShownKeys(m1: map<string, string>, m2: map<string, string>)
    requires forall key :: IsShownMetric(key) ==> (key in m1 <==> key in m2)
    requires forall key :: IsShownMetric(key) && key in m1 ==> m1[key] == m2[key]
    ensures MetricsLine(m1) == MetricsLine(m2)
  {
  }

  /**
   * When written, the publications block closes the summary: the heading, then
   * one line for each of the first five publications (fewer if there are
   * fewer), in list order and unsorted.
   */
  lemma PublicationsBlockShowsFirstFive(info: AuthorInfo, pubs: seq<Publication>, selected: seq<string>)
    requires Emits(PublicationsField, info, pubs, selected)
    ensures var parts, n := SummaryParts(info, pubs, selected), if |pubs| < 5 then |pubs| else 5;
      n < |parts| && parts[|parts| - n - 1] == PublicationsHeading
      && forall k :: 0 <= k < n ==> parts[|parts| - n + k] == PublicationLine(pubs[k])
  {
  }

  /** Publications after the fifth never reach the summary. */
  lemma LaterPublicationsIgnored(info: AuthorInfo, pubs: seq<Publication>, more: seq<Publication>, selected: seq<string>)
    requires |pubs| >= 5
    ensures Summary(info, pubs + more, selected) == Summary(info, pubs, selected)
  {
    assert (pubs + more)[..5] == pubs[..5];
    assert Block(PublicationsField, info, pubs + more, selected) == Block(PublicationsField, info, pubs, selected);
  }

  /** The parts written before the publications block. */
  function LeadingParts(info: AuthorInfo, pubs: seq<Publication>, selected: seq<string>): seq<string> {
    Block(NameField, info, pubs, selected) + Block(AffiliationField, info, pubs, selected)
    + Block(SummaryField, info, pubs, selected) + Block(InterestsField, info, pubs, selected)
    + Block(MetricsField, info, pubs, selected)
  }

  /**
   * When written, the publications block closes the summary text: the heading,
   * a newline, and the lines of the first five publications joined by
   * newlines, after the earlier blocks' text and a newline when there are any.
   */
  lemma SummaryTextEndsWithPublications(info: AuthorInfo, pubs: seq<Publication>, selected: seq<string>)
    requires Emits(PublicationsField, info, pubs, selected)
    ensures var front, tail := LeadingParts(info, pubs, selected),
                              PublicationsHeading + "\n" + Join(PublicationLines(FirstFive(pubs)), "\n");
      Summary(info, pubs, selected) == if front == [] then tail else Join(front, "\n") + "\n" + tail
  {
    var front := LeadingParts(info, pubs, selected);
    var lines := PublicationLines(FirstFive(pubs));
    var block := [PublicationsHeading] + lines;
    assert Block(PublicationsField, info, pubs, selected) == block;
    assert SummaryParts(info, pubs, selected) == front + block;
    assert block[1..] == lines;
    if front != [] {
      JoinConcat(front, block, "\n");
      assert Join(block, "\n") == PublicationsHeading + "\n" + Join(lines, "\n");
    } else {
      assert front + block == block;
      assert Join(block, "\n") == PublicationsHeading + "\n" + Join(lines, "\n");
    }
  }

  /** Every line of a written block appears in the summary text. */
  lemma SummaryTextShowsBlock(f: Field, info: AuthorInfo, pubs: seq<Publication>, selected: seq<string>)
    ensures forall p :: p in Block(f, info, pubs, selected) ==> exists o :: OccursAt(p, Summary(info, pubs, selected), o)
  {
    var parts := SummaryParts(info, pubs, selected);
    forall p | p in Block(f, info, pubs, selected)
      ensures exists o :: OccursAt(p, Join(parts, "\n"), o)
    {
      assert p in parts;
      var i :| 0 <= i < |parts| && parts[i] == p;
      JoinContainsParts(parts, "\n", i);
    }
    assert Summary(info, pubs, selected) == Join(parts, "\n");
  }

  /**
   * One `if ...: summary.append(...)` step of `generate_detailed_summary`: the
   * field's line when it is selected and (except for the name) present; for
   * the publications, the heading and a line for each of the first five.
   */
  method AppendDetail(summary: seq<string>, f: Field, info: AuthorInfo, publications: seq<Publication>, selected: seq<string>)
    returns (extended: seq<string>)
    ensures extended == summary + Block(f, info, publications, selected)
  {
    extended := summary;
    match f
    case NameField =>
      if "name" in selected {
        extended := extended + [NameLine(info.name)];
      }
    case AffiliationField =>
      if "affiliation" in selected && Present(info.affiliation) {
        extended := extended + [AffiliationLine(info.affiliation.value)];
      }
    case SummaryField =>
      if "summary" in selected && Present(info.summary) {
        extended := extended + [SummaryLine(info.summary.value)];
      }
    case InterestsField =>
      if "interests" in selected && info.interests != [] {
        extended := extended + [InterestsLine(info.interests)];
      }
    case MetricsField =>
      if "metrics" in selected && info.metrics != map[] {
        extended := extended + [MetricsLine(info.metrics)];
      }
    case PublicationsField =>
      if "publications" in selected && publications != [] {
        extended := extended + [PublicationsHeading];
        var shown := FirstFive(publications);
        ghost var before := extended;
        for k := 0 to |shown|
          invariant extended == before + PublicationLines(shown[..k])
        {
          extended := extended + [PublicationLine(shown[k])];
          assert PublicationLines(shown[..k + 1]) == PublicationLines(shown[..k]) + [PublicationLine(shown[k])];
        }
        assert shown[..|shown|] == shown;
      }
  }

  /** `generate_detailed_summary`: appends the blocks in field order, then joins them with newlines. */
  method GenerateDetailedSummary(info: AuthorInfo, publications: seq<Publication>, selected: seq<string>)
    returns (text: string)
    ensures text == Summary(info, publications, selected)
  {
    var summary: seq<string> := [];
    summary := AppendDetail(summary, NameField, info, publications, selected);
    assert summary == Block(NameField, info, publications, selected);
    summary := AppendDetail(summary, AffiliationField, info, publications, selected);
    summary := AppendDetail(summary, SummaryField, info, publications, selected);
    summary := AppendDetail(summary, InterestsField, info, publications, selected);
    summary := AppendDetail(summary, MetricsField, info, publications, selected);
    summary := AppendDetail(summary, PublicationsField, info, publications, selected);
    text := Join(summary, "\n");
  }
}
