/**
 * The data-shaping half of `scrape_and_analyze_profile`: the author record, the
 * metrics dictionary folded over the metrics table, and the publication list
 * built row by row with its year and citation coercions.
 */
module Extractor {
  import opened Wrappers
  import opened Text
  import opened Page

  /** One retained publication entry. */
  datatype Publication = Publication(
    title: string,
    authors: Option<string>,
    venue: Option<string>,
    year: nat,
    citations: nat)

  /** The author record (`author_info`); `summary` repeats the affiliation lookup. */
  datatype AuthorInfo = AuthorInfo(
    name: Option<string>,
    affiliation: Option<string>,
    interests: seq<string>,
    metrics: map<string, string>,
    summary: Option<string>)

  // ---------------------------------------------------------------------------
  // Numeric coercion

  /** `int(text) if text.isdigit() else 0`. */
  function DigitsOrZero(text: string): nat {
    if IsDigitText(text) then DecimalValue(text) else 0
  }

  /**
   * The citation count of a row: the link's text, or '0' when there is no link,
   * read as a number when it is all digits and as 0 otherwise.
   */
  function CitationCount(link: Option<string>): (n: nat)
    ensures link.None? ==> n == 0
    ensures link.Some? && IsDigitText(link.value) ==> n == DecimalValue(link.value)
    ensures link.Some? && !IsDigitText(link.value) ==> n == 0
  {
    var text := if link.Some? then link.value else "0";
    DigitsOrZero(text)
  }

  /**
   * The year of a row: the span's text read as a number when it is present,
   * non-empty and all digits, and 0 otherwise.
   */
  function YearValue(span: Option<string>): (n: nat)
    ensures span.None? ==> n == 0
    ensures span.Some? && IsDigitText(span.value) ==> n == DecimalValue(span.value)
    ensures span.Some? && !IsDigitText(span.value) ==> n == 0
  {
    if span.Some? && span.value != "" && IsDigitText(span.value) then DecimalValue(span.value) else 0
  }

  /** The two differently guarded coercions give the same number on every input. */
  lemma CoercionsAgree(text: Option<string>)
    ensures CitationCount(text) == YearValue(text)
  {
  }

  /** A number rendered as decimal text is read back as itself by both coercions. */
  lemma CoercionRoundTrip(n: nat)
    ensures CitationCount(Some(NatToDecimal(n))) == n
    ensures YearValue(Some(NatToDecimal(n))) == n
  {
  }

  // ---------------------------------------------------------------------------
  // Metrics table

  /** A metrics row that contributes an entry: one with at least two cells. */
  predicate IsMetricEntry(row: MetricsRow) {
    |row.cells| >= 2
  }

  /** The metric name of an entry row: its first cell, stripped. */
  function Label(row: MetricsRow): string
    requires IsMetricEntry(row)
  {
    Strip(row.cells[0])
  }

  /** The metric value of an entry row: its second cell, stripped. */
  function Value(row: MetricsRow): string
    requires IsMetricEntry(row)
  {
    Strip(row.cells[1])
  }

  /**
   * One step of the metrics loop: a short row leaves the map as it is; an entry
   * row sets its label to its value, replacing any earlier value, and leaves
   * every other label alone.
   */
  function AddMetricsRow(m: map<string, string>, row: MetricsRow): (r: map<string, string>)
    ensures !IsMetricEntry(row) ==> r == m
    ensures IsMetricEntry(row) ==> Label(row) in r && r[Label(row)] == Value(row)
    ensures forall k :: k in r <==> k in m || (IsMetricEntry(row) && k == Label(row))
    ensures forall k :: k in m && (IsMetricEntry(row) ==> k != Label(row)) ==> r[k] == m[k]
  {
    if IsMetricEntry(row) then m[Label(row) := Value(row)] else m
  }

  /** The metrics dictionary after folding the rows in order. */
  function MetricsAfter(rows: seq<MetricsRow>): map<string, string> {
    if rows == [] then map[] else AddMetricsRow(MetricsAfter(rows[..|rows| - 1]), rows[|rows| - 1])
  }

  /** The labels of the metrics dictionary are exactly the labels of the entry rows. */
  lemma {:induction false} MetricsKeys(rows: seq<MetricsRow>)
    ensures forall k :: k in MetricsAfter(rows) <==>
      exists i :: 0 <= i < |rows| && IsMetricEntry(rows[i]) && Label(rows[i]) == k
  {
    if rows != [] {
      var init := rows[..|rows| - 1];
      MetricsKeys(init);
      assert forall i :: 0 <= i < |init| ==> rows[i] == init[i];
    }
  }

  /** The metrics of a page: empty when there is no metrics table. */
  function MetricsOf(table: Option<seq<MetricsRow>>): (m: map<string, string>)
    ensures table.None? ==> m == map[]
  {
    if table.Some? then MetricsAfter(table.value) else map[]
  }

  /**
   * A later row with the same label overwrites an earlier one: a label's value
   * is the value of the last entry row carrying that label.
   */
  lemma {:induction false} MetricsLastWins(rows: seq<MetricsRow>, i: nat)
    requires i < |rows| && IsMetricEntry(rows[i])
    requires forall j :: i < j < |rows| && IsMetricEntry(rows[j]) ==> Label(rows[j]) != Label(rows[i])
    ensures Label(rows[i]) in MetricsAfter(rows)
    ensures MetricsAfter(rows)[Label(rows[i])] == Value(rows[i])
  {
    if i < |rows| - 1 {
      var init := rows[..|rows| - 1];
      assert init[i] == rows[i];
      forall j | i < j < |init| && IsMetricEntry(init[j])
        ensures Label(init[j]) != Label(init[i])
      {
        assert init[j] == rows[j];
      }
      MetricsLastWins(init, i);
    }
  }

  /** The metrics loop: each row with at least two cells sets its stripped label. */
  method ExtractMetrics(table: Option<seq<MetricsRow>>) returns (metrics: map<string, string>)
    ensures metrics == MetricsOf(table)
  {
    metrics := map[];
    if table.Some? {
      var rows := table.value;
      for i := 0 to |rows|
        invariant metrics == MetricsAfter(rows[..i])
      {
        var cells := rows[i].cells;
        if |cells| >= 2 {
          var metricName := Strip(cells[0]);
          var metricValue := Strip(cells[1]);
          metrics := metrics[metricName := metricValue];
        }
        assert rows[..i + 1][..i] == rows[..i];
      }
      assert rows[..|rows|] == rows;
    }
  }

  // ---------------------------------------------------------------------------
  // Author record

  /** The author record of a page; the summary field is the affiliation lookup again. */
  function AuthorInfoOf(page: ProfilePage): (info: AuthorInfo)
    ensures info.summary == info.affiliation == page.affiliation
    ensures page.metricsTable.None? ==> info.metrics == map[]
  {
    AuthorInfo(page.name, page.affiliation, page.interests, MetricsOf(page.metricsTable), page.affiliation)
  }

  /** Builds `author_info`, filling the metrics dictionary with the metrics loop. */
  method ExtractAuthorInfo(page: ProfilePage) returns (info: AuthorInfo)
    ensures info == AuthorInfoOf(page)
  {
    info := AuthorInfo(page.name, page.affiliation, page.interests, map[], page.affiliation);
    var metrics := ExtractMetrics(page.metricsTable);
    info := info.(metrics := metrics);
  }

  // ---------------------------------------------------------------------------
  // Publications

  /** The author list of a row: its first gray block, or None when it has none. */
  function AuthorsOf(grays: seq<string>): (a: Option<string>)
    ensures a.Some? <==> |grays| >= 1
    ensures a.Some? ==> a.value == grays[0]
  {
    if |grays| >= 1 then Some(grays[0]) else None
  }

  /** The venue of a row: its second gray block when there are at least two, else None. */
  function VenueOf(grays: seq<string>): (v: Option<string>)
    ensures v.Some? <==> |grays| >= 2
    ensures v.Some? ==> v.value == grays[1]
  {
    if |grays| > 1 then Some(grays[1]) else None
  }

  /**
   * The record a publication row yields: one exactly when the row has a title,
   * with the first gray block as authors and the second as venue.
   */
  function PublicationOf(row: PublicationRow): (p: Option<Publication>)
    ensures p.Some? <==> row.title.Some?
    ensures p.Some? ==> p.value.title == row.title.value
    ensures p.Some? ==> p.value.authors == AuthorsOf(row.grayBlocks) && p.value.venue == VenueOf(row.grayBlocks)
    ensures p.Some? ==> p.value.year == YearValue(row.year) && p.value.citations == CitationCount(row.citations)
  {
    if row.title.Some? then
      Some(Publication(row.title.value, AuthorsOf(row.grayBlocks), VenueOf(row.grayBlocks),
                       YearValue(row.year), CitationCount(row.citations)))
    else
      None
  }

  /** A row that shows `p` as the page does: gray blocks for authors and venue, decimal year and count. */
  function RowOf(p: Publication): PublicationRow {
    var grays := if p.authors.None? then [] else if p.venue.None? then [p.authors.value] else [p.authors.value, p.venue.value];
    PublicationRow(Some(p.title), grays, Some(NatToDecimal(p.year)), Some(NatToDecimal(p.citations)))
  }

  /** Extraction reads back every publication from the row that shows it. */
  lemma ExtractShownPublication(p: Publication)
    requires p.venue.Some? ==> p.authors.Some?
    ensures PublicationOf(RowOf(p)) == Some(p)
  {
    CoercionRoundTrip(p.year);
    CoercionRoundTrip(p.citations);
  }

  /**
   * A titled row with at most two gray blocks and canonical decimal year and
   * count is exactly the row that shows its extracted record.
   */
  lemma ShowExtractedPublication(row: PublicationRow)
    requires row.title.Some? && |row.grayBlocks| <= 2
    requires row.year.Some? && IsCanonicalDecimal(row.year.value)
    requires row.citations.Some? && IsCanonicalDecimal(row.citations.value)
    ensures RowOf(PublicationOf(row).value) == row
  {
    NatToDecimalOfDecimalValue(row.year.value);
    NatToDecimalOfDecimalValue(row.citations.value);
    var p := PublicationOf(row).value;
    assert RowOf(p).grayBlocks == row.grayBlocks;
  }

  /** The publication list: the records of the titled rows, in row order. */
  function PublicationsOf(rows: seq<PublicationRow>): (pubs: seq<Publication>)
    ensures |pubs| <= |rows|
  {
    if rows == [] then []
    else
      var last := PublicationOf(rows[|rows| - 1]);
      PublicationsOf(rows[..|rows| - 1]) + (if last.Some? then [last.value] else [])
  }

  /** The positions of the titled rows, in increasing order: a reference for the publication list. */
  function TitledIndices(rows: seq<PublicationRow>): (idx: seq<nat>)
    ensures forall k :: 0 <= k < |idx| ==> idx[k] < |rows| && rows[idx[k]].title.Some?
    ensures forall k, l :: 0 <= k < l < |idx| ==> idx[k] < idx[l]
    ensures forall i :: 0 <= i < |rows| && rows[i].title.Some? ==> i in idx
  {
    if rows == [] then []
    else
      var n := |rows| - 1;
      var init := rows[..n];
      var idx := TitledIndices(init) + (if rows[n].title.Some? then [n] else []);
      assert forall i :: 0 <= i < n ==> rows[i] == init[i];
      idx
  }

  /**
   * The publication list holds one record per titled row, and its k-th record
   * comes from the k-th titled row: title-less rows vanish and order is kept.
   */
  lemma {:induction false} PublicationsFollowTitledRows(rows: seq<PublicationRow>)
    ensures |PublicationsOf(rows)| == |TitledIndices(rows)|
    ensures forall k :: 0 <= k < |TitledIndices(rows)| ==>
      PublicationOf(rows[TitledIndices(rows)[k]]) == Some(PublicationsOf(rows)[k])
  {
    if rows != [] {
      var n := |rows| - 1;
      var init := rows[..n];
      PublicationsFollowTitledRows(init);
      var idx, pubs := TitledIndices(rows), PublicationsOf(rows);
      var idx0, pubs0 := TitledIndices(init), PublicationsOf(init);
      forall k | 0 <= k < |idx|
        ensures PublicationOf(rows[idx[k]]) == Some(pubs[k])
      {
        if k < |idx0| {
          assert idx[k] == idx0[k] && pubs[k] == pubs0[k];
          assert rows[idx[k]] == init[idx0[k]];
        }
      }
    }
  }

  /** The publications loop: a titled row appends its record, any other row is skipped. */
  method ExtractPublications(rows: seq<PublicationRow>) returns (publications: seq<Publication>)
    ensures publications == PublicationsOf(rows)
  {
    publications := [];
    for i := 0 to |rows|
      invariant publications == PublicationsOf(rows[..i])
    {
      var pub := rows[i];
      if pub.title.Some? {
        var citations := CitationCount(pub.citations);
        var year := YearValue(pub.year);
        var publication := Publication(pub.title.value, AuthorsOf(pub.grayBlocks),
                                       VenueOf(pub.grayBlocks), year, citations);
        publications := publications + [publication];
      }
      assert rows[..i + 1][..i] == rows[..i];
    }
    assert rows[..|rows|] == rows;
  }
}
