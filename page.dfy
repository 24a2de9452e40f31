/**
 * A fetched profile page, as the selector calls of `scrape_and_analyze_profile`
 * see it. Every `find` becomes an optional text (the element's `.text`, or None
 * when the element is absent) and every `find_all` becomes the texts of the
 * elements found, in document order.
 */
module Page {
  import opened Wrappers

  /** A row `tr` of the citation-metrics table: the texts of its `td` cells, in order. */
  datatype MetricsRow = MetricsRow(cells: seq<string>)

  /** A publication row (`tr.gsc_a_tr`). */
  datatype PublicationRow = PublicationRow(
    title: Option<string>,       // the title link `a.gsc_a_at`
    grayBlocks: seq<string>,     // every `div.gs_gray` block of the row
    year: Option<string>,        // the year span `span.gsc_a_h`
    citations: Option<string>)   // the citation-count link `a.gsc_a_ac`

  /** The parts of the profile page the extractor looks at. */
  datatype ProfilePage = ProfilePage(
    name: Option<string>,                     // `div#gsc_prf_in`
    affiliation: Option<string>,              // the first `div.gsc_prf_il`
    interests: seq<string>,                   // every `a.gsc_prf_inta`
    metricsTable: Option<seq<MetricsRow>>,    // the rows of `table#gsc_rsb_st`, if present
    publicationRows: seq<PublicationRow>)
}
