/**
 * `scrape_and_analyze_profile` after the page has been fetched and parsed:
 * extract the author record and the publication list, then write the summary
 * of the selected details.
 */
module Scraper {
  import opened Wrappers
  import opened Page
  import opened Extractor
  import opened Summarizer

  /** The summary of the selected details of a profile page. */
  method ScrapeAndAnalyzeProfile(page: ProfilePage, selected: seq<string>) returns (text: string)
    ensures text == Summary(AuthorInfoOf(page), PublicationsOf(page.publicationRows), selected)
  {
    var info := ExtractAuthorInfo(page);
    var publications := ExtractPublications(page.publicationRows);
    text := GenerateDetailedSummary(info, publications, selected);
  }

  /** A page without a metrics table never gets a metrics line, even when metrics are selected. */
  lemma NoMetricsTableNoMetricsLine(page: ProfilePage, selected: seq<string>)
    requires page.metricsTable.None?
    ensures var parts := SummaryParts(AuthorInfoOf(page), PublicationsOf(page.publicationRows), selected);
      forall p :: p in parts ==> PartField(p) != Some(MetricsField)
  {
    SummaryBlockPresence(MetricsField, AuthorInfoOf(page), PublicationsOf(page.publicationRows), selected);
  }

  /**
   * The summary's publication lines show the first titled rows of the page, in
   * page order: the k-th bullet shows the record of the k-th row with a title.
   */
  lemma BulletsShowFirstTitledRows(page: ProfilePage, selected: seq<string>, k: nat)
    requires "publications" in selected
    requires k < 5 && k < |TitledIndices(page.publicationRows)|
    ensures var rows := page.publicationRows;
      var parts := SummaryParts(AuthorInfoOf(page), PublicationsOf(rows), selected);
      var n := if |TitledIndices(rows)| < 5 then |TitledIndices(rows)| else 5;
      n < |parts| && parts[|parts| - n + k] == PublicationLine(PublicationOf(rows[TitledIndices(rows)[k]]).value)
  {
    var rows := page.publicationRows;
    PublicationsFollowTitledRows(rows);
    assert FieldName(PublicationsField) == "publications";
    PublicationsBlockShowsFirstFive(AuthorInfoOf(page), PublicationsOf(rows), selected);
  }

  /** A row titled "Graph Algorithms" with year "2019" and citation link "42". */
  lemma GraphAlgorithmsRow()
    ensures PublicationOf(PublicationRow(Some("Graph Algorithms"), [], Some("2019"), Some("42")))
      == Some(Publication("Graph Algorithms", None, None, 2019, 42))
  {
    assert "2019"[..3] == "201" && "201"[..2] == "20" && "20"[..1] == "2" && "2"[..0] == [];
    assert "42"[..1] == "4" && "4"[..0] == [];
  }

  /** A row titled "Untitled Draft" with year "n/a" and no citation link gets year 0 and 0 citations. */
  lemma UntitledDraftRow()
    ensures PublicationOf(PublicationRow(Some("Untitled Draft"), [], Some("n/a"), None))
      == Some(Publication("Untitled Draft", None, None, 0, 0))
  {
  }

  /** Selecting only the name of a profile without a name writes "Name: None". */
  lemma NamelessProfile(info: AuthorInfo, pubs: seq<Publication>)
    requires info.name.None?
    ensures Summary(info, pubs, ["name"]) == "Name: None\n"
  {
  }

  /** Missing metric keys are written as "0": only Citations and h-index on the page. */
  lemma PartialMetricsLine()
    ensures MetricsLine(map["Citations" := "120", "h-index" := "8"])
      == "Citations: 120, H-index: 8, i10-index: 0\n"
  {
  }
}
