# Scholar profile analyzer — extraction and summary model

This project models the data-shaping core of `main.py` in Dafny. The script
fetches a Google Scholar profile page and pulls structured fields out of it:

- the author's name and affiliation, and a summary that repeats the affiliation;
- the research interests;
- a dictionary of citation metrics, read from the metrics table;
- a list of publications, each with a title, authors, venue, year and citation count.

From that record it writes a plain-text summary of the details the user selected.

The model has six modules:

- `Wrappers` (`wrappers.dfy`) holds the `Option` type that stands for a value or Python's `None`.
- `Page` (`page.dfy`) is the parsed page as the selector calls see it. Each
  `find` is an optional text, and each `find_all` is the list of texts found,
  in document order.
- `Text` (`text.dfy`) gives Python's `str.strip()`, `str.isdigit()`, `int(...)`
  on digit text, `str(n)`, and `sep.join(...)`, with their properties.
- `Extractor` (`extractor.dfy`) holds the author record and the publication
  records:
  - the numeric coercion of the year and citation texts;
  - the metrics loop, as a method proved equal to a left fold;
  - the publications loop, as a method proved equal to a filter-map over the rows.
- `Summarizer` (`summarizer.dfy`) models `generate_detailed_summary`. It is a
  method that appends each selected block in a fixed order, with the loop over
  the first five publications. The method is proved equal to the function
  `Summary`. Lemmas about `Summary` cover block order, gating, metric defaults
  and truncation.
- `Scraper` (`scraper.dfy`) is `scrape_and_analyze_profile` after the fetch:
  extraction followed by the summary. It also holds end-to-end lemmas and worked
  examples.

Three facts about the code shape the summary text:

- The code does not sort publications. It takes `publications[:5]`, the first
  five in page order; the comment on that line calls them the "top 5".
- The metrics line labels the `h-index` value as `H-index:`.
- Every block ends in `"\n"`, and the blocks are joined with `"\n"`. So a
  summary with only the name of a nameless profile is `"Name: None\n"`.

## Model

| member | source | states |
|---|---|---|
| `Text.TrimStart` | main.py:43-44 | the result is a suffix of the text, everything dropped is whitespace, and the result does not start with whitespace |
| `Text.TrimEnd` | main.py:43-44 | the result is a prefix of the text, everything dropped is whitespace, and the result does not end with whitespace |
| `Text.StripDropsOnlyEdgeSpace` | main.py:43-44 | `strip()` gives a slice `s[i..j]` where everything outside the slice is whitespace and the slice neither starts nor ends with whitespace |
| `Text.StripIdempotent` | main.py:43-44 | stripping a stripped label or value changes nothing |
| `Text.DecimalValue` | main.py:60 | `int(s)` of a k-digit text is below 10^k |
| `Text.NatToDecimal` | main.py:113 | `str(n)` is a non-empty ASCII digit text that starts with '0' only for zero, which is the single digit "0" |
| `Text.DecimalValueOfNatToDecimal` | main.py:59-63 | `int(str(n)) == n` for every n ≥ 0 |
| `Text.NatToDecimalOfDecimalValue` | main.py:113 | `str(int(s)) == s` for every digit text without a superfluous leading zero |
| `Text.Join` | main.py:115 | `sep.join([])` is empty, a one-part list joins to that part, and a join of a non-empty list starts with its first part |
| `Text.JoinConcat` | main.py:115 | the join of two non-empty lists placed one after the other is the first join, the separator, then the second join |
| `Text.JoinAppend` | main.py:115 | appending a part to a non-empty list adds the separator and that part to the end of the join |
| `Text.JoinContainsParts` | main.py:115 | every part of the list occurs in the joined text |
| `Extractor.CitationCount` | main.py:59-60 | a missing citation link gives 0; link text that is all digits gives its decimal value; any other text, including empty text, gives 0; the result is never negative |
| `Extractor.YearValue` | main.py:62-63 | a missing year span gives 0; year text that is all digits gives its value; empty or other text gives 0; the result is never negative |
| `Extractor.CoercionsAgree` | main.py:59-63 | the citation guard (default '0', then `isdigit`) and the year guard (default None, then `year and isdigit`) give the same number for every input |
| `Extractor.CoercionRoundTrip` | main.py:59-63 | both coercions read a number written in decimal back as that number |
| `Extractor.AddMetricsRow` | main.py:41-45 | a row with fewer than two cells leaves the dictionary as it is; otherwise the stripped first cell maps to the stripped second cell, replacing an earlier value, and every other label keeps its value |
| `Extractor.MetricsKeys` | main.py:39-45 | the dictionary's labels are exactly the stripped first cells of the rows with at least two cells |
| `Extractor.MetricsLastWins` | main.py:43-45 | a label's value is the stripped second cell of the last row with that label, so a later duplicate overwrites an earlier one |
| `Extractor.MetricsOf` | main.py:38-39 | without a metrics table the dictionary is empty |
| `Extractor.ExtractMetrics` | main.py:38-45 | the metrics loop builds the folded dictionary |
| `Extractor.AuthorInfoOf` | main.py:29-35 | `summary` equals `affiliation` and both are the first affiliation line; without a metrics table the metrics are empty |
| `Extractor.ExtractAuthorInfo` | main.py:29-45 | builds the author record, with the metrics filled in by the loop |
| `Extractor.AuthorsOf` | main.py:53 | the authors are the first gray block, or None if the row has no gray block |
| `Extractor.VenueOf` | main.py:68 | the venue is the second gray block if the row has at least two, otherwise None |
| `Extractor.PublicationOf` | main.py:58-71 | a row yields a record if and only if it has a title; the record holds that title, the first and second gray blocks, and the coerced year and citation count |
| `Extractor.ExtractShownPublication` | main.py:58-71 | for every publication whose venue implies authors, as every extracted one does, extracting the row that displays it gives back that publication |
| `Extractor.ShowExtractedPublication` | main.py:58-71 | a titled row with at most two gray blocks and canonical decimal year and count is the row that displays its own extracted record |
| `Extractor.PublicationsOf` | main.py:48-72 | the list is no longer than the number of rows |
| `Extractor.TitledIndices` | main.py:51-58 | the positions of the titled rows, strictly increasing, containing every titled row |
| `Extractor.PublicationsFollowTitledRows` | main.py:48-72 | the list has one record per titled row, and its k-th record comes from the k-th titled row, so title-less rows vanish and page order is kept |
| `Extractor.ExtractPublications` | main.py:47-72 | the publications loop builds that list |
| `Summarizer.FirstFive` | main.py:112 | `publications[:5]` is the first min(5, n) entries, in list order |
| `Summarizer.BlockPartsBelong` | main.py:87-113 | each block's lines are recognised as that block's; every block except the publications has at most one line; a block is non-empty exactly when it is emitted |
| `Summarizer.SummaryInFieldOrder` | main.py:85-113 | the lines appear in the order name, affiliation, summary, interests, metrics, publications, whatever the order of the selection; only the publications block has more than one line |
| `Summarizer.SummaryBlockPresence` | main.py:87-113 | a field's block is in the summary if and only if the field is selected and, for every field except the name, its data is non-empty |
| `Summarizer.NameComesFirst` | main.py:88-89 | a selected name is always the first line, and the text starts with it, even when the name is None |
| `Summarizer.SelectionOrderIrrelevant` | main.py:88-110 | two selections with the same members give the same summary |
| `Summarizer.NothingSelectedIsEmpty` | main.py:85-115 | a selection that names none of the six details gives the empty text |
| `Summarizer.MissingMetricShowsZero` | main.py:106 | a missing `Citations`, `h-index` or `i10-index` key is written exactly as if its value were "0" |
| `Summarizer.MetricsLineReadsShownKeys` | main.py:106 | the metrics line depends only on those three keys |
| `Summarizer.PublicationsBlockShowsFirstFive` | main.py:110-113 | when emitted, the summary ends with the heading followed by the lines of the first min(5, n) publications in list order, unsorted |
| `Summarizer.SummaryTextEndsWithPublications` | main.py:110-115 | when the publications block is written, the summary text is the earlier blocks joined by newlines, a newline, the heading, a newline, then the first five publication lines joined by newlines (just the heading onward when no earlier block is written) |
| `Summarizer.SummaryTextShowsBlock` | main.py:85-115 | every line of a written block occurs in the summary text |
| `Summarizer.LaterPublicationsIgnored` | main.py:112 | publications after the fifth never change the summary |
| `Summarizer.AppendDetail` | main.py:87-113 | one conditional append step adds exactly that field's block |
| `Summarizer.GenerateDetailedSummary` | main.py:80-115 | the builder returns `Summary`, which is the blocks joined with newlines |
| `Scraper.ScrapeAndAnalyzeProfile` | main.py:14-74 | the result is the summary of the extracted author record and publication list |
| `Scraper.NoMetricsTableNoMetricsLine` | main.py:37-45 | a page without a metrics table never has a metrics line, even when metrics are selected |
| `Scraper.BulletsShowFirstTitledRows` | main.py:48-113 | the k-th bullet line (k < 5) displays the record of the k-th titled row of the page |
| `Scraper.GraphAlgorithmsRow` | main.py:58-71 | the row with year "2019" and link "42" gives year 2019 and 42 citations |
| `Scraper.UntitledDraftRow` | main.py:58-71 | the row with year "n/a" and no citation link gives year 0 and 0 citations |
| `Scraper.NamelessProfile` | main.py:88-89 | selecting only the name of a nameless profile gives "Name: None\n" |
| `Scraper.PartialMetricsLine` | main.py:106 | metrics holding only Citations and h-index give the line "Citations: 120, H-index: 8, i10-index: 0" |

## Left out

- The HTTP fetch, its headers and `raise_for_status` (main.py:19-25) are network I/O. The model starts from an already parsed page.
- The HTML parse and the `find`/`find_all` selectors (main.py:26, 30-56) belong to a third-party library. `Page` records stand in for what the selectors return. How an element's `.text` collects its descendants' text is not modelled.
- The `try/except` that prints an error and returns None (main.py:76-78) is left out. It absorbs network and library failures, and also the `ValueError` that `int()` raises at main.py:60 and main.py:63 on the texts described in the next line. The model has no such failure path.
- Extractor.CitationCount and Extractor.YearValue accept only ASCII digits. Python's `isdigit` also accepts other Unicode digit characters. For some of those, `int()` raises and the whole call returns None through the `except`; for others, `int()` converts them. Neither case is modelled. Since Python 3.11, `int()` also raises on an all-ASCII digit text longer than 4300 characters (`sys.int_max_str_digits`), so the whole call returns None; the model instead returns that text's `DecimalValue`.
- Python dictionaries keep insertion order, but the model's metrics are a `map`. The summary reads the metrics only by key, and checks only that the dictionary is non-empty, so the order never matters.
- The Streamlit page, inputs, buttons, session state and display (main.py:8-12, 124-177) are presentation code.
- `save_summary` and the timestamped file name (main.py:117-122, 167-171) are file I/O and wall-clock time.
