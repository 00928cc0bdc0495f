# PubMed summary harvester — a verified model

This project models the core of `get_summary.py`, a command-line harvester that pulls
article summaries from the NCBI E-utilities service (PubMed) and flattens them into one
table row per article. The run has four stages:

1. **Access window.** The run goes ahead only on a Saturday or Sunday, or on a weekday
   at or after 21:00 or at or before 05:00, US Eastern time (`is_request_allowed`).
2. **Search.** The search call returns the id list, a WebEnv handle and a query key.
   Its result is an input here.
3. **Fetch.** The run fetches `total_count = len(ids)` records in pages of 200, at the
   offsets of `range(0, total_count, 200)`, strictly in order (`fetch_all_efetch`).
   - A page is attempted at most three times, and only a connect timeout is retried
     (`fetch_efetch_batch`).
   - Three timeouts abort the run with an error that names the page's offset.
   - Any other failure aborts the run with that failure.
4. **Normalise.** Every `PubmedArticle` of every page, in page order and then document
   order, becomes one record of nine fields: PMID, title, abstract, authors,
   affiliations, year, keywords, journal and DOI (`parse_pubmed_xml`).

Modules:

- `Wrappers` — `Option` and `Result`.
- `AccessWindow` — `is_request_allowed`. The local weekday and `datetime.time` are inputs.
- `Fetch` — the retry loop and the offset loop, as methods with loops. Each is proved
  equal to a recursive specification function.
  - The network is an injected function `respond(request, attempt)`.
  - The sends and the sleeps are recorded as an event trace.
- `Strings` — the Python string operations the normaliser uses: `str.strip()` with
  Python's whitespace set, `sep.join(xs)` and `s[:n]`.
- `Filters` — list comprehensions with an `if` clause, and what they keep.
- `ElementTree` — an already-parsed element tree, plus the ElementPath lookups the source
  uses (`findall` and `findtext` with `X`, `.//X` and `.//A/B`).
- `Normalize` — the record fields and the two nested loops of `parse_pubmed_xml`.
- `Harvest` — `main` after argument parsing: window check, then fetch, then normalise.

## Model

| member | source | states |
|---|---|---|
| AccessWindow.IsRequestAllowed | get_summary.py:18-25 | Allowed exactly when the weekday is Saturday or Sunday, or the time of day is at or after 21:00:00, or at or before 05:00:00 (both bounds inclusive). Computed with Python's field-by-field `time` comparison. |
| AccessWindow.ClockOrderIsInstantOrder | get_summary.py:23 | For valid clock values, Python's field-by-field `time` order agrees with the order of the instants. |
| AccessWindow.ClockOf | get_summary.py:20 | Every microsecond of the day is the instant of a valid clock value, built by dividing down into hours, minutes, seconds and microseconds. |
| AccessWindow.IsAllowedAt | get_summary.py:18-25 | The same policy over any microsecond of the day: weekend, or `>= 21h`, or `<= 5h`. |
| AccessWindow.WeekdayWindowByHour | get_summary.py:23-25 | On a weekday: allowed exactly when the hour is 21 or later, or before 5, or the time is exactly 05:00:00.000000. |
| AccessWindow.WeekdayBoundaries | get_summary.py:23 | 21:00:00 and 05:00:00 are allowed. 20:59:59, 20:59:59.999999, 05:00:01 and 05:00:00.000001 are refused. |
| AccessWindow.WeekendAlwaysAllowed | get_summary.py:21-22 | Every instant of Saturday and Sunday is allowed. |
| Fetch.FetchEfetchBatch | get_summary.py:44-67 | The loop's result and event trace are exactly the retry function `Batch` for the page request. The request carries `retmax` 200. |
| Fetch.RetryBound | get_summary.py:58-63 | One page sends between 1 and 3 requests, all of them that page's own request. |
| Fetch.RetrySettlesOnFirstNonTimeout | get_summary.py:58-64 | If attempts 0..k-1 time out and attempt k does not, the page ends with attempt k's body (success) or its error (propagated unchanged), after exactly k+1 requests. |
| Fetch.RetryExhaustion | get_summary.py:58-67 | Three connect timeouts end the page with `RetriesExhausted(retstart)`, after exactly 3 requests. |
| Fetch.RetryResultsAreJustified | get_summary.py:58-67 | The converse of the two rows above. `RetriesExhausted` occurs only after three timeouts, and names the page's own offset. A success is always some attempt's body, with only timeouts before that attempt. |
| Fetch.PageOffsets | get_summary.py:71 | `range(0, total, 200)` has `ceil(total/200)` elements, and element i is `200*i`. |
| Fetch.PageOffsetsShape | get_summary.py:71 | The offsets are strictly increasing multiples of 200 below the total. They cover the total: the last offset is less than the total, and at most 200 ids start at or after it. There are none exactly when the total is 0. |
| Fetch.FetchAllEfetch | get_summary.py:69-76 | The loop's result and trace are exactly `AllFrom` over `PageOffsets(total)`: one batch per offset, in order, a pacing sleep after each page, a stop at the first failure. |
| Fetch.AllPagesInOffsetOrder | get_summary.py:72-76 | The run succeeds exactly when every page's retry loop succeeds. It then returns one body per offset, and body i is the body fetched at offset i. |
| Fetch.FirstFailureAborts | get_summary.py:72-74 | A failing run fails with the error of its first failing page. Every earlier page succeeded, and nothing is requested for any later page. |
| Fetch.RequestsFollowOffsets | get_summary.py:69-76 | Requested offsets never go down. Every request carries the run's WebEnv and query key, `retmax` 200, and one of the offsets. The run sends at most 3 requests per offset in total (the per-page bound of 3 is `Fetch.RetryBound`). |
| Fetch.NoIdsNoRequests | get_summary.py:71-76 | A total of 0 sends no request, records no sleep and returns an empty list. |
| Fetch.TwoTimeoutsThenSuccess | get_summary.py:58-76 | With 250 ids the offsets are [0, 200]. If the page at offset 200 times out twice and then succeeds, the run returns both bodies in order, after 4 requests. |
| Fetch.ThreeTimeoutsAbortAt400 | get_summary.py:58-76 | If the page at offset 400 times out three times, the run fails with the error naming offset 400. |
| Strings.Strip | get_summary.py:87 | The result is a contiguous slice of the input. Only whitespace was removed on either side, and the result has no whitespace at either end. |
| Strings.StripSpaced | get_summary.py:87 | Stripping `x + " " + y`, with neither part having edge whitespace and y non-empty: the result is y when x is empty, and the whole string otherwise. |
| Strings.JoinTwo | get_summary.py:85 | Two pieces are joined by exactly one separator. |
| Strings.JoinSnoc | get_summary.py:91 | Joining one more piece appends the separator and then the piece. |
| Strings.JoinLength | get_summary.py:91 | The joined length is the sum of the piece lengths plus one separator between each neighbouring pair. |
| Strings.Prefix | get_summary.py:96 | `s[:n]` is a prefix of s, of length `min(len(s), n)`. |
| ElementTree.ChildrenTaggedIsFilter | get_summary.py:87-89 | A child path's matches are exactly `e`'s children filtered by tag, in document order. |
| ElementTree.IterAllIsFilter | get_summary.py:82 | The `.//X` matches below a list of elements are their preorder descendants (whatever their tags) filtered by tag `X`. |
| ElementTree.FindAllIsFilter | get_summary.py:82-102 | `findall` is the filter by the path's last tag of its candidates: the children for `X`, the preorder descendants for `.//X`, the children of the `A` descendants for `.//A/B`. |
| ElementTree.FindAllInDocumentOrder | get_summary.py:82-102 | `findall` returns the candidates at strictly increasing positions, and a position is among them exactly when its candidate carries the last tag. So every such candidate is found, once, in document order. |
| ElementTree.FindTextMeaning | get_summary.py:83-95 | `findtext` is None exactly when no candidate carries the last tag. Otherwise it is the text of the first candidate that does, or "" when that one has no text. |
| Filters.FilterAppend | get_summary.py:86-90 | Filtering a concatenation filters each part, one after the other. |
| Filters.FilterFirst | get_summary.py:83 | A filter keeps nothing exactly when nothing is accepted. Otherwise its first element is the element at the first accepted position. |
| ElementTree.IterAllAppend | get_summary.py:82 | Document order: the descendant matches of `a + b` are those of a, then those of b. |
| Filters.FilterKeepsAcceptedInOrder | get_summary.py:86-90 | A comprehension filter reads the list at strictly increasing positions. A position is read exactly when the condition accepts its element. |
| Normalize.SelectDoi | get_summary.py:99-102 | The DOI loop leaves `LastDoi` of the `ArticleId` elements. |
| Normalize.LastDoiRule | get_summary.py:99-102 | With no doi-typed id, the DOI is "". Otherwise it is the text of the last doi-typed id, which is None when that element has no text. |
| Normalize.ExtractRecord | get_summary.py:83-113 | The nine fields the loop body computes are exactly `RecordOf(article)`. The field rules are proved about `RecordOf` in the rows below. |
| Normalize.ParsePage | get_summary.py:82-103 | The inner loop yields one record per `PubmedArticle` of the page, in document order. |
| Normalize.ParsePubmedXml | get_summary.py:78-114 | The nested loops yield exactly `RecordsOf(pages)`: page after page, and within a page, article after article. |
| Normalize.RecordsOfAppend | get_summary.py:80-103 | The records of two page lists, one after the other, are the records of their concatenation. |
| Normalize.RecordCountAndOrder | get_summary.py:80-103 | There is one record per article. The a-th article of page c gives the record at position (articles before page c) + a. |
| Normalize.AuthorsRule | get_summary.py:86-91 | Authors are joined by ", ", one name per `Author`, kept in document order. An `Author` is kept exactly when its `LastName` text is non-empty. |
| Normalize.AffiliationsRule | get_summary.py:92-93 | Affiliations are joined by "; ". They are the `Affiliation` texts of the `AffiliationInfo` elements whose text is non-empty, in document order. |
| Normalize.KeywordsRule | get_summary.py:97-98 | Keywords are joined by ", ". They are the non-empty `Keyword` texts, in document order, each kept exactly when non-empty. |
| Normalize.YearRule | get_summary.py:95-96 | The year is at most 4 characters. It is the prefix of a non-empty `PubDate/Year`, else of a non-empty `PubDate/MedlineDate`, else "". |
| Normalize.AbstractOfTwoSegments | get_summary.py:85 | Segments "Background." and "Methods." give "Background. Methods.". |
| Normalize.AbstractKeepsEmptySegments | get_summary.py:85 | A segment without text counts as "", so its separator stays in the abstract. |
| Normalize.TwoParts | get_summary.py:85 | Two `AbstractText` elements give their two texts, with a missing text as "". |
| Normalize.DoiAmongOtherIds | get_summary.py:99-102 | A "pmc" id followed by a "doi" id "10.1/x" gives the DOI "10.1/x". |
| Normalize.AuthorNameFormat | get_summary.py:87-89 | An author with a non-empty family name is kept. When neither the given name nor the family name starts or ends with whitespace, its name is "given family", or just the family name when the given name is empty (surrounding whitespace in either part is stripped only at the ends of the whole name). |
| Normalize.JaneDoe | get_summary.py:86-89 | ForeName "Jane" and LastName "Doe" give the author "Jane Doe". |
| Harvest.Harvest | get_summary.py:116-124 | Outside the window the run sends nothing. Inside it, the run fetches the pages for `len(ids)` ids and normalises their articles, with the trace of the offset loop. With no ids it sends nothing and completes with no records. |
| Harvest.CompletedRunCoversAllPages | get_summary.py:121-124 | A completed run has one body per started block of 200 ids, and body i is the one fetched at offset 200·i. It holds one record per article of those pages. |
| Harvest.AbortedRunNamesFailingPage | get_summary.py:122-123 | An aborted run carries the error of its first failing page, and every earlier page succeeded. |

### Behaviour kept as the code has it

- A non-timeout failure propagates unchanged as `Raised(error)`. Only retry exhaustion
  names the offset, as `RetriesExhausted(retStart)` (get_summary.py:58-67).
- Only `httpx.ConnectTimeout` is retried. A read timeout, an HTTP status error or any
  other exception leaves the loop at once (get_summary.py:58-64).
- A missing PMID, title or journal stays `None`, because `findtext` without a default
  returns `None` (get_summary.py:83-84, 94). The abstract, author, affiliation, keyword
  and year fields are always strings.
- The DOI is the text of the last doi-typed `ArticleId`, because the loop overwrites it
  (get_summary.py:99-102). It is `None` when that element has no text, and "" when there
  is no doi-typed id.
- The year falls back to `MedlineDate` when `PubDate/Year` is missing or empty, because it
  is chosen with `or` (get_summary.py:95). The 4-character prefix is not checked to be
  numeric (get_summary.py:96).

## Left out

- HTTP and httpx: the transport is the injected function `respond(request, attempt)`.
  - The 30-second client timeout is left out.
  - The `db` and `retmode` literals are left out.
  - Connection handling is left out.
- `asyncio.sleep(5)` and `asyncio.sleep(1/3)` are recorded as `Slept(Cooldown)` and
  `Slept(Pacing)` events. Real time is not modelled.
- The wall clock and the `US/Eastern` conversion (`pytz`): the local weekday and time of
  day are inputs.
- `fetch_esearch`: its HTTP call, `raise_for_status`, the JSON decoding and their
  errors. The triple it returns (ids, WebEnv, query key) is an input to `Harvest.Harvest`.
- `ET.fromstring` and its `ParseError`: the pages reach `Normalize.ParsePubmedXml` already
  parsed. `Harvest.Harvest` takes the parser as an injected total function.
- ElementPath in general: only the path shapes `X`, `.//X` and `.//A/B` are modelled.
- Building the `pandas` DataFrame and writing `output.csv`: the model returns the
  records in order.
- Output-only text with no effect on control flow:
  - the `print` of the refusal notice, of the timeout notice per attempt and of the
    final count;
  - the `tqdm` progress bars;
  - `argparse`.
