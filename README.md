# Bio Knowledge Engine — a verified Dafny model of its data logic

The Bio Knowledge Engine is a React dashboard over two kinds of space-biology literature
(a CSV of journal articles and a snapshot of NASA OSDR study summaries), a details page for a
single OSDR dataset, and a small Express proxy in front of the OSDR biodata API. This project
models the data logic of those pieces in Dafny and proves what the code promises:

- `Dashboard` (client/src/pages/Dashboard.jsx): the journal-row and OSDR-summary adapters that
  produce one record shape, the merge of both batches, the text → year → source search stages
  and the `SpaceBiologyEngine` component state (a class whose load, filter-change and search
  methods update `allData`, `results`, `totalResults`, `isLoading` and `filters`).
- `DatasetController` (server/controller/DatasetController.js): `limit`/`offset` parsing,
  `Array.prototype.slice` paging of the upstream dataset list, the per-dataset title, link and
  date fallbacks, the degraded record for a failed metadata fetch, the proxy target URL and the
  error status rule.
- `SearchResults` (client/src/components/Searchresults.jsx): `renderPagination`, written as a
  method with the source's loop, proved against the `Pagination` function; and the
  loading/header branch of the list.
- `Card` (client/src/components/Card.jsx): author-list choice, the three-author snippet, the
  year label and the category badge.
- `Details` (client/src/pages/Details.jsx): `formatKey`, the `MetadataList` entry selection,
  the files list, the header fallbacks and the `OSDRDetailsPage` fetch state (a class).
- `Server` (server/server.js): the CORS `origin` callback.

Shared modules model the JavaScript they rely on: `JsStrings` (ASCII `toLowerCase`,
`includes`, `split`, `join`, `trim`, `indexOf`, `replace` with a string pattern, `parseInt`
and integer rendering in template literals), `JsArrays` (`filter`, `indexOf`) and
`JsonValues` (JSON values with truthiness, `||`, property reads that throw on `null` and
`undefined`, optional chaining, `typeof` and `Object.entries`). `Wrappers` holds `Option`
(`undefined`, NaN) and `Result` (a thrown exception).

Inputs the code receives from outside are parameters: the parsed CSV rows, the OSDR snapshot,
upstream HTTP responses (a `Result` per call), the current year, and the calendar
(`yearOf` for `new Date(s).getFullYear()`, `isoDayOfMillis` for the date part of
`new Date(ms).toISOString()`, `None` meaning an invalid date).

Behaviours of the code that the model makes explicit:

- The search runs three stages in turn: the term against the title, mission and project title,
  then a publication-year range, then the source. There is no sort and no "load more" count.
- An OSDR summary without `id` throws a `TypeError` inside `results.map`, and the `catch` sits
  around the whole `map`, so one such summary empties the entire OSDR batch
  (`Dashboard.MissingIdEmptiesBatch`).
- A numeric `start_date` is handed to `new Date(n)`, which reads milliseconds, not seconds; the
  model receives the start date already resolved (`StartDate`).
- Record ids are distinct among the journal records (`Dashboard.JournalIdsDistinct`); OSDR
  accessions are taken as given and not checked for duplicates.

Rendering the list from the dashboard, the code passes no pagination props, so the list shows
an enabled Previous button and a disabled Next button with no page numbers
(`SearchResults.PaginationWithoutProps`).

## Model

| member | source | states |
|---|---|---|
| Dashboard.AdaptJournalRow | client/src/pages/Dashboard.jsx:42-57 | id "journal-<i>"; source Journal; title, link and journal name are the non-empty cell or "N/A Title", "#", "N/A Journal"; the date ends in "-01-01", its year parses back, is "NaN" for an unparsable year and the current year without a Year cell; the authors re-join with ';' to the cell, or are empty; constant mission, category and abstract |
| Dashboard.JournalAuthors | client/src/pages/Dashboard.jsx:53 | the split authors join back with ';' to the cell and hold no ';'; no cell gives no authors |
| Dashboard.JournalDate | client/src/pages/Dashboard.jsx:43-48 | "<year>-01-01" whose year parses back, or "NaN-01-01" for a NaN year |
| Dashboard.JournalRowRoundTrip | client/src/pages/Dashboard.jsx:43-53 | a row written from a year and author names adapts to exactly those names and to "<year>-01-01" |
| Dashboard.JournalBatch | client/src/pages/Dashboard.jsx:42-57 | one record per CSV row, row i adapted with index i |
| Dashboard.JournalIdsDistinct | client/src/pages/Dashboard.jsx:42-45 | journal records of different rows have different ids ("journal-<i>") |
| Dashboard.AdaptStudy | client/src/pages/Dashboard.jsx:68-91 | throws exactly when the summary has no id or an invalid start date; otherwise id = accession, source OSDR, title, project title, mission ("Unknown Mission") and link (the study page + accession) fallbacks, the resolved start date or "2010-01-01", categories ["Space Biology", organism] without a falsy organism, the truthy authors, abstract = study title |
| Dashboard.TruthyNames | client/src/pages/Dashboard.jsx:88 | the defined non-empty names, in order and with repetitions, i.e. the values of the truthy filter |
| Dashboard.FlatAuthorsMembership | client/src/pages/Dashboard.jsx:87-89 | a name is in the flattened author lists iff some publication lists it |
| Dashboard.StudyAuthors | client/src/pages/Dashboard.jsx:87-89 | an adapted study's authors are the truthy flattened entries in order, so exactly the non-empty names its publications list |
| Dashboard.AdaptAll | client/src/pages/Dashboard.jsx:66-91 | the map succeeds with one record per summary, in order, iff no summary throws |
| Dashboard.OsdrBatch | client/src/pages/Dashboard.jsx:62-94 | no results give no records; one throwing summary gives none; otherwise one adapted record per summary, in order |
| Dashboard.MissingIdEmptiesBatch | client/src/pages/Dashboard.jsx:68-69 | one summary without id empties the whole OSDR batch |
| Dashboard.OsdrBatchComplete | client/src/pages/Dashboard.jsx:66-91 | when every summary adapts, one record per summary with ids in source order |
| Dashboard.MergedData | client/src/pages/Dashboard.jsx:97 | a failed CSV load leaves just the OSDR batch; otherwise the lengths add up; exactly the leading journal positions hold journal records |
| Dashboard.MergedDataLayout | client/src/pages/Dashboard.jsx:97 | merged data = journal records in row order then OSDR records; length is the sum |
| Dashboard.ApplyPatch | client/src/pages/Dashboard.jsx:153-155 | each key takes the update's value when it carries one, else keeps the previous value |
| Dashboard.PatchProperties | client/src/pages/Dashboard.jsx:153-155 | a filter update overwrites exactly the keys it carries; re-applying it changes nothing; two updates compose |
| Dashboard.SourceMatchByName | client/src/pages/Dashboard.jsx:140-144 | source 'osdr' (any case) keeps exactly OSDR records, 'journal' exactly journal records |
| Dashboard.TextMatchOccurs | client/src/pages/Dashboard.jsx:124-130 | the text stage holds iff the lower-cased term occurs in the lower-cased title, or in a non-empty mission or project title |
| Dashboard.Search | client/src/pages/Dashboard.jsx:121-147 | every result passes all three stages and the results keep the data order |
| Dashboard.SearchCharacterised | client/src/pages/Dashboard.jsx:121-147 | a record is in the search result iff it is in the data and passes all three stages; the result is an order-preserving subsequence |
| Dashboard.SearchIgnoresTermCase | client/src/pages/Dashboard.jsx:124-125 | searching for the lower-cased term gives the same results as the term itself |
| Dashboard.StagedIsSearch | client/src/pages/Dashboard.jsx:121-144 | the three successive filters select the same records in the same order as the single combined test |
| Dashboard.SpaceBiologyEngine.constructor | client/src/pages/Dashboard.jsx:16-27 | initial state: empty data and results, empty term, filters 2000..current year and 'all', loading |
| Dashboard.SpaceBiologyEngine.LoadAndMergeData | client/src/pages/Dashboard.jsx:33-101 | after loading, `allData` is the merged data and loading is over |
| Dashboard.SpaceBiologyEngine.SetSearchTerm | client/src/pages/Dashboard.jsx:18 | the term is replaced |
| Dashboard.SpaceBiologyEngine.HandleFilterChange | client/src/pages/Dashboard.jsx:153-155 | filters become the old filters updated by the patch |
| Dashboard.SpaceBiologyEngine.RunSearch | client/src/pages/Dashboard.jsx:111-151 | nothing changes while loading; empty data gives empty results; otherwise results = the search of the data; `totalResults` = number of results |
| DatasetController.NumberParam | server/controller/DatasetController.js:11-12 | missing, non-numeric and zero parameters fall back; other parsed values are kept |
| DatasetController.LimitOfNumber | server/controller/DatasetController.js:11-12 | a written number reads back as itself, except limit 0 which becomes 10 |
| DatasetController.LimitOfText | server/controller/DatasetController.js:11-12 | a parameter starting with a letter gives limit 10 and offset 0 |
| DatasetController.Slice | server/controller/DatasetController.js:29 | `slice` returns the elements from the resolved start to the resolved end, none when they cross |
| DatasetController.SlicePage | server/controller/DatasetController.js:29 | for non-negative offset and limit the page is the ids at [offset, offset+limit), min(limit, max(0, n-offset)) of them |
| DatasetController.PagesTile | server/controller/DatasetController.js:29 | consecutive pages concatenate to the double-size page |
| DatasetController.DatasetRefs | server/controller/DatasetController.js:20-27 | one reference per entry of the list in key order, none when the list is falsy; fails iff an entry is null |
| DatasetController.RefsOf | server/controller/DatasetController.js:23-27 | each reference keeps its key and the entry's REST_URL |
| DatasetController.SummaryOf | server/controller/DatasetController.js:37-64 | an extracted summary keeps the dataset id |
| DatasetController.ReleaseDay | server/controller/DatasetController.js:53-56 | a numeric timestamp is read as seconds (times 1000 for the calendar); a non-number or invalid date throws RangeError |
| DatasetController.SummaryFallbacks | server/controller/DatasetController.js:41-56 | title = first truthy of publication title, study title, "OSDR Study: <id>"; link = first truthy of project link, REST_URL, "#<id>"; date null iff the release timestamp is falsy |
| DatasetController.DatasetTask | server/controller/DatasetController.js:33-75 | the per-dataset task never fails and keeps the id; a successful extraction is the returned record, and a failed fetch or an extraction that throws gives the placeholder |
| DatasetController.FailedFetchDegrades | server/controller/DatasetController.js:34-74 | a failed metadata fetch, or an extraction that throws (missing entry, null metadata, invalid release date), yields the placeholder titled "OSDR Study: <id> (Metadata Fetch Failed)" with the REST_URL as link |
| DatasetController.GetAllDatasets | server/controller/DatasetController.js:9-90 | a failed list fetch gives its status and the error message, a null entry gives 500, a listed catalogue gives Ok; without query parameters the page is the first min(10, n) datasets, one task each, in order |
| DatasetController.GetAllDatasetsWritten | server/controller/DatasetController.js:11-12 | with a limit that parseInt reads as a positive n and an offset it reads as m >= 0, the reply is the min(n, max(0, count - m)) datasets from position m on, one task each |
| DatasetController.Aggregate | server/controller/DatasetController.js:17-90 | a failed list fetch or a null list entry answers with the status rule and the fixed error text; a listed catalogue is answered Ok; for non-negative offset and limit with min(limit, max(0, n-offset)) records, record k being the task of dataset offset+k and carrying its id |
| DatasetController.PageTasks | server/controller/DatasetController.js:33-75 | one task result per dataset of the page, in page order |
| DatasetController.StatusFor | server/controller/DatasetController.js:85 | the reply status is the upstream status when there is a non-zero one, else 500; never 0 |
| DatasetController.ProxyTarget | server/controller/DatasetController.js:100-101 | the target starts with the OSDR base URL; a URL without "/api/v1" is appended unchanged |
| DatasetController.ProxyTargetShape | server/controller/DatasetController.js:100-101 | a URL without "/api/v1" is forwarded unchanged; a leading "/api/v1" is dropped |
| DatasetController.ProxyDatasetRequest | server/controller/DatasetController.js:94-117 | the upstream JSON verbatim, or the status rule with "Proxy request failed" and the message |
| SearchResults.RenderPagination | client/src/components/Searchresults.jsx:17-67 | the pushed buttons equal `Pagination`: nothing when totalPages <= 1, else Prev, the window's numbers, Next |
| SearchResults.Pagination | client/src/components/Searchresults.jsx:17-67 | nothing iff totalPages <= 1; otherwise Prev first and Next last |
| SearchResults.PaginationLayout | client/src/components/Searchresults.jsx:18-60 | hidden iff totalPages <= 1; otherwise Prev first, Next last, the window's numbers between, length = numbers + 2 |
| SearchResults.WindowBounds | client/src/components/Searchresults.jsx:22-23 | at most 5 numbers, consecutive ascending, within [1, totalPages] and within 2 of the current page |
| SearchResults.CurrentPageShown | client/src/components/Searchresults.jsx:22-23 | a current page in [1, totalPages] is shown and is the only highlighted number |
| SearchResults.PrevNextButtons | client/src/components/Searchresults.jsx:26-35 | Prev targets page-1 and is disabled iff on page 1; Next targets page+1 and is disabled iff on the last page |
| SearchResults.PaginationWithoutProps | client/src/components/Searchresults.jsx:17-67 | without pagination props: an enabled Prev, a disabled Next, no numbers |
| SearchResults.ResultsList | client/src/components/Searchresults.jsx:70-80 | only the loading view while loading; otherwise the header "Results (<n> found)" whose number parses back to totalResults, and the pagination |
| SearchResults.HeaderCount | client/src/components/Searchresults.jsx:79 | the count in "Results (<n> found)" parses back to n |
| Card.AuthorList | client/src/components/Card.jsx:16 | publication_authors if present (even empty), else authors, else empty |
| Card.AuthorsSnippet | client/src/components/Card.jsx:20-22 | "Authors N/A" without authors; ends in " et al." with more than three |
| Card.SnippetShowsFirstThree | client/src/components/Card.jsx:20-22 | no authors gives "Authors N/A"; otherwise the suffix appended after the names is " et al." iff there are more than three (a name may itself end in " et al."), and the text before that suffix splits back into the first min(3, n) names |
| Card.YearLabel | client/src/components/Card.jsx:12 | "N/A" when the date is missing or empty, else the text of the calendar year of the date ("NaN" for an invalid date) |
| Card.Badge | client/src/components/Card.jsx:44-46 | a badge iff the categories are present and non-empty; it shows the first |
| Card.JournalCard | client/src/components/Card.jsx:12-22 | a journal record's card shows its authors, the "General Journal" badge and its year |
| Card.OsdrCard | client/src/components/Card.jsx:16-46 | an OSDR record's card shows its authors and the "Space Biology" badge |
| Details.FormatKey | client/src/pages/Details.jsx:12-16 | no '_' survives and every character is a space or one of the key's (where the spaces go: SpacesBeforeCapitals, FormatKeyUnpadded) |
| Details.SpacesBeforeCapitals | client/src/pages/Details.jsx:13 | on a key without spaces, a character of the spaced key is a space iff a capital follows it; it never starts with a capital |
| Details.DropSpacesOfSpaceBeforeUpper | client/src/pages/Details.jsx:13 | on a key without spaces, dropping the spaces of the spaced key gives the key back |
| Details.FormatKeyUnpadded | client/src/pages/Details.jsx:12-16 | on a key without white space at either end the result is the spaced key with '_' made ' ', less the leading space trim removes when the key starts with a capital ("StudyTitle" gives "Study Title") |
| Details.FormatKeyRoundTrip | client/src/pages/Details.jsx:12-16 | a plain camel-case key only gains spaces before capitals; dropping spaces gives it back |
| Details.FormatKeySnakeCase | client/src/pages/Details.jsx:12-16 | a key without capitals and without white space at either end (e.g. "study title") only has '_' turned into ' ' (trim runs first, so "_id" gives " id") |
| Details.ShownEntries | client/src/pages/Details.jsx:88-97 | nothing for falsy or non-object data; every shown entry passes the entry test; no more entries than the data has |
| Details.MetadataList | client/src/pages/Details.jsx:87-101 | throws on null metadata; "no metadata" iff no entry passes; else one row per shown entry with its formatted key and its value text |
| Details.ShownEntriesCharacterised | client/src/pages/Details.jsx:88-97 | an entry is shown iff the data is an object holding it, its key is not excluded and its value is not an object; arrays are never shown; order kept |
| Details.FileEntries | client/src/pages/Details.jsx:252-259 | one entry per file key: name, URL, REST_URL, type after the last '.'; throws iff a details value is null |
| Details.FilesArray | client/src/pages/Details.jsx:250-263 | no files object gives an empty list; otherwise the entries of the files object |
| Details.FileType | client/src/pages/Details.jsx:257 | the type is the whole name without a '.', else the text after the last '.' |
| Details.CoreMetadata | client/src/pages/Details.jsx:302 | `metadata[osdrId].metadata` when truthy, else the metadata itself |
| Details.Header | client/src/pages/Details.jsx:305-309 | throws iff the core metadata is null; title, authors and description fall back to "Dataset: <id>", "N/A" and "No study description provided." |
| Details.AttemptOf | client/src/pages/Details.jsx:233-266 | a rejected fetch records its message only; files are set iff there is no error, and only with the metadata |
| Details.AttemptOutcomes | client/src/pages/Details.jsx:233-266 | no error iff both responses are ok, both parse and the files can be read, which sets metadata and files; a non-ok response records both statuses and sets nothing |
| Details.OsdrDetailsPage.constructor | client/src/pages/Details.jsx:220-223 | initial state: null metadata, no files, loading, no error |
| Details.OsdrDetailsPage.FetchDatasetDetails | client/src/pages/Details.jsx:225-275 | an empty id changes nothing; otherwise loading ends and error, metadata and files are those of the attempt |
| Details.View | client/src/pages/Details.jsx:277-309 | the loader iff loading; the error page for a non-empty error; else the header, metadata block and files of the current state |
| Details.ViewAfterAttempt | client/src/pages/Details.jsx:277-309 | after an attempt the page shows the error iff the attempt failed, else the fetched files and header |
| Server.OriginCallback | server/server.js:18-26 | allowed iff no error; the error is the fixed CORS message |
| Server.AllowedIffListed | server/server.js:10-15 | a present origin is allowed iff it is one of the four listed strings |
| Server.NoOriginAllowed | server/server.js:20 | a request without Origin is allowed |
| Server.NoTrailingSlashNormalisation | server/server.js:10-25 | "https://jxcorp.github.io/" and "http://localhost:5173/" are refused; "https://jxcorp.github.io" is allowed |

## Left out

- Network I/O (`fetch`, `axios.get`, `res.json`, `res.status`): responses are inputs and each call's outcome is a `Result`; the proxy's forwarding of query parameters is not modelled.
- Concurrency: `Promise.all` is taken as order-preserving; the 300 ms debounce is not modelled, `RunSearch` is the callback run on the latest inputs.
- JavaScript `Date`: years and ISO days come from calendar functions passed as parameters; the OSDR `start_date` is given already resolved (`StartDate`).
- d3-dsv `csvParse`: rows are given as maps from column name to cell text with their index.
- `toLowerCase` is ASCII only; JSON numbers are integers (no fractions, no exponent rendering of huge years).
- Dashboard.StudySummary: summary fields are typed (text or absent); a non-string title, a non-array `publication`, an `id` without `accession` (rendered "undefined") and the null-versus-undefined wording of the TypeError are not modelled.
- DatasetController.ReleaseDay: a truthy release timestamp that is not a number is treated as an invalid date, although JavaScript would coerce numeric strings and booleans.
- DatasetController.GetAllDatasets: the `!== null` filter is the identity (no branch yields null) and is not written out; `console` logging is omitted.
- JsonValues.Lookup: an object with a repeated key answers with its first entry, whereas `JSON.parse` keeps the last; objects are taken to come from parsed JSON, whose keys are distinct.
- Filters.categories is carried in the state but, as in the code, never read by the search.
- Rendering: JSX, Tailwind classes, hover handlers, the sidebar's author join, `FilesGrid`'s display fallbacks and click handlers (`onPageChange`) are not modelled.
- The filter sidebar, header, footer, landing page, layout and routing files are not part of this model.
