/** The dashboard page (client/src/pages/Dashboard.jsx): two adapters that turn a journal CSV
    row and an OSDR study summary into one record shape, the merge of both batches, the
    three-stage search filter, and the component state that holds them. */
module Dashboard {
  import opened Wrappers
  import opened JsStrings
  import opened JsArrays
  import opened JsonValues

  // ---------------------------------------------------------------------------
  // The normalised record
  // ---------------------------------------------------------------------------

  /** Where a record comes from. */
  datatype SourceType = Journal | Osdr {
    /** The `sourceType` string the adapters write. */
    function Name(): string {
      if Journal? then "Journal" else "OSDR"
    }
  }

  /** The record both adapters produce; `projectTitle` is the source's `project_title`.
      `abstractText` (the source's `abstract`) is undefined for an OSDR study without a title. */
  datatype Record = Record(
    id: string,
    title: string,
    documentLink: string,
    publicationDate: string,
    mission: string,
    projectTitle: string,
    sourceType: SourceType,
    authors: seq<string>,
    subjectCategories: seq<string>,
    abstractText: Option<string>)

  /** `v || fallback` for an optional text field: absent and empty text fall back. */
  function TextOr(v: Option<string>, fallback: string): string {
    if v.Some? && v.value != "" then v.value else fallback
  }

  // ---------------------------------------------------------------------------
  // Journal adapter
  // ---------------------------------------------------------------------------

  /** One parsed CSV row: column name to cell text; a column the file lacks is absent. */
  type Row = map<string, string>

  function Cell(row: Row, column: string): Option<string> {
    if column in row then Some(row[column]) else None
  }

  const JournalMission := "N/A (Journal/Publication)"
  const JournalCategory := "General Journal"
  const JournalAbstract := "Journal article abstract not provided in CSV data."

  /** `d.Year ? parseInt(d.Year) : currentYear`; `None` is NaN. */
  function JournalYear(row: Row, currentYear: int): Option<int> {
    if TextOr(Cell(row, "Year"), "") != "" then ParseInt(row["Year"]) else Some(currentYear)
  }

  /** How a possibly-NaN year renders inside a template literal. */
  function YearText(year: Option<int>): string {
    match year
    case Some(y) => IntToString(y)
    case None => "NaN"
  }

  /** `d.Authors ? d.Authors.split(';') : []`: the pieces re-join to the cell and hold no ';'. */
  function JournalAuthors(row: Row): (r: seq<string>)
    ensures TextOr(Cell(row, "Authors"), "") != "" ==> Join(r, ";") == row["Authors"]
    ensures TextOr(Cell(row, "Authors"), "") == "" ==> r == []
    ensures forall k :: 0 <= k < |r| ==> ';' !in r[k]
  {
    if TextOr(Cell(row, "Authors"), "") != "" then
      var cell := row["Authors"];
      JoinSplit(cell, ';');
      SplitPiecesFree(cell, ';');
      Split(cell, ';')
    else []
  }

  /** `${journalYear}-01-01`: the year, or "NaN", followed by "-01-01"; the year parses back. */
  function JournalDate(year: Option<int>): (d: string)
    ensures |d| >= 6 && d[|d| - 6..] == "-01-01"
    ensures year.Some? ==> ParseInt(d) == year
    ensures year.None? ==> d == "NaN-01-01"
  {
    YearDateParses(year);
    YearText(year) + "-01-01"
  }

  lemma YearDateParses(year: Option<int>)
    ensures year.Some? ==> ParseInt(YearText(year) + "-01-01") == year
  {
    if year.Some? {
      ParseIntOfIntToString(year.value, "-01-01");
    }
  }

  /** The csvParse row callback: row `i` of the journal CSV as a record. Each text cell that is
      missing or empty falls back to its placeholder; a row without a year takes the current
      year, and a year cell that does not parse renders as "NaN". */
  function AdaptJournalRow(row: Row, i: nat, currentYear: int): (r: Record)
    ensures r.id == "journal-" + NatToString(i)
    ensures r.sourceType == Journal
    ensures Cell(row, "Title").Some? && row["Title"] != "" ==> r.title == row["Title"]
    ensures !(Cell(row, "Title").Some? && row["Title"] != "") ==> r.title == "N/A Title"
    ensures Cell(row, "Link").Some? && row["Link"] != "" ==> r.documentLink == row["Link"]
    ensures !(Cell(row, "Link").Some? && row["Link"] != "") ==> r.documentLink == "#"
    ensures Cell(row, "JournalName").Some? && row["JournalName"] != "" ==> r.projectTitle == row["JournalName"]
    ensures !(Cell(row, "JournalName").Some? && row["JournalName"] != "") ==> r.projectTitle == "N/A Journal"
    ensures |r.publicationDate| >= 6 && r.publicationDate[|r.publicationDate| - 6..] == "-01-01"
    ensures JournalYear(row, currentYear).Some? ==> ParseInt(r.publicationDate) == JournalYear(row, currentYear)
    ensures JournalYear(row, currentYear).None? ==> r.publicationDate == "NaN-01-01"
    ensures !(Cell(row, "Year").Some? && row["Year"] != "") ==> r.publicationDate == IntToString(currentYear) + "-01-01"
    ensures Cell(row, "Authors").Some? && row["Authors"] != "" ==> Join(r.authors, ";") == row["Authors"]
    ensures !(Cell(row, "Authors").Some? && row["Authors"] != "") ==> r.authors == []
    ensures forall k :: 0 <= k < |r.authors| ==> ';' !in r.authors[k]
    ensures r.mission == JournalMission
    ensures r.subjectCategories == [JournalCategory]
    ensures r.abstractText == Some(JournalAbstract)
  {
    Record(
      id := "journal-" + NatToString(i),
      title := TextOr(Cell(row, "Title"), "N/A Title"),
      documentLink := TextOr(Cell(row, "Link"), "#"),
      publicationDate := JournalDate(JournalYear(row, currentYear)),
      mission := JournalMission,
      projectTitle := TextOr(Cell(row, "JournalName"), "N/A Journal"),
      sourceType := Journal,
      authors := JournalAuthors(row),
      subjectCategories := [JournalCategory],
      abstractText := Some(JournalAbstract))
  }

  /** All rows of the journal CSV, adapted in row order. */
  function JournalBatch(rows: seq<Row>, currentYear: int): (r: seq<Record>)
    ensures |r| == |rows|
    ensures forall i :: 0 <= i < |rows| ==> r[i] == AdaptJournalRow(rows[i], i, currentYear)
  {
    seq(|rows|, i requires 0 <= i < |rows| => AdaptJournalRow(rows[i], i, currentYear))
  }

  /** Journal records carry pairwise distinct ids, since each embeds its own row index. */
  lemma JournalIdsDistinct(rows: seq<Row>, currentYear: int, i: nat, j: nat)
    requires i < j < |rows|
    ensures JournalBatch(rows, currentYear)[i].id != JournalBatch(rows, currentYear)[j].id
  {
    var batch := JournalBatch(rows, currentYear);
    if batch[i].id == batch[j].id {
      var prefix := "journal-";
      assert batch[i].id == prefix + NatToString(i);
      assert batch[j].id == prefix + NatToString(j);
      assert NatToString(i) == batch[i].id[|prefix|..];
      assert NatToString(j) == batch[j].id[|prefix|..];
      assert IntToString(i) == NatToString(i) && IntToString(j) == NatToString(j);
      IntToStringInjective(i, j);
    }
  }

  // ---------------------------------------------------------------------------
  // OSDR adapter
  // ---------------------------------------------------------------------------

  /** The `id` object of a study summary. */
  datatype StudyId = StudyId(accession: string)

  /** The `mission` object of a study summary. */
  datatype MissionInfo = MissionInfo(name: Option<string>)

  /** A truthy `start_date`, resolved through `new Date(...).toISOString()`: the date part of
      the ISO string, or an invalid date on which `toISOString` throws. */
  datatype StartDate = ValidDate(isoDay: string) | InvalidDate

  /** A publication's `'author list'`: an array of names or a single name. */
  datatype AuthorList = AuthorNames(names: seq<string>) | AuthorName(name: string)

  datatype Publication = Publication(authorList: Option<AuthorList>)

  /** One entry of the snapshot's `results`. `startDate` is `None` when `start_date` is absent
      or falsy. */
  datatype StudySummary = StudySummary(
    id: Option<StudyId>,
    studyTitle: Option<string>,
    mission: Option<MissionInfo>,
    restUrl: Option<string>,
    startDate: Option<StartDate>,
    projectTitle: Option<string>,
    organism: Option<string>,
    publication: Option<seq<Publication>>)

  const OsdrStudyPage := "https://osdr.nasa.gov/bio/repo/data/studies/"
  const DefaultStudyDate := "2010-01-01"
  const SpaceBiology := "Space Biology"

  /** What `flatMap(p => p['author list'])` contributes for one publication; `None` is an
      undefined element. */
  function AuthorEntries(p: Publication): seq<Option<string>> {
    match p.authorList
    case None => [None]
    case Some(AuthorNames(names)) => seq(|names|, k requires 0 <= k < |names| => Some(names[k]))
    case Some(AuthorName(name)) => [Some(name)]
  }

  /** `publication.flatMap(p => p['author list'])`. */
  function FlatAuthors(pubs: seq<Publication>): seq<Option<string>>
    decreases |pubs|
  {
    if |pubs| == 0 then [] else AuthorEntries(pubs[0]) + FlatAuthors(pubs[1..])
  }

  /** The test of `.filter(a => a)` on an author entry: defined and not empty. */
  predicate TruthyName(a: Option<string>) {
    a.Some? && a.value != ""
  }

  /** `.filter(a => a)`: the defined, non-empty names, in order and with their repetitions. */
  function TruthyNames(xs: seq<Option<string>>): (r: seq<string>)
    ensures |r| == |Filter(xs, TruthyName)|
    ensures forall k :: 0 <= k < |r| ==> Filter(xs, TruthyName)[k] == Some(r[k])
    ensures forall k :: 0 <= k < |r| ==> r[k] != ""
    ensures forall name :: name in r <==> name != "" && Some(name) in xs
    decreases |xs|
  {
    if |xs| == 0 then []
    else
      var rest := TruthyNames(xs[1..]);
      assert xs == [xs[0]] + xs[1..];
      if TruthyName(xs[0]) then
        assert Filter(xs, TruthyName) == [xs[0]] + Filter(xs[1..], TruthyName);
        [xs[0].value] + rest
      else
        rest
  }

  /** `p['author list']` names `name`. */
  predicate ListsAuthor(p: Publication, name: string) {
    match p.authorList
    case Some(AuthorNames(names)) => name in names
    case Some(AuthorName(n)) => n == name
    case None => false
  }

  /** A name is among the flattened author lists exactly when some publication lists it. */
  lemma {:induction false} FlatAuthorsMembership(pubs: seq<Publication>, name: string)
    ensures Some(name) in FlatAuthors(pubs) <==> exists k :: 0 <= k < |pubs| && ListsAuthor(pubs[k], name)
    decreases |pubs|
  {
    if |pubs| > 0 {
      FlatAuthorsMembership(pubs[1..], name);
      var here := AuthorEntries(pubs[0]);
      assert Some(name) in here <==> ListsAuthor(pubs[0], name) by {
        match pubs[0].authorList
        case Some(AuthorNames(names)) =>
          if name in names {
            var i :| 0 <= i < |names| && names[i] == name;
            assert here[i] == Some(name);
          }
        case Some(AuthorName(n)) =>
        case None =>
      }
      if exists k :: 0 <= k < |pubs| && ListsAuthor(pubs[k], name) {
        var k :| 0 <= k < |pubs| && ListsAuthor(pubs[k], name);
        if k > 0 {
          assert pubs[1..][k - 1] == pubs[k];
        }
      }
      if exists k :: 0 <= k < |pubs[1..]| && ListsAuthor(pubs[1..][k], name) {
        var k :| 0 <= k < |pubs[1..]| && ListsAuthor(pubs[1..][k], name);
        assert pubs[k + 1] == pubs[1..][k];
      }
    }
  }

  /** An adapted study's authors are exactly the non-empty names its publications list, in the
      order `flatMap` lists them and with their repetitions. */
  lemma StudyAuthors(s: StudySummary, name: string)
    requires AdaptStudy(s).Success? && s.publication.Some?
    ensures var shown := Filter(FlatAuthors(s.publication.value), TruthyName);
      && |AdaptStudy(s).value.authors| == |shown|
      && forall k :: 0 <= k < |shown| ==> shown[k] == Some(AdaptStudy(s).value.authors[k])
    ensures name in AdaptStudy(s).value.authors <==>
      name != "" && exists k :: 0 <= k < |s.publication.value| && ListsAuthor(s.publication.value[k], name)
  {
    FlatAuthorsMembership(s.publication.value, name);
  }

  /** `['Space Biology', organism].filter(Boolean)`. */
  function StudyCategories(organism: Option<string>): seq<string> {
    if organism.Some? && organism.value != "" then [SpaceBiology, organism.value] else [SpaceBiology]
  }

  /** The map callback over the snapshot's `results`. A summary without `id` throws a
      TypeError, an invalid `start_date` a RangeError. */
  function AdaptStudy(s: StudySummary): (r: Result<Record, JsError>)
    ensures r.Failure? <==> s.id.None? || s.startDate == Some(InvalidDate)
    ensures r.Success? ==> r.value.id == s.id.value.accession && r.value.sourceType == Osdr
    ensures r.Success? ==> r.value.title == TextOr(s.studyTitle, "OSDR Study: " + s.id.value.accession)
    ensures r.Success? ==> r.value.projectTitle == TextOr(s.projectTitle, r.value.title)
    ensures r.Success? ==> r.value.mission == TextOr(MissionName(s), "Unknown Mission")
    ensures r.Success? ==> r.value.documentLink == TextOr(s.restUrl, OsdrStudyPage + s.id.value.accession)
    ensures r.Success? && s.startDate.None? ==> r.value.publicationDate == DefaultStudyDate
    ensures r.Success? && s.startDate.Some? ==> r.value.publicationDate == s.startDate.value.isoDay
    ensures r.Success? && s.organism.Some? && s.organism.value != "" ==>
      r.value.subjectCategories == [SpaceBiology, s.organism.value]
    ensures r.Success? && !(s.organism.Some? && s.organism.value != "") ==>
      r.value.subjectCategories == [SpaceBiology]
    ensures r.Success? && s.publication.Some? ==> r.value.authors == TruthyNames(FlatAuthors(s.publication.value))
    ensures r.Success? && s.publication.None? ==> r.value.authors == []
    ensures r.Success? ==> forall k :: 0 <= k < |r.value.authors| ==> r.value.authors[k] != ""
    ensures r.Success? ==> r.value.abstractText == s.studyTitle
  {
    match s.id
    case None => Failure(ReadOfNullish("accession", false))
    case Some(studyId) =>
      var accession := studyId.accession;
      match s.startDate
      case Some(InvalidDate) => Failure(InvalidTimeValue)
      case Some(ValidDate(isoDay)) => Success(StudyRecord(s, accession, isoDay))
      case None => Success(StudyRecord(s, accession, DefaultStudyDate))
  }

  /** `studySummary.mission?.name`. */
  function MissionName(s: StudySummary): Option<string> {
    if s.mission.Some? then s.mission.value.name else None
  }

  /** The record built for a summary with accession `accession` once its date is known. */
  function StudyRecord(s: StudySummary, accession: string, publicationDate: string): Record {
    var studyTitle := TextOr(s.studyTitle, "OSDR Study: " + accession);
    Record(
      id := accession,
      title := studyTitle,
      documentLink := TextOr(s.restUrl, OsdrStudyPage + accession),
      publicationDate := publicationDate,
      mission := TextOr(MissionName(s), "Unknown Mission"),
      projectTitle := TextOr(s.projectTitle, studyTitle),
      sourceType := Osdr,
      authors := if s.publication.Some? then TruthyNames(FlatAuthors(s.publication.value)) else [],
      subjectCategories := StudyCategories(s.organism),
      abstractText := s.studyTitle)
  }

  /** `results.map(adapter)`: the records in order, or the first exception thrown. */
  function AdaptAll(summaries: seq<StudySummary>): (r: Result<seq<Record>, JsError>)
    ensures r.Success? ==> |r.value| == |summaries|
    ensures r.Success? ==> forall k :: 0 <= k < |summaries| ==> AdaptStudy(summaries[k]) == Success(r.value[k])
    ensures r.Failure? <==> exists k :: 0 <= k < |summaries| && AdaptStudy(summaries[k]).Failure?
    decreases |summaries|
  {
    if |summaries| == 0 then Success([])
    else
      match AdaptStudy(summaries[0])
      case Failure(e) => Failure(e)
      case Success(first) =>
        match AdaptAll(summaries[1..])
        case Failure(e) =>
          assert forall k :: 1 <= k < |summaries| ==> summaries[k] == summaries[1..][k - 1];
          Failure(e)
        case Success(rest) =>
          assert forall k :: 1 <= k < |summaries| ==> summaries[k] == summaries[1..][k - 1];
          Success([first] + rest)
  }

  /** The OSDR batch: no records when the snapshot has no `results`, and none at all when
      any one summary makes the adapter throw (the exception is caught around the whole map). */
  function OsdrBatch(results: Option<seq<StudySummary>>): (r: seq<Record>)
    ensures results.None? ==> r == []
    ensures results.Some? && (exists k :: 0 <= k < |results.value| && AdaptStudy(results.value[k]).Failure?) ==> r == []
    ensures results.Some? && (forall k :: 0 <= k < |results.value| ==> AdaptStudy(results.value[k]).Success?) ==>
      && |r| == |results.value|
      && forall k :: 0 <= k < |r| ==> AdaptStudy(results.value[k]) == Success(r[k])
  {
    match results
    case None => []
    case Some(summaries) =>
      match AdaptAll(summaries)
      case Success(records) => records
      case Failure(_) => []
  }

  /** One summary without `id` empties the whole OSDR batch. */
  lemma MissingIdEmptiesBatch(summaries: seq<StudySummary>, k: nat)
    requires k < |summaries| && summaries[k].id.None?
    ensures OsdrBatch(Some(summaries)) == []
  {
    assert AdaptStudy(summaries[k]).Failure?;
  }

  /** When every summary adapts, the batch has one record per summary, ids in source order. */
  lemma OsdrBatchComplete(summaries: seq<StudySummary>)
    requires forall k :: 0 <= k < |summaries| ==> summaries[k].id.Some? && summaries[k].startDate != Some(InvalidDate)
    ensures |OsdrBatch(Some(summaries))| == |summaries|
    ensures forall k :: 0 <= k < |summaries| ==>
      OsdrBatch(Some(summaries))[k].id == summaries[k].id.value.accession
  {
  }

  // ---------------------------------------------------------------------------
  // Merge
  // ---------------------------------------------------------------------------

  /** `[...journalData, ...osdData]`, where a journal load that failed (`None`) contributes nothing. */
  function MergedData(journalRows: Option<seq<Row>>, osdResults: Option<seq<StudySummary>>, currentYear: int): (r: seq<Record>)
    ensures journalRows.None? ==> r == OsdrBatch(osdResults)
    ensures journalRows.Some? ==> |r| == |journalRows.value| + |OsdrBatch(osdResults)|
    ensures forall k :: 0 <= k < |r| ==> (r[k].sourceType == Journal <==> journalRows.Some? && k < |journalRows.value|)
  {
    var journalData := if journalRows.Some? then JournalBatch(journalRows.value, currentYear) else [];
    journalData + OsdrBatch(osdResults)
  }

  /** The merged collection is the journal records in row order followed by the OSDR records;
      an OSDR failure never costs a journal record. */
  lemma MergedDataLayout(rows: seq<Row>, osdResults: Option<seq<StudySummary>>, currentYear: int)
    ensures var all := MergedData(Some(rows), osdResults, currentYear);
      && |all| == |rows| + |OsdrBatch(osdResults)|
      && (forall k :: 0 <= k < |rows| ==> all[k] == AdaptJournalRow(rows[k], k, currentYear))
      && (forall k :: 0 <= k < |OsdrBatch(osdResults)| ==> all[|rows| + k] == OsdrBatch(osdResults)[k])
      && (forall k :: 0 <= k < |rows| ==> all[k].sourceType == Journal)
  {
    var all := MergedData(Some(rows), osdResults, currentYear);
    var journalData := JournalBatch(rows, currentYear);
    var osdData := OsdrBatch(osdResults);
    assert all == journalData + osdData;
    forall k | 0 <= k < |rows|
      ensures all[k] == AdaptJournalRow(rows[k], k, currentYear)
      ensures all[k].sourceType == Journal
    {
      assert all[k] == journalData[k];
    }
    forall k | 0 <= k < |osdData|
      ensures all[|rows| + k] == osdData[k]
    {
    }
  }

  /** A row written from a year and a list of author names (joined with ';', none containing
      ';') adapts to a record carrying that list and the year as "<year>-01-01". */
  lemma JournalRowRoundTrip(row: Row, i: nat, currentYear: int, year: int, names: seq<string>)
    requires "Year" in row && row["Year"] == IntToString(year)
    requires "Authors" in row && row["Authors"] == Join(names, ";") && row["Authors"] != ""
    requires |names| >= 1 && forall k :: 0 <= k < |names| ==> ';' !in names[k]
    ensures AdaptJournalRow(row, i, currentYear).authors == names
    ensures AdaptJournalRow(row, i, currentYear).publicationDate == IntToString(year) + "-01-01"
  {
    var r := AdaptJournalRow(row, i, currentYear);
    assert r.authors == JournalAuthors(row) && r.publicationDate == JournalDate(JournalYear(row, currentYear));
    WrittenYear(row, currentYear, year);
    WrittenAuthors(row, names);
  }

  /** An Authors cell written by joining names with ';' splits back into those names. */
  lemma WrittenAuthors(row: Row, names: seq<string>)
    requires "Authors" in row && row["Authors"] == Join(names, ";") && row["Authors"] != ""
    requires |names| >= 1 && forall k :: 0 <= k < |names| ==> ';' !in names[k]
    ensures JournalAuthors(row) == names
  {
    assert ";" == [';'];
    SplitOfJoin(names, ';');
  }

  /** A Year cell written from `year` parses back to it. */
  lemma WrittenYear(row: Row, currentYear: int, year: int)
    requires "Year" in row && row["Year"] == IntToString(year)
    ensures JournalYear(row, currentYear) == Some(year)
  {
    assert IntToString(year) != "" by { NatToStringLeadingDigit(if year < 0 then -year else year); }
    ParseIntOfIntToString(year, "");
    assert IntToString(year) + "" == IntToString(year);
  }

  // ---------------------------------------------------------------------------
  // Filters and the search pipeline
  // ---------------------------------------------------------------------------

  /** The `filters` state. `categories` is kept but never read by the search. */
  datatype Filters = Filters(categories: seq<string>, yearStart: int, yearEnd: int, source: string)

  /** The filters the page starts with. */
  function InitialFilters(currentYear: int): Filters {
    Filters([], 2000, currentYear, "all")
  }

  /** A partial update handed to `handleFilterChange`; `None` marks a key it does not carry. */
  datatype FilterPatch = FilterPatch(
    categories: Option<seq<string>>,
    yearStart: Option<int>,
    yearEnd: Option<int>,
    source: Option<string>)

  /** `{ ...prev, ...newFilters }`. */
  function ApplyPatch(prev: Filters, patch: FilterPatch): (r: Filters)
    ensures r.categories == if patch.categories.Some? then patch.categories.value else prev.categories
    ensures r.yearStart == if patch.yearStart.Some? then patch.yearStart.value else prev.yearStart
    ensures r.yearEnd == if patch.yearEnd.Some? then patch.yearEnd.value else prev.yearEnd
    ensures r.source == if patch.source.Some? then patch.source.value else prev.source
  {
    Filters(
      patch.categories.GetOr(prev.categories),
      patch.yearStart.GetOr(prev.yearStart),
      patch.yearEnd.GetOr(prev.yearEnd),
      patch.source.GetOr(prev.source))
  }

  /** The update of two successive patches: the later one wins on the keys it carries. */
  function ThenPatch(first: FilterPatch, second: FilterPatch): FilterPatch {
    FilterPatch(
      if second.categories.Some? then second.categories else first.categories,
      if second.yearStart.Some? then second.yearStart else first.yearStart,
      if second.yearEnd.Some? then second.yearEnd else first.yearEnd,
      if second.source.Some? then second.source else first.source)
  }

  /** A patch overwrites exactly the keys it carries; applying it again changes nothing, and two
      successive patches act as their combination. */
  lemma PatchProperties(prev: Filters, p: FilterPatch, q: FilterPatch)
    ensures p.source.None? ==> ApplyPatch(prev, p).source == prev.source
    ensures p.source.Some? ==> ApplyPatch(prev, p).source == p.source.value
    ensures p.yearStart.None? ==> ApplyPatch(prev, p).yearStart == prev.yearStart
    ensures p.yearEnd.None? ==> ApplyPatch(prev, p).yearEnd == prev.yearEnd
    ensures p.categories.None? ==> ApplyPatch(prev, p).categories == prev.categories
    ensures ApplyPatch(ApplyPatch(prev, p), p) == ApplyPatch(prev, p)
    ensures ApplyPatch(ApplyPatch(prev, p), q) == ApplyPatch(prev, ThenPatch(p, q))
  {
  }

  /** Stage 1, with the term already lower-cased: title, mission or project title contains it.
      A falsy mission or project title is skipped. */
  predicate TextMatch(item: Record, lowerTerm: string) {
    || Includes(Lower(item.title), lowerTerm)
    || (item.mission != "" && Includes(Lower(item.mission), lowerTerm))
    || (item.projectTitle != "" && Includes(Lower(item.projectTitle), lowerTerm))
  }

  /** Stage 2: `new Date(publicationDate).getFullYear()` lies in `[yearStart, yearEnd]`; a NaN
      year (`yearOf` gives `None`) fails both comparisons. */
  predicate InYearRange(item: Record, f: Filters, yearOf: string -> Option<int>) {
    match yearOf(item.publicationDate)
    case Some(y) => f.yearStart <= y <= f.yearEnd
    case None => false
  }

  /** Stage 3, for a source other than 'all': the source type equals it, case-insensitively. */
  predicate SourceMatch(item: Record, source: string) {
    Lower(item.sourceType.Name()) == Lower(source)
  }

  /** The source filter 'osdr' (any letter case) keeps exactly the OSDR records, and
      'journal' exactly the journal records. */
  lemma SourceMatchByName(item: Record, source: string)
    ensures Lower(source) == "osdr" ==> (SourceMatch(item, source) <==> item.sourceType == Osdr)
    ensures Lower(source) == "journal" ==> (SourceMatch(item, source) <==> item.sourceType == Journal)
  {
    assert Lower("OSDR") == "osdr";
    assert Lower("Journal") == "journal";
  }

  /** Stage 1 holds exactly when the lower-cased term occurs at some position of the lower-cased
      title, of the non-empty mission or of the non-empty project title. */
  lemma TextMatchOccurs(item: Record, lowerTerm: string)
    ensures TextMatch(item, lowerTerm) <==>
      || (exists i :: 0 <= i <= |Lower(item.title)| && StartsWith(Lower(item.title)[i..], lowerTerm))
      || (item.mission != "" && exists i :: 0 <= i <= |Lower(item.mission)| && StartsWith(Lower(item.mission)[i..], lowerTerm))
      || (item.projectTitle != "" && exists i :: 0 <= i <= |Lower(item.projectTitle)| && StartsWith(Lower(item.projectTitle)[i..], lowerTerm))
  {
    IncludesIffOccurs(Lower(item.title), lowerTerm);
    IncludesIffOccurs(Lower(item.mission), lowerTerm);
    IncludesIffOccurs(Lower(item.projectTitle), lowerTerm);
  }

  /** The single test a record must pass to be shown: all three stages, each stage being
      vacuous when its input is empty (`term`) or 'all' (`source`). */
  predicate Selected(item: Record, term: string, f: Filters, yearOf: string -> Option<int>) {
    && (term == "" || TextMatch(item, Lower(term)))
    && InYearRange(item, f, yearOf)
    && (f.source == "all" || SourceMatch(item, f.source))
  }

  /** The reference result of the search: every record that passes `Selected`, in order. */
  function Search(all: seq<Record>, term: string, f: Filters, yearOf: string -> Option<int>): (r: seq<Record>)
    ensures forall k :: 0 <= k < |r| ==> Selected(r[k], term, f, yearOf)
    ensures IsSubsequence(r, all)
  {
    FilterIsSubsequence(all, item => Selected(item, term, f, yearOf));
    Filter(all, item => Selected(item, term, f, yearOf))
  }

  /** The search keeps exactly the selected records and keeps them in their original order. */
  lemma SearchCharacterised(all: seq<Record>, term: string, f: Filters, yearOf: string -> Option<int>, x: Record)
    ensures x in Search(all, term, f, yearOf) <==> x in all && Selected(x, term, f, yearOf)
    ensures IsSubsequence(Search(all, term, f, yearOf), all)
  {
    FilterMembership(all, item => Selected(item, term, f, yearOf), x);
    FilterIsSubsequence(all, item => Selected(item, term, f, yearOf));
  }

  /** The term is lower-cased before it is compared, so its letter case does not matter. */
  lemma SearchIgnoresTermCase(all: seq<Record>, term: string, f: Filters, yearOf: string -> Option<int>)
    ensures Search(all, Lower(term), f, yearOf) == Search(all, term, f, yearOf)
  {
    LowerIdempotent(term);
    assert Lower(term) == "" <==> term == "";
    FilterSameTest(all, item => Selected(item, Lower(term), f, yearOf), item => Selected(item, term, f, yearOf));
  }

  /** The three stages as the effect runs them, one `filter` after the other, select the same
      records in the same order as the single test `Selected`. */
  lemma StagedIsSearch(all: seq<Record>, term: string, f: Filters, yearOf: string -> Option<int>)
    ensures
      var lowerTerm := Lower(term);
      var afterText := if term != "" then Filter(all, item => TextMatch(item, lowerTerm)) else all;
      var afterYear := Filter(afterText, item => InYearRange(item, f, yearOf));
      var afterSource := if f.source != "all" then Filter(afterYear, item => SourceMatch(item, f.source)) else afterYear;
      afterSource == Search(all, term, f, yearOf)
  {
    var lowerTerm := Lower(term);
    var text := (item: Record) => term == "" || TextMatch(item, lowerTerm);
    var year := (item: Record) => InYearRange(item, f, yearOf);
    var source := (item: Record) => f.source == "all" || SourceMatch(item, f.source);
    var textYear := (item: Record) => text(item) && year(item);
    var all3 := (item: Record) => Selected(item, term, f, yearOf);
    var afterText := if term != "" then Filter(all, item => TextMatch(item, lowerTerm)) else all;
    if term != "" {
      FilterSameTest(all, item => TextMatch(item, lowerTerm), text);
    } else {
      FilterKeepsAll(all, text);
    }
    assert afterText == Filter(all, text);
    FilterFuse(all, text, year, textYear);
    var afterYear := Filter(afterText, year);
    if f.source != "all" {
      FilterSameTest(afterYear, item => SourceMatch(item, f.source), source);
    } else {
      FilterKeepsAll(afterYear, source);
    }
    FilterFuse(all, textYear, source, all3);
  }

  // ---------------------------------------------------------------------------
  // The component state
  // ---------------------------------------------------------------------------

  /** The state of the SpaceBiologyEngine component. */
  class SpaceBiologyEngine {
    var allData: seq<Record>
    var results: seq<Record>
    var searchTerm: string
    var filters: Filters
    var isLoading: bool
    var totalResults: int

    /** `totalResults` always reports the length of `results`. */
    ghost predicate Valid()
      reads this
    {
      totalResults == |results|
    }

    /** The initial `useState` values; `currentYear` is `new Date().getFullYear()`. */
    constructor (currentYear: int)
      ensures Valid()
      ensures allData == [] && results == [] && searchTerm == "" && isLoading && totalResults == 0
      ensures filters == InitialFilters(currentYear)
    {
      allData := [];
      results := [];
      searchTerm := "";
      filters := InitialFilters(currentYear);
      isLoading := true;
      totalResults := 0;
    }

    /** The load effect: adapt both sources, merge them and leave the loading state. A journal
        load that threw is `None`; `osdResults` is the snapshot's `results` key. */
    method LoadAndMergeData(journalRows: Option<seq<Row>>, osdResults: Option<seq<StudySummary>>, currentYear: int)
      requires Valid()
      modifies this`allData, this`isLoading
      ensures Valid()
      ensures allData == MergedData(journalRows, osdResults, currentYear)
      ensures !isLoading
    {
      isLoading := true;
      var journalData: seq<Record> := [];
      if journalRows.Some? {
        journalData := JournalBatch(journalRows.value, currentYear);
      }
      var osdData: seq<Record> := [];
      if osdResults.Some? {
        var mapped := AdaptAll(osdResults.value);
        if mapped.Success? {
          osdData := mapped.value;
        }
      }
      allData := journalData + osdData;
      isLoading := false;
    }

    /** `setSearchTerm`, as the header's search box calls it. */
    method SetSearchTerm(term: string)
      modifies this`searchTerm
      ensures searchTerm == term
    {
      searchTerm := term;
    }

    /** `handleFilterChange`: merge a partial update into the filters. */
    method HandleFilterChange(patch: FilterPatch)
      modifies this`filters
      ensures filters == ApplyPatch(old(filters), patch)
    {
      filters := ApplyPatch(filters, patch);
    }

    /** The debounced search effect, run on the latest inputs. While loading it does nothing;
        with no data it clears the results; otherwise it runs the three stages. */
    method RunSearch(yearOf: string -> Option<int>)
      requires Valid()
      modifies this`results, this`totalResults
      ensures Valid()
      ensures isLoading ==> results == old(results)
      ensures !isLoading && allData == [] ==> results == []
      ensures !isLoading && allData != [] ==> results == Search(allData, searchTerm, filters, yearOf)
    {
      if isLoading || |allData| == 0 {
        if !isLoading && |allData| == 0 {
          results := [];
          totalResults := 0;
        }
        return;
      }
      var term := searchTerm;
      var f := filters;
      var filtered := allData;
      if term != "" {
        var lowerSearchTerm := Lower(term);
        filtered := Filter(filtered, item => TextMatch(item, lowerSearchTerm));
      }
      filtered := Filter(filtered, item => InYearRange(item, f, yearOf));
      if f.source != "all" {
        filtered := Filter(filtered, item => SourceMatch(item, f.source));
      }
      StagedIsSearch(allData, term, f, yearOf);
      results := filtered;
      totalResults := |filtered|;
    }
  }
}
