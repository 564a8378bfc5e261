/** The paper card (client/src/components/Card.jsx): which author list it reads, the author
    snippet, the year label and the category badge. */
module Card {
  import opened Wrappers
  import opened JsStrings
  import opened Dashboard

  /** The fields of `paper` the card reads; an absent field is `None`. The card also reads
      `publication_authors`, which neither adapter writes. */
  datatype Paper = Paper(
    publicationDate: Option<string>,
    publicationAuthors: Option<seq<string>>,
    authors: Option<seq<string>>,
    subjectCategories: Option<seq<string>>)

  /** `paper.publication_authors || paper.authors || []`: an array is truthy even when empty, so
      the first list present wins. */
  function AuthorList(p: Paper): (r: seq<string>)
    ensures p.publicationAuthors.Some? ==> r == p.publicationAuthors.value
    ensures p.publicationAuthors.None? && p.authors.Some? ==> r == p.authors.value
    ensures p.publicationAuthors.None? && p.authors.None? ==> r == []
  {
    if p.publicationAuthors.Some? then p.publicationAuthors.value
    else if p.authors.Some? then p.authors.value
    else []
  }

  const EtAl := " et al."
  const NoAuthors := "Authors N/A"

  /** How many authors the snippet names. */
  function ShownCount(n: nat): nat { if n > 3 then 3 else n }

  /** `authorList.slice(0, 3).join(', ') + (length > 3 ? ' et al.' : '')`, or "Authors N/A" for
      an empty list. */
  function AuthorsSnippet(list: seq<string>): (r: string)
    ensures |list| == 0 ==> r == NoAuthors
    ensures |list| > 3 ==> |r| >= |EtAl| && r[|r| - |EtAl|..] == EtAl
  {
    if |list| > 0 then Join(list[..ShownCount(|list|)], ", ") + (if |list| > 3 then EtAl else "")
    else NoAuthors
  }

  /** With no authors the snippet is "Authors N/A". Otherwise the suffix appended after the
      names is " et al." exactly when there are more than three authors (a name may itself end
      in " et al.", so the snippet's ending alone does not tell), and what precedes that suffix
      splits at the commas back into the first `min(3, n)` names (each after the first still led
      by its space), provided no name contains a comma. */
  lemma SnippetShowsFirstThree(list: seq<string>)
    requires forall k :: 0 <= k < |list| ==> ',' !in list[k]
    ensures |list| == 0 ==> AuthorsSnippet(list) == NoAuthors
    ensures |list| > 0 ==>
      var suffix := if |list| > 3 then EtAl else "";
      var snippet := AuthorsSnippet(list);
      && |suffix| <= |snippet|
      && snippet[|snippet| - |suffix|..] == suffix
      && var pieces := Split(snippet[..|snippet| - |suffix|], ',');
         && |pieces| == ShownCount(|list|)
         && pieces[0] == list[0]
         && (forall k :: 1 <= k < |pieces| ==> pieces[k] == " " + list[k])
  {
    if |list| > 0 {
      var shown := list[..ShownCount(|list|)];
      var suffix := if |list| > 3 then EtAl else "";
      var joined := Join(shown, ", ");
      var snippet := AuthorsSnippet(list);
      assert snippet == joined + suffix;
      assert snippet[..|snippet| - |suffix|] == joined;
      assert snippet[|snippet| - |suffix|..] == suffix;
      assert ", " == [','] + " ";
      SplitJoin(shown, ',', " ");
      var pieces := Split(joined, ',');
      assert pieces == [shown[0]] + PrefixEach(" ", shown[1..]);
      forall k | 1 <= k < |pieces|
        ensures pieces[k] == " " + list[k]
      {
        PrefixEachAt(" ", shown[1..], k - 1);
      }
    }
  }

  /** The element `k` of `PrefixEach(t, xs)`. */
  lemma {:induction false} PrefixEachAt(t: string, xs: seq<string>, k: nat)
    requires k < |xs|
    ensures PrefixEach(t, xs)[k] == t + xs[k]
    decreases k
  {
    if k > 0 {
      PrefixEachAt(t, xs[1..], k - 1);
    }
  }

  /** `publicationDate ? new Date(publicationDate).getFullYear() : 'N/A'`, with `yearOf` the
      calendar (`None` is the NaN of an invalid date). */
  function YearLabel(p: Paper, yearOf: string -> Option<int>): (r: string)
    ensures p.publicationDate.None? || p.publicationDate == Some("") ==> r == "N/A"
    ensures p.publicationDate.Some? && p.publicationDate.value != "" ==> r == YearText(yearOf(p.publicationDate.value))
  {
    if p.publicationDate.Some? && p.publicationDate.value != "" then YearText(yearOf(p.publicationDate.value))
    else "N/A"
  }

  /** The category badge: the first category, shown only when the list is present and not empty. */
  function Badge(p: Paper): (r: Option<string>)
    ensures r.Some? <==> p.subjectCategories.Some? && |p.subjectCategories.value| > 0
    ensures r.Some? ==> r.value == p.subjectCategories.value[0]
  {
    if p.subjectCategories.Some? && |p.subjectCategories.value| > 0 then Some(p.subjectCategories.value[0])
    else None
  }

  /** A dashboard record as a card's `paper`. */
  function PaperOf(rec: Record): Paper {
    Paper(Some(rec.publicationDate), None, Some(rec.authors), Some(rec.subjectCategories))
  }

  /** On a journal record the card shows the record's own authors, the badge "General Journal"
      and the year the record was built with. */
  lemma JournalCard(row: Row, i: nat, currentYear: int, yearOf: string -> Option<int>)
    ensures var p := PaperOf(AdaptJournalRow(row, i, currentYear));
      && AuthorList(p) == AdaptJournalRow(row, i, currentYear).authors
      && Badge(p) == Some(JournalCategory)
      && YearLabel(p, yearOf) == YearText(yearOf(AdaptJournalRow(row, i, currentYear).publicationDate))
  {
  }

  /** On an adapted OSDR study the badge is always "Space Biology", and the authors are the
      record's flattened author names. */
  lemma OsdrCard(s: StudySummary)
    requires AdaptStudy(s).Success?
    ensures var p := PaperOf(AdaptStudy(s).value);
      && AuthorList(p) == AdaptStudy(s).value.authors
      && Badge(p) == Some(SpaceBiology)
  {
  }
}
