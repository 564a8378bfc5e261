/** The results list (client/src/components/Searchresults.jsx): the loading/header branch and
    `renderPagination`, which pushes a Prev button, the page numbers around the current page and
    a Next button. A pagination prop the parent does not pass is `None` (`undefined`); JavaScript
    then computes NaN bounds and the number loop runs zero times. */
module SearchResults {
  import opened Wrappers
  import opened JsStrings

  /** One pushed button; `target` is the page handed to `onPageChange` (`None` for NaN). */
  datatype Button =
    | Prev(target: Option<int>, disabled: bool)
    | PageButton(number: int, highlighted: bool)
    | Next(target: Option<int>, disabled: bool)

  function Max(a: int, b: int): int { if a >= b then a else b }
  function Min(a: int, b: int): int { if a <= b then a else b }

  /** The integers `lo, lo + 1, ..., hi`; empty when `hi < lo`. */
  function Range(lo: int, hi: int): (r: seq<int>)
    ensures |r| == if hi >= lo then hi - lo + 1 else 0
    ensures forall k :: 0 <= k < |r| ==> r[k] == lo + k
  {
    seq(if hi >= lo then hi - lo + 1 else 0, k => lo + k)
  }

  /** The page numbers shown: `max(1, currentPage - 2)` to `min(totalPages, currentPage + 2)`,
      and none when either prop is undefined. */
  function Window(currentPage: Option<int>, totalPages: Option<int>): seq<int> {
    if currentPage.Some? && totalPages.Some? then
      Range(Max(1, currentPage.value - 2), Min(totalPages.value, currentPage.value + 2))
    else []
  }

  /** The button for page `i`, highlighted when it is the current page. */
  function NumberButton(i: int, currentPage: Option<int>): Button {
    PageButton(i, currentPage == Some(i))
  }

  function NumberButtons(pages: seq<int>, currentPage: Option<int>): (r: seq<Button>)
    ensures |r| == |pages|
    ensures forall k :: 0 <= k < |r| ==> r[k] == NumberButton(pages[k], currentPage)
  {
    seq(|pages|, k requires 0 <= k < |pages| => NumberButton(pages[k], currentPage))
  }

  function PrevButton(currentPage: Option<int>): Button {
    Prev(if currentPage.Some? then Some(currentPage.value - 1) else None, currentPage == Some(1))
  }

  /** `currentPage === totalPages` holds too when both are undefined. */
  function NextButton(currentPage: Option<int>, totalPages: Option<int>): Button {
    Next(if currentPage.Some? then Some(currentPage.value + 1) else None, currentPage == totalPages)
  }

  /** What `renderPagination` returns: nothing when `totalPages <= 1`, otherwise Prev, the
      window's numbers and Next. */
  function Pagination(currentPage: Option<int>, totalPages: Option<int>): (r: Option<seq<Button>>)
    ensures r.None? <==> totalPages.Some? && totalPages.value <= 1
    ensures r.Some? ==> |r.value| >= 2 && r.value[0] == PrevButton(currentPage) && r.value[|r.value| - 1] == NextButton(currentPage, totalPages)
  {
    if totalPages.Some? && totalPages.value <= 1 then None
    else Some([PrevButton(currentPage)] + NumberButtons(Window(currentPage, totalPages), currentPage) + [NextButton(currentPage, totalPages)])
  }

  /** `renderPagination`, pushing button after button. */
  method RenderPagination(currentPage: Option<int>, totalPages: Option<int>) returns (r: Option<seq<Button>>)
    ensures r == Pagination(currentPage, totalPages)
  {
    if totalPages.Some? && totalPages.value <= 1 {
      return None;
    }
    var pages: seq<Button> := [];
    pages := pages + [PrevButton(currentPage)];
    if currentPage.Some? && totalPages.Some? {
      var startPage := Max(1, currentPage.value - 2);
      var endPage := Min(totalPages.value, currentPage.value + 2);
      var i := startPage;
      while i <= endPage
        invariant startPage <= i <= Max(startPage, endPage + 1)
        invariant pages == [PrevButton(currentPage)] + NumberButtons(Range(startPage, i - 1), currentPage)
        decreases endPage - i
      {
        assert Range(startPage, i) == Range(startPage, i - 1) + [i];
        pages := pages + [NumberButton(i, currentPage)];
        i := i + 1;
      }
      assert Range(startPage, i - 1) == Window(currentPage, totalPages);
    } else {
      assert NumberButtons(Window(currentPage, totalPages), currentPage) == [];
    }
    assert pages == [PrevButton(currentPage)] + NumberButtons(Window(currentPage, totalPages), currentPage);
    pages := pages + [NextButton(currentPage, totalPages)];
    return Some(pages);
  }

  /** Pagination is hidden exactly when `totalPages <= 1`. When shown, it is Prev, the numbers,
      then Next, two buttons more than the numbers. */
  lemma PaginationLayout(currentPage: Option<int>, totalPages: Option<int>)
    ensures Pagination(currentPage, totalPages).None? <==> totalPages.Some? && totalPages.value <= 1
    ensures Pagination(currentPage, totalPages).Some? ==>
      var b := Pagination(currentPage, totalPages).value;
      && |b| == |Window(currentPage, totalPages)| + 2
      && b[0].Prev? && b[|b| - 1].Next?
      && (forall k :: 0 < k < |b| - 1 ==> b[k].PageButton? && b[k].number == Window(currentPage, totalPages)[k - 1])
  {
  }

  /** At most five numbers, strictly ascending by one, all within `[1, totalPages]`. */
  lemma WindowBounds(currentPage: int, totalPages: int)
    ensures var w := Window(Some(currentPage), Some(totalPages));
      && |w| <= 5
      && (forall k :: 0 <= k < |w| ==> 1 <= w[k] <= totalPages)
      && (forall k :: 0 <= k < |w| ==> currentPage - 2 <= w[k] <= currentPage + 2)
      && (forall k :: 0 < k < |w| ==> w[k] == w[k - 1] + 1)
  {
  }

  /** A current page inside `[1, totalPages]` is shown, and it is the only highlighted number. */
  lemma CurrentPageShown(currentPage: int, totalPages: int)
    requires 1 <= currentPage <= totalPages
    ensures currentPage in Window(Some(currentPage), Some(totalPages))
    ensures var b := NumberButtons(Window(Some(currentPage), Some(totalPages)), Some(currentPage));
      forall k :: 0 <= k < |b| ==> (b[k].highlighted <==> b[k].number == currentPage)
  {
    var w := Window(Some(currentPage), Some(totalPages));
    var lo := Max(1, currentPage - 2);
    var hi := Min(totalPages, currentPage + 2);
    assert lo <= currentPage <= hi;
    assert |w| == hi - lo + 1;
    assert w[currentPage - lo] == currentPage;
  }

  /** Prev requests the page before and is disabled exactly on page 1; Next requests the page
      after and is disabled exactly on the last page. */
  lemma PrevNextButtons(currentPage: int, totalPages: int)
    requires totalPages > 1
    ensures var b := Pagination(Some(currentPage), Some(totalPages)).value;
      && b[0] == Prev(Some(currentPage - 1), currentPage == 1)
      && b[|b| - 1] == Next(Some(currentPage + 1), currentPage == totalPages)
  {
  }

  /** Rendered without pagination props, as the dashboard does, the list still shows a Prev
      button (enabled, its target NaN) and a disabled Next button, and no page numbers. */
  lemma PaginationWithoutProps()
    ensures Pagination(None, None) == Some([Prev(None, false), Next(None, true)])
  {
    assert NumberButtons(Window(None, None), None) == [];
    assert PrevButton(None) == Prev(None, false);
    assert NextButton(None, None) == Next(None, true);
    assert [Prev(None, false)] + [] + [Next(None, true)] == [Prev(None, false), Next(None, true)];
  }

  /** One row of the list: the linked title and the source line. */
  datatype Row = Row(title: string, documentLink: string, source: string)

  /** What the component shows. */
  datatype View =
    | LoadingView
    | ListView(header: string, rows: seq<Row>, pagination: Option<seq<Button>>)

  /** The component: the loading message while loading, otherwise the header with the count it
      is given, one row per result, and the pagination. */
  function ResultsList(rows: seq<Row>, isLoading: bool, totalResults: int, currentPage: Option<int>, totalPages: Option<int>): (v: View)
    ensures isLoading <==> v.LoadingView?
    ensures !isLoading ==> v.rows == rows && v.pagination == Pagination(currentPage, totalPages)
    ensures !isLoading ==> |v.header| > 9 && v.header[..9] == "Results (" && ParseInt(v.header[9..]) == Some(totalResults)
  {
    if isLoading then LoadingView
    else
      HeaderCount(totalResults);
      ListView(Header(totalResults), rows, Pagination(currentPage, totalPages))
  }

  /** The list header, `Results ({totalResults} found)`. */
  function Header(totalResults: int): string {
    "Results (" + IntToString(totalResults) + " found)"
  }

  /** The count in the header reads back as the count the list was given. */
  lemma HeaderCount(totalResults: int)
    ensures |Header(totalResults)| > 9 && Header(totalResults)[..9] == "Results ("
    ensures ParseInt(Header(totalResults)[9..]) == Some(totalResults)
  {
    var digits := IntToString(totalResults);
    var h := Header(totalResults);
    assert h == "Results (" + (digits + " found)");
    assert h[9..] == digits + " found)";
    ParseIntOfIntToString(totalResults, " found)");
  }
}
