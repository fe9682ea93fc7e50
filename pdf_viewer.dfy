/** The viewer's document and page state: which document is open, how many
    pages it has once loaded, the current page, and the loading, error and
    fullscreen flags. */
module PdfViewer {
  import opened Base

  /** The page `goToPage(page)` leaves the viewer on: `page` when it is
      between 1 and the page count, otherwise the current page. */
  function Turn(current: int, page: int, count: nat): (r: int)
    ensures (1 <= page <= count) ==> r == page
    ensures !(1 <= page <= count) ==> r == current
  {
    if 1 <= page <= count then page else current
  }

  /** The page after each of `pages` has been requested in turn. */
  function TurnAll(current: int, pages: seq<int>, count: nat): int
    decreases pages
  {
    if pages == [] then current else TurnAll(Turn(current, pages[0], count), pages[1..], count)
  }

  /** Once the current page is in range, no sequence of page requests (and
      so no sequence of next and previous steps) takes it out. */
  lemma {:induction false} TurnAllStaysInRange(current: int, pages: seq<int>, count: nat)
    requires 1 <= current <= count
    ensures 1 <= TurnAll(current, pages, count) <= count
    decreases pages
  {
    if pages != [] {
      TurnAllStaysInRange(Turn(current, pages[0], count), pages[1..], count);
    }
  }

  /** With no pages (nothing loaded yet), no request moves the page. */
  lemma {:induction false} NothingLoadedNeverTurns(current: int, pages: seq<int>)
    ensures TurnAll(current, pages, 0) == current
    decreases pages
  {
    if pages != [] {
      NothingLoadedNeverTurns(current, pages[1..]);
    }
  }

  class Viewer {
    var currentDocument: Option<string>
    /** `null` until a document has loaded. */
    var numPages: Option<nat>
    var pageNumber: int
    var isFullscreen: bool
    var loading: bool
    var error: Option<string>

    constructor ()
      ensures currentDocument == None && numPages == None && pageNumber == 1
      ensures !isFullscreen && !loading && error == None
    {
      currentDocument := None;
      numPages := None;
      pageNumber := 1;
      isFullscreen := false;
      loading := false;
      error := None;
    }

    /** The page count as `page <= numPages` sees it: `null` compares as 0. */
    function PageCount(): (n: nat)
      reads this
      ensures numPages.None? ==> n == 0
      ensures numPages.Some? ==> n == numPages.value
    {
      if numPages.Some? then numPages.value else 0
    }

    predicate PageInRange()
      reads this
    {
      1 <= pageNumber <= PageCount()
    }

    /** `onDocumentLoadSuccess({numPages: n})` */
    method OnDocumentLoadSuccess(n: nat)
      modifies this
      ensures numPages == Some(n) && pageNumber == 1 && !loading && error == None
      ensures currentDocument == old(currentDocument) && isFullscreen == old(isFullscreen)
      ensures n >= 1 ==> PageInRange()
    {
      numPages := Some(n);
      pageNumber := 1;
      loading := false;
      error := None;
    }

    /** `onDocumentLoadError(e)`: the page fields are left alone. */
    method OnDocumentLoadError(e: string)
      modifies this
      ensures error == Some(e) && !loading
      ensures numPages == old(numPages) && pageNumber == old(pageNumber)
      ensures currentDocument == old(currentDocument) && isFullscreen == old(isFullscreen)
    {
      error := Some(e);
      loading := false;
    }

    /** `loadDocument(path)`: the page fields are left alone until the
        document reports its page count. */
    method LoadDocument(path: string)
      modifies this
      ensures loading && error == None && currentDocument == Some(path)
      ensures numPages == old(numPages) && pageNumber == old(pageNumber) && isFullscreen == old(isFullscreen)
    {
      loading := true;
      error := None;
      currentDocument := Some(path);
    }

    /** `goToPage(page)`: only a page between 1 and the page count is taken. */
    method GoToPage(page: int)
      modifies this
      ensures pageNumber == Turn(old(pageNumber), page, PageCount())
      ensures numPages == old(numPages) && currentDocument == old(currentDocument)
      ensures isFullscreen == old(isFullscreen) && loading == old(loading) && error == old(error)
      ensures old(PageInRange()) ==> PageInRange()
    {
      if 1 <= page <= PageCount() {
        pageNumber := page;
      }
    }

    /** `nextPage()`: a no-op on the last page. */
    method NextPage()
      modifies this
      ensures pageNumber == Turn(old(pageNumber), old(pageNumber) + 1, PageCount())
      ensures numPages == old(numPages) && currentDocument == old(currentDocument)
      ensures isFullscreen == old(isFullscreen) && loading == old(loading) && error == old(error)
      ensures old(PageInRange()) ==> PageInRange()
      ensures old(pageNumber) == PageCount() ==> pageNumber == old(pageNumber)
    {
      GoToPage(pageNumber + 1);
    }

    /** `prevPage()`: a no-op on page 1. */
    method PrevPage()
      modifies this
      ensures pageNumber == Turn(old(pageNumber), old(pageNumber) - 1, PageCount())
      ensures numPages == old(numPages) && currentDocument == old(currentDocument)
      ensures isFullscreen == old(isFullscreen) && loading == old(loading) && error == old(error)
      ensures old(PageInRange()) ==> PageInRange()
      ensures old(pageNumber) == 1 ==> pageNumber == old(pageNumber)
    {
      GoToPage(pageNumber - 1);
    }

    /** `toggleFullscreen()`: flips the flag; doing it twice restores it. */
    method ToggleFullscreen()
      modifies this
      ensures isFullscreen == !old(isFullscreen)
      ensures numPages == old(numPages) && pageNumber == old(pageNumber) && currentDocument == old(currentDocument)
      ensures loading == old(loading) && error == old(error)
    {
      isFullscreen := !isFullscreen;
    }
  }
}
