/** The page navigation control under the user list: a previous button,
    one button per page and a next button, or nothing at all when there is
    at most one page. Each button is described by the page it requests and
    whether it is disabled or highlighted. */
module Pagination {
  import opened Common

  datatype PageButton = PageButton(page: int, highlighted: bool)

  datatype Controls = Controls(
    prevTarget: int, prevDisabled: bool,
    pages: seq<PageButton>,
    nextTarget: int, nextDisabled: bool)

  /** The control for the current page and page count as the server
      reported them. */
  function Render(currentPage: int, totalPages: int): (r: Option<Controls>)
    ensures r.None? <==> totalPages <= 1
    ensures r.Some? ==> |r.value.pages| == totalPages
    ensures r.Some? ==> forall i :: 0 <= i < |r.value.pages| ==> r.value.pages[i].page == i + 1
    ensures r.Some? ==> forall i :: 0 <= i < |r.value.pages| ==>
      (r.value.pages[i].highlighted <==> r.value.pages[i].page == currentPage)
    ensures r.Some? ==> r.value.prevTarget == currentPage - 1 && (r.value.prevDisabled <==> currentPage == 1)
    ensures r.Some? ==> r.value.nextTarget == currentPage + 1 && (r.value.nextDisabled <==> currentPage == totalPages)
  {
    if totalPages <= 1 then None
    else
      var pages := seq(totalPages, i requires 0 <= i < totalPages => PageButton(i + 1, i + 1 == currentPage));
      Some(Controls(currentPage - 1, currentPage == 1, pages, currentPage + 1, currentPage == totalPages))
  }

  /** The pages of the page buttons, in order. */
  function PageNumbers(c: Controls): seq<int> {
    seq(|c.pages|, i requires 0 <= i < |c.pages| => c.pages[i].page)
  }

  /** The pages some enabled control requests. */
  function Requests(c: Controls): set<int> {
    (set i | 0 <= i < |c.pages| :: c.pages[i].page)
    + (if c.prevDisabled then {} else {c.prevTarget})
    + (if c.nextDisabled then {} else {c.nextTarget})
  }

  /** The page buttons are 1..totalPages, each once, in ascending order. */
  lemma PagesAreOneToN(currentPage: int, totalPages: int)
    requires totalPages > 1
    ensures var ns := PageNumbers(Render(currentPage, totalPages).value);
      && (forall i, j :: 0 <= i < j < |ns| ==> ns[i] < ns[j])
      && (forall p :: p in ns <==> 1 <= p <= totalPages)
  {
    var ns := PageNumbers(Render(currentPage, totalPages).value);
    forall p | 1 <= p <= totalPages ensures p in ns {
      assert ns[p - 1] == p;
    }
  }

  /** Exactly one button is highlighted when the current page is one of
      the pages, and none otherwise. */
  lemma HighlightIsCurrent(currentPage: int, totalPages: int)
    requires totalPages > 1
    ensures var ps := Render(currentPage, totalPages).value.pages;
      && (forall i, j :: 0 <= i < |ps| && 0 <= j < |ps| && ps[i].highlighted && ps[j].highlighted ==> i == j)
      && ((exists i :: 0 <= i < |ps| && ps[i].highlighted) <==> 1 <= currentPage <= totalPages)
  {
    var ps := Render(currentPage, totalPages).value.pages;
    if 1 <= currentPage <= totalPages {
      assert ps[currentPage - 1].highlighted;
    }
  }

  /** Within range, every enabled control requests a page that exists, and
      every page can be requested. */
  lemma EnabledInRange(currentPage: int, totalPages: int)
    requires totalPages > 1 && 1 <= currentPage <= totalPages
    ensures var c := Render(currentPage, totalPages).value;
      forall p :: p in Requests(c) <==> 1 <= p <= totalPages
  {
    var c := Render(currentPage, totalPages).value;
    forall p | 1 <= p <= totalPages ensures p in Requests(c) {
      assert c.pages[p - 1].page == p;
    }
  }

  /** The next button checks for equality only: a current page beyond the
      last one, as a server answer for a page past the end reports it,
      leaves next enabled and requesting a page that does not exist. */
  lemma PastTheEnd(currentPage: int, totalPages: int)
    requires 1 < totalPages < currentPage
    ensures var c := Render(currentPage, totalPages).value;
      !c.nextDisabled && c.nextTarget in Requests(c) && c.nextTarget > totalPages
  {}
}
