/** The list renderer: `BookList` pages through its match set, appending one
    page of previews per "show more" click. */
module Pagination {
  import opened Catalog
  import opened Dom
  import Detail

  /** `Math.max(len - page * size, 0)`: the count `updateRemainingCount` reports. */
  function RemainingCount(len: nat, page: int, size: nat): (r: int)
    ensures r >= 0
    ensures r >= len - page * size
    ensures r == 0 || r == len - page * size
  {
    var remaining := len - page * size;
    if remaining > 0 then remaining else 0
  }

  /** The button `updateShowMoreButton` draws for a remaining count. */
  function ButtonFor(remaining: int): ShowMoreButton {
    ShowMoreButton(remaining, remaining == 0)
  }

  /** What `loadBooks(page)` appends: `matches.slice((page - 1) * size, (page - 1) * size + size)`. */
  function Page(matches: seq<Book>, size: nat, page: int): seq<Book> {
    var startIndex := (page - 1) * size;
    JsSlice(matches, startIndex, startIndex + size)
  }

  /** The number of previews on screen once pages `1 .. page - 1` are rendered. */
  function Shown(len: nat, page: int, size: nat): nat
    requires page >= 1
  {
    Min((page - 1) * size, len)
  }

  /** Page `page` covers positions `(page - 1) * size` up to `page * size` of
      the match set, cut at its end; it is empty, not an error, once its start
      lies past the end. */
  lemma PageContents(matches: seq<Book>, size: nat, page: int)
    requires page >= 1
    ensures Shown(|matches|, page, size) <= Shown(|matches|, page + 1, size)
    ensures Page(matches, size, page)
         == matches[Shown(|matches|, page, size)..Shown(|matches|, page + 1, size)]
    ensures (page - 1) * size >= |matches| ==> Page(matches, size, page) == []
  {
  }

  /** Appending page `page` to the previews of the pages before it gives the
      previews of pages `1 .. page`. */
  lemma AppendNextPage(matches: seq<Book>, size: nat, page: int)
    requires page >= 1
    ensures matches[..Shown(|matches|, page, size)] + Page(matches, size, page)
         == matches[..Shown(|matches|, page + 1, size)]
  {
    PageContents(matches, size, page);
    var a, b := Shown(|matches|, page, size), Shown(|matches|, page + 1, size);
    assert matches[..a] + matches[a..b] == matches[..b];
  }

  /** The previews on screen after the initial render and `clicks` further
      "show more" clicks, page by page. */
  function RenderedAfterClicks(matches: seq<Book>, size: nat, clicks: nat): seq<Book> {
    if clicks == 0 then Page(matches, size, 1)
    else RenderedAfterClicks(matches, size, clicks - 1) + Page(matches, size, clicks + 1)
  }

  /** After `n` clicks the list holds the first `min((n + 1) * size, len)`
      books of the match set, in order. */
  lemma {:induction false} RenderedIsPrefix(matches: seq<Book>, size: nat, clicks: nat)
    ensures RenderedAfterClicks(matches, size, clicks)
         == matches[..Shown(|matches|, clicks + 2, size)]
  {
    if clicks == 0 {
      AppendNextPage(matches, size, 1);
      assert matches[..Shown(|matches|, 1, size)] == [];
    } else {
      RenderedIsPrefix(matches, size, clicks - 1);
      AppendNextPage(matches, size, clicks + 1);
    }
  }

  /** Because the page counter is one ahead of the pages rendered, the count
      shown is the number of books not yet on screen minus one more page. */
  lemma RemainingLagsOnePage(len: nat, page: int, size: nat)
    requires page >= 1
    ensures RemainingCount(len, page, size)
         == (var hidden := len - Shown(len, page, size); if hidden - size > 0 then hidden - size else 0)
  {
  }

  /** So the button is disabled while up to a page of books is still hidden. */
  lemma DisabledWhileBooksHidden(len: nat, page: int, size: nat)
    requires page >= 1
    requires (page - 1) * size < len <= page * size
    ensures Shown(len, page, size) < len
    ensures ButtonFor(RemainingCount(len, page, size)).disabled
  {
  }

  /** With five books and two per page: after the initial render the label
      reads 1 although three books are hidden, and one click later the button
      is disabled with only four books shown. */
  lemma FiveBooksTwoPerPage(matches: seq<Book>)
    requires |matches| == 5
    ensures RenderedAfterClicks(matches, 2, 0) == matches[..2]
    ensures RemainingCount(5, 2, 2) == 1
    ensures RenderedAfterClicks(matches, 2, 1) == matches[..4]
    ensures ButtonFor(RemainingCount(5, 3, 2)) == ShowMoreButton(0, true)
  {
    RenderedIsPrefix(matches, 2, 0);
    RenderedIsPrefix(matches, 2, 1);
  }

  class BookList {
    /** The page the list is drawn into. */
    const doc: Document
    /** The imported `books`, which `preview` searches. */
    const catalog: seq<Book>
    /** `this.matches`, fixed when the list is built. */
    const matches: seq<Book>
    const pageSize: nat
    var currentPage: int

    /** The list container holds exactly pages `1 .. currentPage - 1` of `matches`. */
    ghost predicate ListInSync()
      reads this, doc
    {
      currentPage >= 1 && doc.listItems == matches[..Shown(|matches|, currentPage, pageSize)]
    }

    /** `new BookList(matches, authors, BOOKS_PER_PAGE)`, which runs `initialize`. */
    constructor (doc: Document, catalog: seq<Book>, matches: seq<Book>, pageSize: nat)
      modifies doc`listItems, doc`button
      ensures this.doc == doc && this.catalog == catalog
      ensures this.matches == matches && this.pageSize == pageSize
      ensures currentPage == 2
      ensures doc.listItems == old(doc.listItems) + Page(matches, pageSize, 1)
      ensures doc.button == ButtonFor(RemainingCount(|matches|, 2, pageSize))
      ensures old(doc.listItems) == [] ==> ListInSync()
    {
      this.doc := doc;
      this.catalog := catalog;
      this.matches := matches;
      this.pageSize := pageSize;
      currentPage := 1;
      new;
      Initialize();
      AppendNextPage(matches, pageSize, 1);
    }

    /** `updateRemainingCount`: zero exactly when pages `1 .. currentPage`
        would cover the whole match set. */
    function UpdateRemainingCount(): (r: int)
      reads this
      ensures r >= 0
      ensures r == 0 <==> |matches| <= currentPage * pageSize
      ensures r != 0 ==> r == |matches| - currentPage * pageSize
    {
      RemainingCount(|matches|, currentPage, pageSize)
    }

    /** `updateShowMoreButton`: the label shows the remaining count and the
        button is disabled exactly when it is zero. */
    method UpdateShowMoreButton()
      modifies doc`button
      ensures doc.button.remaining == UpdateRemainingCount()
      ensures doc.button.disabled <==> UpdateRemainingCount() == 0
    {
      var remainingCount := UpdateRemainingCount();
      doc.button := ShowMoreButton(remainingCount, remainingCount == 0);
    }

    /** `loadBooks(page)`: appends one page of `matches` to the list. */
    method LoadBooks(page: int)
      modifies doc`listItems
      ensures doc.listItems == old(doc.listItems) + Page(matches, pageSize, page)
    {
      var startIndex := (page - 1) * pageSize;
      var endIndex := startIndex + pageSize;
      doc.listItems := doc.listItems + JsSlice(matches, startIndex, endIndex);
    }

    /** `loadMoreBooks`: renders page `currentPage`, then moves to the next. */
    method LoadMoreBooks()
      modifies this`currentPage, doc`listItems
      ensures doc.listItems == old(doc.listItems) + Page(matches, pageSize, old(currentPage))
      ensures currentPage == old(currentPage) + 1
    {
      LoadBooks(currentPage);
      currentPage := currentPage + 1;
    }

    /** `initialize`: renders page `currentPage`, advances it, and draws the button. */
    method Initialize()
      modifies this`currentPage, doc`listItems, doc`button
      ensures doc.listItems == old(doc.listItems) + Page(matches, pageSize, old(currentPage))
      ensures currentPage == old(currentPage) + 1
      ensures doc.button == ButtonFor(RemainingCount(|matches|, currentPage, pageSize))
    {
      LoadBooks(currentPage);
      currentPage := currentPage + 1;
      UpdateShowMoreButton();
    }

    /** The click handler of the "show more" button. It keeps the list in
        step with the page counter. */
    method OnShowMoreClick()
      modifies this`currentPage, doc`listItems, doc`button
      ensures doc.listItems == old(doc.listItems) + Page(matches, pageSize, old(currentPage))
      ensures currentPage == old(currentPage) + 1
      ensures doc.button == ButtonFor(RemainingCount(|matches|, currentPage, pageSize))
      ensures old(ListInSync()) ==> ListInSync()
    {
      ghost var wasInSync := ListInSync();
      LoadMoreBooks();
      UpdateShowMoreButton();
      if wasInSync {
        AppendNextPage(matches, pageSize, currentPage - 1);
      }
    }

    /** `preview(event)`, given the preview ids along the event path: opens
        the detail overlay on the book resolved from the full catalog, and
        leaves it alone when no node resolves. */
    method Preview(path: seq<Option<string>>)
      modifies doc`detail
      ensures Detail.Resolve(catalog, path).Some? ==> doc.detail == Detail.Resolve(catalog, path)
      ensures Detail.Resolve(catalog, path).None? ==> doc.detail == old(doc.detail)
    {
      var active := Detail.FindActive(catalog, path);
      if active.Some? {
        ShowPreviewDetails(active.value);
      }
    }

    /** `showPreviewDetails(book)`: fills the detail overlay with `book`. */
    method ShowPreviewDetails(book: Book)
      modifies doc`detail
      ensures doc.detail == Some(book)
    {
      doc.detail := Some(book);
    }
  }

  /** The five-book run of `FiveBooksTwoPerPage` on the class itself: a fresh
      page, a list of five books at two per page, and one "show more" click. */
  method FiveBooksOnBookList(b: seq<Book>) returns (first: seq<Book>, firstButton: ShowMoreButton,
                                                     second: seq<Book>, secondButton: ShowMoreButton)
    requires |b| == 5
    ensures first == b[..2] && firstButton == ShowMoreButton(1, false)
    ensures second == b[..4] && secondButton == ShowMoreButton(0, true)
  {
    var doc := new Document();
    var list := new BookList(doc, b, b, 2);
    first, firstButton := doc.listItems, doc.button;
    list.OnShowMoreClick();
    second, secondButton := doc.listItems, doc.button;
  }
}
