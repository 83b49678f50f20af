/** The script's top level: the globals `page` and `matches`, the list, the
    dropdowns, the theme manager and the search form's submit handler. */
module Scripts {
  import opened Catalog
  import opened Dom
  import opened Pagination
  import opened Search
  import opened Dropdowns
  import opened Theme

  class App {
    const doc: Document
    /** The imported `books`, `genres`, `authors` and `BOOKS_PER_PAGE`. */
    const books: seq<Book>
    const pageSize: nat
    const bookList: BookList
    const themeManager: ThemeManager
    /** The module-level `page` and `matches`. */
    var page: int
    var matches: seq<Book>

    /** Everything draws on one page, and the list pages the whole catalog. */
    ghost predicate Valid() {
      bookList.doc == doc && bookList.catalog == books && bookList.matches == books
      && bookList.pageSize == pageSize && themeManager.doc == doc
    }

    /** Loading the script: the list shows page 1 of the catalog, both
        dropdowns are filled, and the theme follows the colour-scheme preference. */
    constructor (doc: Document, books: seq<Book>, authors: seq<(string, string)>,
                 genres: seq<(string, string)>, pageSize: nat, prefersDark: bool)
      modifies doc
      ensures this.doc == doc && this.books == books && this.pageSize == pageSize
      ensures Valid() && fresh(bookList) && fresh(themeManager)
      ensures page == 1 && matches == books
      ensures bookList.currentPage == 2
      ensures doc.listItems == old(doc.listItems) + Page(books, pageSize, 1)
      ensures old(doc.listItems) == [] ==> bookList.ListInSync()
      ensures doc.button == ButtonFor(RemainingCount(|books|, 2, pageSize))
      ensures doc.genreOptions == old(doc.genreOptions) + DropdownOptions(genres, "All Genres")
      ensures doc.authorOptions == old(doc.authorOptions) + DropdownOptions(authors, "All Authors")
      ensures Palette(doc.colorDark, doc.colorLight) == PaletteFor(PreferredTheme(prefersDark))
      ensures doc.settingsTheme == PreferredTheme(prefersDark)
      ensures doc.listMessage == old(doc.listMessage) && doc.detail == old(doc.detail)
      ensures doc.searchOpen == old(doc.searchOpen) && doc.settingsOpen == old(doc.settingsOpen)
    {
      this.doc := doc;
      this.books := books;
      this.pageSize := pageSize;
      page := 1;
      matches := books;
      bookList := new BookList(doc, books, books, pageSize);
      var genreFragment := BuildDropdown(genres, "All Genres");
      doc.genreOptions := doc.genreOptions + genreFragment;
      var authorFragment := BuildDropdown(authors, "All Authors");
      doc.authorOptions := doc.authorOptions + authorFragment;
      themeManager := new ThemeManager(doc, prefersDark);
    }

    /** The search form's submit handler: resets the globals to page 1 of the
        filtered catalog, shows the empty-state message exactly when nothing
        matched, replaces the list with the first page of the result, redraws
        the button and closes the overlay. The list object's own page counter
        and match set are left as they were. */
    method OnSearchSubmit(filters: Filters)
      modifies this`page, this`matches, doc`listItems, doc`listMessage, doc`button, doc`searchOpen
      ensures page == 1 && matches == Filter(books, filters)
      ensures doc.listMessage <==> matches == []
      ensures doc.listItems == JsSlice(matches, 0, pageSize)
      ensures doc.button == SearchButton(|matches|, pageSize)
      ensures !doc.searchOpen
      ensures bookList.currentPage == old(bookList.currentPage)
    {
      var result := FilterCatalog(books, filters);
      page := 1;
      matches := result;
      doc.listMessage := |result| < 1;
      doc.listItems := [];
      doc.listItems := doc.listItems + JsSlice(result, 0, pageSize);
      var remaining := |matches| - page * pageSize;
      doc.button := ShowMoreButton(if remaining > 0 then remaining else 0, remaining < 1);
      doc.searchOpen := false;
    }

    /** A search followed by a "show more" click: the click appends the next
        page of the whole catalog, not of the search result, after the first
        page of the result. */
    method SearchThenShowMore(filters: Filters)
      requires Valid()
      modifies this`page, this`matches, doc`listItems, doc`listMessage, doc`button, doc`searchOpen
      modifies bookList`currentPage
      ensures doc.listItems
           == JsSlice(Filter(books, filters), 0, pageSize) + Page(books, pageSize, old(bookList.currentPage))
      ensures bookList.currentPage == old(bookList.currentPage) + 1
      ensures matches == Filter(books, filters) && page == 1
    {
      OnSearchSubmit(filters);
      bookList.OnShowMoreClick();
    }
  }
}
