# Book catalog browser, modelled in Dafny

A client-side book catalog browser. It shows the catalog as a list of previews, one page at a time, with a "show more" button that says how many books remain. A search form filters the catalog by title, author and genre. Clicking a preview opens a detail overlay. A settings form switches between a day and a night palette.

The model keeps the script's structure:

- `Text` holds the string operations the filter uses: `trim`, `toLowerCase` and `includes`.
- `Catalog` holds the `Book` record and `JsSlice`, which is `Array.prototype.slice` with its clamping and negative indices.
- `Dom.Document` is the page state the script writes. Each DOM attachment point is one field:
  - the list container is a `seq<Book>`;
  - the show-more button is a (label count, disabled) pair;
  - the empty-state flag, the detail overlay's book, the two dropdowns, the two colour tokens, the settings theme field and the two overlay flags are one field each.
- `Pagination.BookList` is the `BookList` class. Its `currentPage` field changes in place. Its methods append to the list container.
- `Detail` holds the lookup that `preview` performs: `FindActive` is its nested loop with breaks, and `Resolve` specifies it.
- `Search` holds the submit handler's per-book test and its filter loop (`FilterCatalog`, `GenreMatch`), specified by `Filter`.
- `Theme.ThemeManager` holds `applyTheme`, `initTheme` and the settings handler.
- `Dropdowns` holds `creatingDropdowns`.
- `Scripts.App` is the module top level. It holds the globals `page` and `matches`, creates the list and the theme manager, fills the dropdowns, and owns the search handler.

Two behaviours are modelled as the code has them, not as one might expect:

- **The search handler does not touch the list object.** It rebinds the module globals `page` and `matches`. `BookList` keeps its own `matches`, fixed at construction, and its own `currentPage`, which construction moves from 1 to 2 and which afterwards advances only with the list's own "show more" clicks; a search never resets it. So a "show more" click after a search appends the next page of the whole catalog after the first page of the result (`Scripts.App.SearchThenShowMore`).
- **The remaining count is computed from `currentPage`, which is one ahead of the pages rendered.** The label therefore shows one page fewer than the books still hidden (`Pagination.RemainingLagsOnePage`). The button is disabled while up to one page of books is still hidden (`Pagination.DisabledWhileBooksHidden`).
  - Take five books at two per page. Counting the books still hidden would give 3 after the initial render, then 1, then 0 with the list complete.
  - The code reports 1 after the initial render. After one click it reports 0 and disables the button while four books are shown (`Pagination.FiveBooksTwoPerPage`). Further "show more" clicks cannot show the fifth book, because the browser delivers no click to a disabled button. A later search whose result has more than one page re-enables the button (scripts.js:296), and the next click then appends the fifth book after the result's first page. The model does not encode that browser rule: `BookList.OnShowMoreClick` has no guard on the button, so a further call would still append the fifth book.
  - The model follows the code.

Inputs stand in for the browser:

- the filter values of the submitted form;
- the theme value of the submitted settings form;
- the dark colour-scheme preference, as a `bool`;
- the `data-preview` values along a click's event path, as `seq<Option<string>>` (`None` for a node without one);
- the catalog `books`, the `authors` and `genres` registries (as `(id, name)` sequences in `Object.entries` order) and `BOOKS_PER_PAGE` (a `nat`).

## Model

| member | source | states |
|---|---|---|
| Text.TrimEmptyIffBlank | scripts.js:255 | `trim()` yields `''` exactly when every character is ECMAScript whitespace or a line terminator |
| Text.IncludesIffOccurs | scripts.js:255 | `includes` holds exactly when the needle occurs at some position of the string (always for the empty needle) |
| Text.ToLowerAt | scripts.js:255 | lowercasing keeps the length and maps each character on its own |
| Catalog.JsSlice | scripts.js:75-76 | `slice(start, end)` with `0 <= start <= end` is the part of the array between the two positions, cut at its end; it is empty, never an error, when `start` is past the end |
| Pagination.RemainingCount | scripts.js:31-34 | the reported count is `max(0, len - page * size)`: never negative, at least `len - page * size`, and equal to it or to 0 |
| Pagination.PageContents | scripts.js:70-83 | page `p` is `matches[(p-1)*size .. min(p*size, len))` (start clamped to `len`), and empty when `(p-1)*size >= len` |
| Pagination.AppendNextPage | scripts.js:86-89 | appending page `p` to pages `1 .. p-1` gives pages `1 .. p` of the match set, in order |
| Pagination.RenderedIsPrefix | scripts.js:128-138 | after the initial render and `n` clicks, the list holds the first `min((n+1)*size, len)` books of the match set |
| Pagination.RemainingLagsOnePage | scripts.js:130-133 | the reported count equals the number of hidden books minus one page, floored at 0 |
| Pagination.DisabledWhileBooksHidden | scripts.js:57-67 | when the next page would be the last, the button is already disabled although books are still hidden |
| Pagination.FiveBooksTwoPerPage | scripts.js:128-138 | five books, two per page: the initial render shows two books with count 1; one click shows four books, and the button is disabled |
| Pagination.FiveBooksOnBookList | scripts.js:128-138 | on a fresh page, a `BookList` of five books at two per page shows the first two with count 1 and the button enabled; one click shows the first four, with count 0 and the button disabled |
| Pagination.BookList.constructor | scripts.js:11-28 | construction renders page 1, leaves `currentPage = 2`, draws the button from page 2, and starts the list in step with the counter |
| Pagination.BookList.UpdateRemainingCount | scripts.js:31-34 | the count is non-negative; it is 0 exactly when `currentPage * size` covers the match set, and otherwise is `len - currentPage * size` |
| Pagination.BookList.UpdateShowMoreButton | scripts.js:57-67 | the label shows the remaining count; the button is disabled exactly when that count is 0 |
| Pagination.BookList.LoadBooks | scripts.js:70-83 | appends exactly page `page` of `matches` to the list container and changes nothing else |
| Pagination.BookList.LoadMoreBooks | scripts.js:86-89 | appends page `currentPage`, then raises `currentPage` by exactly 1 |
| Pagination.BookList.Initialize | scripts.js:128-133 | renders page `currentPage`, raises it by 1, then draws the button from the raised counter |
| Pagination.BookList.OnShowMoreClick | scripts.js:135-138 | a click appends page `currentPage`, raises it by 1, redraws the button, and keeps the list equal to pages `1 .. currentPage-1` |
| Pagination.BookList.Preview | scripts.js:92-113 | opens the detail overlay on the book `Resolve` finds in the full catalog (not the match set); when no node resolves, the overlay is left as it was |
| Pagination.BookList.ShowPreviewDetails | scripts.js:116-125 | the detail overlay shows the given book |
| Detail.LookupFindsFirst | scripts.js:102-105 | the catalog scan finds a book exactly when one has the id, and then it is the first book with that id |
| Detail.ResolveFindsFirst | scripts.js:96-109 | nothing is shown exactly when no node of the path has a non-empty preview id naming a catalog book; otherwise the book comes from the first such node, and earlier nodes are skipped |
| Detail.FindActive | scripts.js:93-109 | the nested loops with their `active`/`result` breaks compute exactly `Resolve(books, path)` |
| Search.GenreMatch | scripts.js:247-252 | the early-break genre loop yields true exactly when the filter is `any` or one of the book's genres |
| Search.FilterCatalog | scripts.js:244-261 | the loop pushes exactly `Filter(books, filters)` into `result`: the matching books in catalog order |
| Search.FilterMembership | scripts.js:254-259 | a book is in the result exactly when it is in the catalog and passes the title, author and genre tests |
| Search.FilterIsSubsequence | scripts.js:246-261 | the result is a subsequence of the catalog, so it keeps catalog order, and is no longer than the catalog |
| Search.FilterWildcard | scripts.js:255-257 | with a blank title, author `any` and genre `any`, the result is the catalog itself |
| Search.FilterUnknownGenre | scripts.js:247-252 | a genre id that no book carries gives the empty result |
| Search.DuneScenario | scripts.js:255 | the title filter `dune` finds a book titled `Dune`, whatever its author and genres |
| Search.SearchButtonAgrees | scripts.js:296-301 | the handler's own button formulas at `page = 1` agree with `updateShowMoreButton`: disabled iff `len - size < 1`, label `max(0, len - size)` |
| Theme.PaletteFor | scripts.js:207-215 | `night` gives dark `255, 255, 255` and light `10, 10, 20`; every other value gives the swapped pair |
| Theme.PreferredTheme | scripts.js:219-220 | the preferred theme is `night` exactly when a dark scheme is preferred, and `day` otherwise |
| Theme.ThemeManager.constructor | scripts.js:201-204 | a new manager leaves the palette and the settings field at the preferred theme |
| Theme.ThemeManager.ApplyTheme | scripts.js:207-215 | the two colour tokens become the palette of the given theme |
| Theme.ThemeManager.InitTheme | scripts.js:218-223 | applies `night` iff a dark scheme is preferred, and writes that same value into the settings field |
| Theme.ThemeManager.OnSettingsSubmit | scripts.js:227-233 | applies the submitted theme and closes the settings overlay |
| Dropdowns.DropdownShape | scripts.js:153-169 | a dropdown has one option more than its registry: first the `any` option with the given text, then each entry's id and name in order |
| Dropdowns.BuildDropdown | scripts.js:153-165 | the loop builds exactly `DropdownOptions(entries, text)` |
| Scripts.App.constructor | scripts.js:146-172 | loading the script sets `page = 1` and `matches = books`, renders page 1 of the catalog, fills both dropdowns, and applies the preferred theme |
| Scripts.App.OnSearchSubmit | scripts.js:240-305 | a search sets `page = 1` and `matches` to the filter result, and shows the empty-state message iff the result is empty. It replaces the list with `result[0 .. min(size, len))`, sets the button from page 1 and closes the overlay. The list object's `currentPage` is unchanged |
| Scripts.App.SearchThenShowMore | scripts.js:263-264 | after a search, a "show more" click appends the next page of the whole catalog, not of the search result |

## Left out

- DOM construction: `createElement`, the preview and option markup, `classList`, `querySelector` and document fragments. A preview is represented by its `Book`. The author display name (`authors[author]`) and the image URL shown in a preview are not modelled.
- The detail subtitle: the author name and `new Date(book.published).getFullYear()` are not modelled, because they need date parsing. The overlay is modelled as the book it shows.
- Event wiring and browser APIs: `addEventListener`, `FormData`, `preventDefault`, `matchMedia`, `event.path`/`composedPath` and `scrollTo` are not modelled. Their results are parameters of the handlers, and scrolling is not modelled at all.
- The open and close handlers of the search, settings and detail overlays are not modelled (scripts.js:175-194). They only toggle `open` (and the search-open handler focuses the title field).
- `data.js` is not part of this model. `books`, `authors`, `genres` and `BOOKS_PER_PAGE` are parameters. The registries are taken as `(id, name)` sequences already in `Object.entries` order.
- Text.ToLower: maps only `A`–`Z` to lower case. Full Unicode case mapping is not modelled.
- JavaScript numbers are modelled as unbounded integers. Page arithmetic stays far below 2^53, so nothing is lost.
