/** The filter engine: the per-book test of the search form's submit handler
    and the loop that collects the matching books in catalog order. */
module Search {
  import opened Catalog
  import opened Text
  import opened Dom
  import Pagination

  /** The submitted search form: free text, an author id or `any`, a genre id or `any`. */
  datatype Filters = Filters(title: string, author: string, genre: string)

  /** An untrimmed, lowercased title filter must occur in the lowercased
      title, unless the filter is blank. */
  predicate TitleMatches(filter: string, title: string) {
    Trim(filter) == "" || Includes(ToLower(title), ToLower(filter))
  }

  predicate AuthorMatches(filter: string, author: string) {
    filter == "any" || author == filter
  }

  predicate GenreMatches(filter: string, genres: seq<string>) {
    filter == "any" || filter in genres
  }

  predicate Matches(filters: Filters, book: Book) {
    TitleMatches(filters.title, book.title)
    && AuthorMatches(filters.author, book.author)
    && GenreMatches(filters.genre, book.genres)
  }

  /** The books of `books` that match, in catalog order. */
  function Filter(books: seq<Book>, filters: Filters): seq<Book> {
    if books == [] then []
    else (if Matches(filters, books[0]) then [books[0]] else []) + Filter(books[1..], filters)
  }

  /** `sub` is `s` with some elements left out. */
  predicate IsSubsequence(sub: seq<Book>, s: seq<Book>)
    decreases |s|
  {
    if sub == [] then true
    else if s == [] then false
    else (sub[0] == s[0] && IsSubsequence(sub[1..], s[1..])) || IsSubsequence(sub, s[1..])
  }

  /** The genre test of the handler: starts from `filters.genre === 'any'`
      and scans the book's genres until one equals the filter. */
  method GenreMatch(filter: string, genres: seq<string>) returns (genreMatch: bool)
    ensures genreMatch <==> GenreMatches(filter, genres)
  {
    genreMatch := filter == "any";
    var k := 0;
    while k < |genres|
      invariant 0 <= k <= |genres|
      invariant genreMatch <==> filter == "any" || filter in genres[..k]
    {
      if genreMatch {
        break;
      }
      if genres[k] == filter {
        genreMatch := true;
      }
      assert genres[..k + 1] == genres[..k] + [genres[k]];
      k := k + 1;
    }
    assert genres[..|genres|] == genres;
  }

  /** The loop of the submit handler that pushes each matching book into `result`. */
  method FilterCatalog(books: seq<Book>, filters: Filters) returns (result: seq<Book>)
    ensures result == Filter(books, filters)
  {
    result := [];
    var i := 0;
    while i < |books|
      invariant 0 <= i <= |books|
      invariant Filter(books, filters) == result + Filter(books[i..], filters)
    {
      var book := books[i];
      var genreMatch := GenreMatch(filters.genre, book.genres);
      assert books[i..][0] == book && books[i..][1..] == books[i + 1..];
      if TitleMatches(filters.title, book.title) && AuthorMatches(filters.author, book.author)
         && genreMatch
      {
        result := result + [book];
      }
      i := i + 1;
    }
  }

  /** A book is in the result exactly when it is in the catalog and passes
      all three tests. */
  lemma {:induction false} FilterMembership(books: seq<Book>, filters: Filters, book: Book)
    ensures book in Filter(books, filters) <==> book in books && Matches(filters, book)
  {
    if books != [] {
      FilterMembership(books[1..], filters, book);
      assert books == [books[0]] + books[1..];
    }
  }

  /** The result keeps catalog order: it is a subsequence of the catalog. */
  lemma {:induction false} FilterIsSubsequence(books: seq<Book>, filters: Filters)
    ensures IsSubsequence(Filter(books, filters), books)
    ensures |Filter(books, filters)| <= |books|
  {
    if books != [] {
      FilterIsSubsequence(books[1..], filters);
      if Matches(filters, books[0]) {
        assert Filter(books, filters)[1..] == Filter(books[1..], filters);
      } else {
        assert Filter(books, filters) == Filter(books[1..], filters);
      }
    }
  }

  /** A blank title with `any` author and `any` genre returns the whole
      catalog unchanged. */
  lemma {:induction false} FilterWildcard(books: seq<Book>, title: string)
    requires IsBlank(title)
    ensures Filter(books, Filters(title, "any", "any")) == books
  {
    TrimEmptyIffBlank(title);
    if books != [] {
      FilterWildcard(books[1..], title);
      assert books == [books[0]] + books[1..];
    }
  }

  /** A genre id that no book carries gives the empty result. */
  lemma {:induction false} FilterUnknownGenre(books: seq<Book>, filters: Filters)
    requires filters.genre != "any"
    requires forall i :: 0 <= i < |books| ==> filters.genre !in books[i].genres
    ensures Filter(books, filters) == []
  {
    if books != [] {
      FilterUnknownGenre(books[1..], filters);
    }
  }

  /** A book titled `Dune` is found by the title `dune`, whatever its author and genres. */
  lemma DuneScenario(dune: Book)
    requires dune.title == "Dune"
    ensures Filter([dune], Filters("dune", "any", "any")) == [dune]
  {
    assert StartsWith(ToLower("Dune"), ToLower("dune"));
  }

  /** The button the submit handler draws from `page = 1`: disabled when
      `len - size < 1`, its label `len - size` when that is positive, else 0. */
  function SearchButton(len: nat, size: nat): ShowMoreButton {
    var remaining := len - 1 * size;
    ShowMoreButton(if remaining > 0 then remaining else 0, remaining < 1)
  }

  /** The handler's own formulas agree with `updateShowMoreButton` at page 1. */
  lemma SearchButtonAgrees(len: nat, size: nat)
    ensures SearchButton(len, size) == Pagination.ButtonFor(Pagination.RemainingCount(len, 1, size))
  {
  }
}
