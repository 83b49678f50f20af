/** The detail viewer's lookup: from the nodes of a click's event path to
    the book whose details are shown. */
module Detail {
  import opened Catalog

  /** The first book of `books` with id `id`. */
  function Lookup(books: seq<Book>, id: string): Option<Book> {
    if books == [] then None
    else if books[0].id == id then Some(books[0])
    else Lookup(books[1..], id)
  }

  /** `node?.dataset?.preview` is truthy: present and not the empty string. */
  predicate HasPreviewId(node: Option<string>) {
    node.Some? && node.value != ""
  }

  /** The node carries a preview id that names a book of `books`. */
  predicate Resolves(books: seq<Book>, node: Option<string>) {
    HasPreviewId(node) && Lookup(books, node.value).Some?
  }

  /** The book of the first node of `path` that resolves. */
  function Resolve(books: seq<Book>, path: seq<Option<string>>): Option<Book> {
    if path == [] then None
    else if Resolves(books, path[0]) then Lookup(books, path[0].value)
    else Resolve(books, path[1..])
  }

  /** A lookup finds a book exactly when one has the id, and then it is the
      first such book of the catalog. */
  lemma {:induction false} LookupFindsFirst(books: seq<Book>, id: string)
    ensures Lookup(books, id).None? <==> forall i :: 0 <= i < |books| ==> books[i].id != id
    ensures Lookup(books, id).Some? ==>
      exists i :: 0 <= i < |books| && books[i] == Lookup(books, id).value && books[i].id == id
        && forall j :: 0 <= j < i ==> books[j].id != id
  {
    if books != [] && books[0].id != id {
      LookupFindsFirst(books[1..], id);
      if Lookup(books, id).Some? {
        var i :| 0 <= i < |books[1..]| && books[1..][i] == Lookup(books, id).value
          && books[1..][i].id == id && forall j :: 0 <= j < i ==> books[1..][j].id != id;
        assert books[i + 1] == books[1..][i];
        forall j | 0 <= j < i + 1 ensures books[j].id != id {
          if j > 0 { assert books[j] == books[1..][j - 1]; }
        }
      } else {
        forall i | 0 <= i < |books| ensures books[i].id != id {
          if i > 0 { assert books[i] == books[1..][i - 1]; }
        }
      }
    } else if books != [] {
      assert books[0] == Lookup(books, id).value;
    }
  }

  /** Nothing is shown exactly when no node of the path resolves; otherwise
      the book shown is the one the first resolving node names, and it comes
      from `books`. */
  lemma {:induction false} ResolveFindsFirst(books: seq<Book>, path: seq<Option<string>>)
    ensures Resolve(books, path).None? <==> forall k :: 0 <= k < |path| ==> !Resolves(books, path[k])
    ensures Resolve(books, path).Some? ==>
      exists k :: 0 <= k < |path| && Resolves(books, path[k])
        && Resolve(books, path) == Lookup(books, path[k].value)
        && forall j :: 0 <= j < k ==> !Resolves(books, path[j])
    ensures Resolve(books, path).Some? ==>
      Resolve(books, path).value in books
  {
    if path != [] && !Resolves(books, path[0]) {
      ResolveFindsFirst(books, path[1..]);
      if Resolve(books, path).Some? {
        var k :| 0 <= k < |path[1..]| && Resolves(books, path[1..][k])
          && Resolve(books, path[1..]) == Lookup(books, path[1..][k].value)
          && forall j :: 0 <= j < k ==> !Resolves(books, path[1..][j]);
        assert path[k + 1] == path[1..][k];
        forall j | 0 <= j < k + 1 ensures !Resolves(books, path[j]) {
          if j > 0 { assert path[j] == path[1..][j - 1]; }
        }
      } else {
        forall k | 0 <= k < |path| ensures !Resolves(books, path[k]) {
          if k > 0 { assert path[k] == path[1..][k - 1]; }
        }
      }
    } else if path != [] {
      assert Resolves(books, path[0]);
      LookupFindsFirst(books, path[0].value);
    }
  }

  /** The nested search of `preview`: for each node, until a book is found,
      scan the catalog for the first book with the node's preview id. */
  method FindActive(books: seq<Book>, path: seq<Option<string>>) returns (active: Option<Book>)
    ensures active == Resolve(books, path)
  {
    active := None;
    var i := 0;
    while i < |path|
      invariant 0 <= i <= |path|
      invariant active.None? ==> Resolve(books, path) == Resolve(books, path[i..])
      invariant active.Some? ==> active == Resolve(books, path)
    {
      if active.Some? {
        break;
      }
      var node := path[i];
      if HasPreviewId(node) {
        var id := node.value;
        var result: Option<Book> := None;
        var j := 0;
        while j < |books|
          invariant 0 <= j <= |books|
          invariant result.None? ==> Lookup(books, id) == Lookup(books[j..], id)
          invariant result.Some? ==> result == Lookup(books, id)
        {
          if result.Some? {
            break;
          }
          if books[j].id == id {
            result := Some(books[j]);
          } else {
            assert books[j..][1..] == books[j + 1..];
          }
          j := j + 1;
        }
        active := result;
      }
      assert path[i..][1..] == path[i + 1..];
      i := i + 1;
    }
  }
}
