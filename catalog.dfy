/** The catalog entities and the array slicing the list renderer uses. */
module Catalog {

  datatype Option<T> = None | Some(value: T)

  /** One entry of the `books` catalog. `published` is kept as the raw date
      string; `genres` holds genre ids in the catalog's order. */
  datatype Book = Book(
    id: string,
    title: string,
    author: string,
    image: string,
    description: string,
    published: string,
    genres: seq<string>)

  function Min(a: int, b: int): int {
    if a <= b then a else b
  }

  /** How `Array.prototype.slice` turns an argument into a position:
      a negative one counts from the end, and both are clamped to `[0, len]`. */
  function RelativeIndex(k: int, len: nat): (r: nat)
    ensures r <= len
  {
    if k < 0 then (if len + k < 0 then 0 else len + k)
    else if k < len then k
    else len
  }

  /** `s.slice(start, end)`: never fails, and is empty when the range is. */
  function JsSlice<T>(s: seq<T>, start: int, end: int): (r: seq<T>)
    ensures |r| <= |s|
    ensures 0 <= start <= end ==> r == s[Min(start, |s|)..Min(end, |s|)]
    ensures 0 <= start && |s| <= start ==> r == []
  {
    var from := RelativeIndex(start, |s|);
    var to := RelativeIndex(end, |s|);
    if from < to then s[from..to] else []
  }
}
