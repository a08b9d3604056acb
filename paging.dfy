/**
 * The paging window of a search: page `p` of size `s` is the slice `[(p-1)*s, p*s)` of the
 * ordered matches, cut short at the end of the data. The window is clamped; the caller's page
 * number and size are not.
 */
module Paging {

  function Min(a: int, b: int): int
  {
    if a <= b then a else b
  }

  function Clamp(x: int, low: int, high: int): int
  {
    if x < low then low else if x > high then high else x
  }

  /** The position of a page's first entry. */
  function Offset(pageNumber: int, pageSize: int): (r: int)
    requires pageNumber >= 1 && pageSize >= 1
    ensures r >= 0
  {
    (pageNumber - 1) * pageSize
  }

  /** The entries of page `pageNumber`. */
  function Page<T>(xs: seq<T>, pageNumber: int, pageSize: int): (r: seq<T>)
    requires pageNumber >= 1 && pageSize >= 1
    ensures |r| == Clamp(|xs| - Offset(pageNumber, pageSize), 0, pageSize)
    ensures forall k :: 0 <= k < |r| ==> r[k] == xs[Offset(pageNumber, pageSize) + k]
  {
    var low := Min(Offset(pageNumber, pageSize), |xs|);
    var high := Min(Offset(pageNumber, pageSize) + pageSize, |xs|);
    xs[low..high]
  }

  /** Pages 1 to `count`, one after the other. */
  function Pages<T>(xs: seq<T>, pageSize: int, count: nat): seq<T>
    requires pageSize >= 1
  {
    if count == 0 then [] else Pages(xs, pageSize, count - 1) + Page(xs, count, pageSize)
  }

  /** The first `count` pages, read in turn, are the first `count * pageSize` entries: nothing is skipped or repeated. */
  lemma {:induction false} PagesAreAPrefix<T>(xs: seq<T>, pageSize: int, count: nat)
    requires pageSize >= 1
    ensures Pages(xs, pageSize, count) == xs[..Min(count * pageSize, |xs|)]
  {
    if count > 0 {
      PagesAreAPrefix(xs, pageSize, count - 1);
      var low := Min((count - 1) * pageSize, |xs|);
      var high := Min(count * pageSize, |xs|);
      assert Offset(count, pageSize) + pageSize == count * pageSize;
      assert (count - 1) * pageSize <= count * pageSize;
      assert Page(xs, count, pageSize) == xs[low..high];
      assert xs[..low] + xs[low..high] == xs[..high];
    }
  }

  /** Once the pages reach the end of the data, together they hold every entry exactly once, in order. */
  lemma PagesCoverAll<T>(xs: seq<T>, pageSize: int, count: nat)
    requires pageSize >= 1 && count * pageSize >= |xs|
    ensures Pages(xs, pageSize, count) == xs
  {
    PagesAreAPrefix(xs, pageSize, count);
    assert xs[..|xs|] == xs;
  }
}
