/**
 * The page arithmetic shared by both list operations: the number of pages
 * (`Math.ceil(count / pageSize)`), the reference definition of one page of a
 * listing, and the facts that tie the page flags to the items of a listing.
 */
module Paging {

  function Min(a: int, b: int): (m: int)
    ensures m <= a && m <= b && (m == a || m == b)
  {
    if a <= b then a else b
  }

  /** `Math.ceil(n / d)` on a non-negative count and a positive page size:
      the fewest pages of `d` items that hold `n` items. */
  function CeilDiv(n: nat, d: nat): (pages: nat)
    requires d >= 1
    ensures pages * d >= n
    ensures pages == 0 || (pages - 1) * d < n
    ensures pages == 0 <==> n == 0
  {
    var q := (n + d - 1) / d;
    assert n + d - 1 == q * d + (n + d - 1) % d;
    assert (q - 1) * d == q * d - d;
    q
  }

  /** Number of items that precede page `page` (pages are numbered from 1). */
  function Offset(page: int, size: nat): (skip: nat)
    requires page >= 1
    ensures size >= 1 ==> (skip == 0 <==> page == 1)
  {
    MulMonotone(0, page - 1, size);
    assert page > 1 ==> (page - 1) * size >= size by {
      if page > 1 { MulMonotone(1, page - 1, size); }
    }
    (page - 1) * size
  }

  /** Reference definition of a page: the at most `size` items of `s` that come
      after the first `offset` ones, in their order in `s`. */
  function Window<T>(s: seq<T>, offset: nat, size: nat): (page: seq<T>)
    ensures |page| <= size
    ensures |page| == if offset < |s| then Min(size, |s| - offset) else 0
    ensures forall i :: 0 <= i < |page| ==> page[i] == s[offset + i]
  {
    if offset < |s| then s[offset .. offset + Min(size, |s| - offset)] else []
  }

  lemma MulMonotone(a: int, b: int, d: nat)
    requires a <= b
    ensures a * d <= b * d
  {
    assert b * d - a * d == (b - a) * d;
  }

  /** A page index lies below the page count exactly when some item lies
      beyond the first `k` full pages. */
  lemma BelowPageCount(n: nat, d: nat, k: nat)
    requires d >= 1
    ensures k < CeilDiv(n, d) <==> k * d < n
  {
    var c := CeilDiv(n, d);
    if k < c {
      MulMonotone(k, c - 1, d);
    } else {
      MulMonotone(c, k, d);
    }
  }

  /** The next-page flag `page < totalPages` holds exactly when an item lies
      after the end of page `page`. */
  lemma HasNextIffItemsFollow(n: nat, d: nat, page: int)
    requires d >= 1 && page >= 1
    ensures page < CeilDiv(n, d) <==> page * d < n
  {
    BelowPageCount(n, d, page);
  }

  /** A page is empty exactly when its number is past the page count: every
      page from 1 to the count holds at least one item, and asking for a page
      beyond the last is not an error but yields nothing. */
  lemma PageEmptyIffBeyondLast<T>(s: seq<T>, d: nat, page: int)
    requires d >= 1 && page >= 1
    ensures Window(s, Offset(page, d), d) == [] <==> page > CeilDiv(|s|, d)
  {
    BelowPageCount(|s|, d, page - 1);
  }

  /** Pages 1 to k of `s`, one after the other. */
  function Pages<T>(s: seq<T>, d: nat, k: nat): seq<T>
    requires d >= 1
  {
    if k == 0 then [] else Pages(s, d, k - 1) + Window(s, Offset(k, d), d)
  }

  /** The first k pages together are the first k * d items of the listing. */
  lemma {:induction false} PagesArePrefix<T>(s: seq<T>, d: nat, k: nat)
    requires d >= 1
    ensures Pages(s, d, k) == s[..Min(k * d, |s|)]
  {
    if k > 0 {
      PagesArePrefix(s, d, k - 1);
      var before := Offset(k, d);
      NextOffset(k, d);
      WindowIsSlice(s, before, d);
      PrefixThenSlice(s, Min(before, |s|), Min(before + d, |s|));
    }
  }

  lemma PrefixThenSlice<T>(s: seq<T>, lo: nat, hi: nat)
    requires lo <= hi <= |s|
    ensures s[..lo] + s[lo..hi] == s[..hi]
  {
  }

  lemma NextOffset(k: nat, d: nat)
    requires k >= 1
    ensures Offset(k, d) == (k - 1) * d
    ensures k * d == Offset(k, d) + d
  {
  }

  lemma WindowIsSlice<T>(s: seq<T>, offset: nat, d: nat)
    ensures Window(s, offset, d) == s[Min(offset, |s|)..Min(offset + d, |s|)]
  {
  }

  /** Reading every page from 1 to the page count returns the whole listing,
      each item exactly once and in order. */
  lemma PagesCoverListing<T>(s: seq<T>, d: nat)
    requires d >= 1
    ensures Pages(s, d, CeilDiv(|s|, d)) == s
  {
    PagesArePrefix(s, d, CeilDiv(|s|, d));
  }
}
