/**
 * The page of a Redis list that GetAllUsers and GetAllProfiles ask for.
 *
 * Both compute `start = pageIndex * pageSize` and `end = start + pageSize`
 * in unchecked 32-bit arithmetic and pass them to LRANGE, whose end index is
 * inclusive, so a page in the middle of the list holds one name too many.
 * `PageAsWritten` is that request; `Page` asks for `end = start + pageSize - 1`,
 * and for nothing when the page size is not positive, and is what the rest of
 * the model uses.
 */
module Paging {
  import opened Common
  import opened Store

  /** The first index of a page, in the source's `int` arithmetic. */
  function PageStart(pageIndex: int, pageSize: int): int {
    Wrap32(pageIndex * pageSize)
  }

  /** The LRANGE request as written: `end = pageIndex * pageSize + pageSize`. */
  function PageAsWritten<T>(list: seq<T>, pageIndex: int, pageSize: int): (r: seq<T>)
    ensures |r| <= |list|
  {
    var start := PageStart(pageIndex, pageSize);
    Range(list, start, Wrap32(start + pageSize))
  }

  /**
   * The page with an inclusive end one before the next page's start. A page
   * size of zero or less asks for no names at all: without that guard the
   * end would be -1, which LRANGE reads as the last element, and the page
   * would be the whole list.
   */
  function Page<T>(list: seq<T>, pageIndex: int, pageSize: int): (r: seq<T>)
    ensures |r| <= |list|
    ensures pageSize <= 0 ==> r == []
  {
    if pageSize <= 0 then []
    else
      var start := PageStart(pageIndex, pageSize);
      Range(list, start, Wrap32(start + pageSize - 1))
  }

  /** No 32-bit overflow in computing the bounds of page `pageIndex`. */
  predicate InBounds(pageIndex: int, pageSize: int) {
    0 <= pageIndex && 0 <= pageSize && (pageIndex + 1) * pageSize <= Int32Max
  }

  function Min(a: int, b: int): int {
    if a < b then a else b
  }

  lemma PageBounds(pageIndex: int, pageSize: int)
    requires InBounds(pageIndex, pageSize)
    ensures 0 <= pageIndex * pageSize <= (pageIndex + 1) * pageSize == pageIndex * pageSize + pageSize <= Int32Max
    ensures PageStart(pageIndex, pageSize) == pageIndex * pageSize
  {
    assert (pageIndex + 1) * pageSize == pageIndex * pageSize + pageSize;
    assert 0 <= pageIndex * pageSize;
  }

  /**
   * The request as written returns `pageSize + 1` names whenever the list
   * extends past the end of the page.
   */
  lemma PageAsWrittenOneTooMany<T>(list: seq<T>, pageIndex: int, pageSize: int)
    requires InBounds(pageIndex, pageSize)
    requires (pageIndex + 1) * pageSize < |list|
    ensures PageAsWritten(list, pageIndex, pageSize) == list[pageIndex * pageSize..(pageIndex + 1) * pageSize + 1]
    ensures |PageAsWritten(list, pageIndex, pageSize)| == pageSize + 1
  {
    PageBounds(pageIndex, pageSize);
  }

  /** A concrete instance: the first one-name page of a three-name list holds two names. */
  lemma PageAsWrittenExample()
    ensures PageAsWritten(["a", "b", "c"], 0, 1) == ["a", "b"]
  {
    PageAsWrittenOneTooMany(["a", "b", "c"], 0, 1);
  }

  /**
   * With a page size of zero the request as written still returns the first
   * name (LRANGE 0 0), and the end `start + pageSize - 1` alone would return
   * every name (LRANGE 0 -1); the corrected page is empty.
   */
  lemma PageSizeZero<T>(list: seq<T>, pageIndex: int)
    requires list != []
    ensures PageAsWritten(list, pageIndex, 0) == list[..1]
    ensures Range(list, PageStart(pageIndex, 0), Wrap32(PageStart(pageIndex, 0) + 0 - 1)) == list
    ensures Page(list, pageIndex, 0) == []
  {
    assert PageStart(pageIndex, 0) == 0;
  }

  /**
   * The corrected page is the slice `[pageIndex * pageSize, (pageIndex + 1) * pageSize)`
   * cut to the list, so it never holds more than `pageSize` names.
   */
  lemma PageIsSlice<T>(list: seq<T>, pageIndex: int, pageSize: int)
    requires InBounds(pageIndex, pageSize)
    ensures var n := |list|;
      Page(list, pageIndex, pageSize) == list[Min(pageIndex * pageSize, n)..Min((pageIndex + 1) * pageSize, n)]
    ensures |Page(list, pageIndex, pageSize)| <= pageSize
  {
    PageBounds(pageIndex, pageSize);
  }

  /** Two adjacent slices cut to the list join into one. */
  lemma SlicesJoin<T>(list: seq<T>, a: int, b: int, c: int)
    requires 0 <= a <= b <= c
    ensures var n := |list|;
      list[Min(a, n)..Min(b, n)] + list[Min(b, n)..Min(c, n)] == list[Min(a, n)..Min(c, n)]
  {
  }

  /** Consecutive corrected pages neither overlap nor leave a gap. */
  lemma {:induction false} PagesTile<T>(list: seq<T>, pageIndex: int, pageSize: int)
    requires InBounds(pageIndex, pageSize) && InBounds(pageIndex + 1, pageSize)
    ensures var n := |list|;
      Page(list, pageIndex, pageSize) + Page(list, pageIndex + 1, pageSize)
        == list[Min(pageIndex * pageSize, n)..Min((pageIndex + 2) * pageSize, n)]
  {
    PageBounds(pageIndex, pageSize);
    PageBounds(pageIndex + 1, pageSize);
    PageIsSlice(list, pageIndex, pageSize);
    PageIsSlice(list, pageIndex + 1, pageSize);
    assert (pageIndex + 1 + 1) * pageSize == (pageIndex + 2) * pageSize;
    SlicesJoin(list, pageIndex * pageSize, (pageIndex + 1) * pageSize, (pageIndex + 2) * pageSize);
  }
}
