/** Pagination arithmetic and the row-menu toggle shared by the three
    tables (students, attendance history, users). */
module Tables {
  import opened Wrappers

  function Min(a: int, b: int): int { if a <= b then a else b }
  function Max(a: int, b: int): int { if a >= b then a else b }

  /** `Math.ceil(count / pageSize)`: the fewest pages of `pageSize` rows that hold `count` rows. */
  function TotalPages(count: nat, pageSize: nat): (r: nat)
    requires pageSize > 0
    ensures count <= r * pageSize
    ensures r > 0 ==> (r - 1) * pageSize < count
    ensures r == 0 <==> count == 0
  {
    (count + pageSize - 1) / pageSize
  }

  /** `Math.max(1, Math.min(page, totalPages))`. */
  function GoToPage(target: int, totalPages: nat): (r: int)
    ensures 1 <= r <= Max(1, totalPages)
    ensures 1 <= target <= totalPages ==> r == target
    ensures totalPages == 0 ==> r == 1
    ensures target > totalPages >= 1 ==> r == totalPages
    ensures target < 1 ==> r == 1
  {
    Max(1, Min(target, totalPages))
  }

  /** How `Array.prototype.slice` reads an index: negative counts from the
      end, and the result is clamped to `[0, len]`. */
  function SliceIndex(i: int, len: nat): (r: nat)
    ensures r <= len
    ensures 0 <= i <= len ==> r == i
  {
    if i < 0 then (if len + i < 0 then 0 else len + i) else if i > len then len else i
  }

  /** `s.slice(start, end)`. */
  function Slice<T>(s: seq<T>, start: int, end: int): seq<T> {
    var a := SliceIndex(start, |s|);
    var b := SliceIndex(end, |s|);
    if a < b then s[a..b] else []
  }

  /** A slice is never longer than the span it asks for, when the span
      does not straddle the end-relative indexes (a `slice(1, -1)` would). */
  lemma SliceLength<T>(s: seq<T>, start: int, end: int)
    requires start <= end
    requires start >= 0 || end <= 0
    ensures |Slice(s, start, end)| <= end - start
  {
    if start >= 0 {
      assert SliceIndex(end, |s|) - SliceIndex(start, |s|) <= end - start;
    } else if end == 0 {
      assert SliceIndex(end, |s|) == 0;
    } else {
      assert SliceIndex(end, |s|) - SliceIndex(start, |s|) <= end - start;
    }
  }

  lemma MulMonotone(a: int, b: int, c: nat)
    requires a <= b
    ensures a * c <= b * c
  {
  }

  /** `(page - 1) * pageSize`: the index of the page's first row. */
  function PageStart(page: int, pageSize: nat): int {
    (page - 1) * pageSize
  }

  /** The rows a client-side table shows: `data.slice(start, start + pageSize)`. */
  function VisiblePage<T>(data: seq<T>, page: int, pageSize: nat): (r: seq<T>)
    ensures |r| <= pageSize
  {
    SliceLength(data, PageStart(page, pageSize), PageStart(page, pageSize) + pageSize);
    Slice(data, PageStart(page, pageSize), PageStart(page, pageSize) + pageSize)
  }

  /** Pages 1..k laid end to end. */
  function PagesUpTo<T>(data: seq<T>, pageSize: nat, k: nat): seq<T> {
    if k == 0 then [] else PagesUpTo(data, pageSize, k - 1) + VisiblePage(data, k, pageSize)
  }

  /** The first row of page `page >= 1` is not negative, and the page ends at `page * pageSize`. */
  lemma PageStartBounds(page: int, pageSize: nat)
    requires page >= 1
    ensures 0 <= PageStart(page, pageSize)
    ensures PageStart(page, pageSize) + pageSize == page * pageSize
    ensures PageStart(page, pageSize) <= page * pageSize
  {
    MulMonotone(0, page - 1, pageSize);
  }

  /** Page `page >= 1` is the block of rows between its clamped bounds. */
  lemma PageSlice<T>(data: seq<T>, page: int, pageSize: nat)
    requires page >= 1
    ensures VisiblePage(data, page, pageSize)
      == data[Min(PageStart(page, pageSize), |data|)..Min(page * pageSize, |data|)]
  {
    PageStartBounds(page, pageSize);
  }

  /** Two adjacent clamped blocks make one clamped prefix. */
  lemma ClampedPrefixes<T>(data: seq<T>, x: int, y: int)
    requires 0 <= x <= y
    ensures data[..Min(x, |data|)] + data[Min(x, |data|)..Min(y, |data|)] == data[..Min(y, |data|)]
  {
  }

  lemma {:induction false} PagesUpToIsPrefix<T>(data: seq<T>, pageSize: nat, k: nat)
    ensures PagesUpTo(data, pageSize, k) == data[..Min(k * pageSize, |data|)]
  {
    if k > 0 {
      var x := (k - 1) * pageSize;
      var y := k * pageSize;
      PagesUpToIsPrefix(data, pageSize, k - 1);
      PageSlice(data, k, pageSize);
      PageStartBounds(k, pageSize);
      assert PageStart(k, pageSize) == x;
      ClampedPrefixes(data, x, y);
    }
  }

  /** Paging loses and repeats nothing: pages 1..totalPages put together
      give back the whole list, each page holding at most `pageSize` rows. */
  lemma AllPagesGiveBackData<T>(data: seq<T>, pageSize: nat)
    requires pageSize > 0
    ensures PagesUpTo(data, pageSize, TotalPages(|data|, pageSize)) == data
  {
    PagesUpToIsPrefix(data, pageSize, TotalPages(|data|, pageSize));
    assert data[..|data|] == data;
  }

  /** A page in range starts at an existing row. */
  lemma PageStartBelowCount(count: nat, page: int, pageSize: nat)
    requires pageSize > 0
    requires 1 <= page <= TotalPages(count, pageSize)
    ensures 0 <= PageStart(page, pageSize) < count
  {
    var n := TotalPages(count, pageSize);
    MulMonotone(page - 1, n - 1, pageSize);
    PageStartBounds(page, pageSize);
  }

  /** A page in range is non-empty and holds the rows the range label names. */
  lemma PageInRange<T>(data: seq<T>, page: int, pageSize: nat)
    requires pageSize > 0
    requires 1 <= page <= TotalPages(|data|, pageSize)
    ensures VisiblePage(data, page, pageSize) == data[PageStart(page, pageSize)..Min(page * pageSize, |data|)]
    ensures |VisiblePage(data, page, pageSize)| >= 1
  {
    PageStartBelowCount(|data|, page, pageSize);
    PageStartBounds(page, pageSize);
    PageSlice(data, page, pageSize);
  }

  /** "from to to of total" under a client-side table:
      `startIndex + 1`, `Math.min(endIndex, length)`, `length`. */
  datatype RangeLabel = RangeLabel(from: int, to: int, total: nat)

  function SliceRangeLabel(count: nat, page: int, pageSize: nat): (r: RangeLabel)
    ensures r.total == count
    ensures r.to <= count
  {
    RangeLabel(PageStart(page, pageSize) + 1, Min(PageStart(page, pageSize) + pageSize, count), count)
  }

  /** On a page in range the label counts exactly the rows shown, and
      names their 1-based positions. */
  lemma SliceRangeLabelMatchesPage<T>(data: seq<T>, page: int, pageSize: nat)
    requires pageSize > 0
    requires 1 <= page <= TotalPages(|data|, pageSize)
    ensures var l := SliceRangeLabel(|data|, page, pageSize);
      && 1 <= l.from <= l.to
      && l.to - l.from + 1 == |VisiblePage(data, page, pageSize)|
      && VisiblePage(data, page, pageSize) == data[l.from - 1..l.to]
  {
    PageInRange(data, page, pageSize);
    PageStartBounds(page, pageSize);
  }

  /** `toggleDropdown(id)`: closes the menu that is open for `id`, otherwise opens `id`'s. */
  function ToggleDropdown(open: Option<string>, id: string): (r: Option<string>)
    ensures r == Some(id) <==> open != Some(id)
    ensures r != Some(id) ==> r.None?
  {
    if open == Some(id) then None else Some(id)
  }

  /** Toggling the same row twice returns to where it started, provided no
      other row's menu was open; from closed it returns to closed. */
  lemma ToggleTwice(open: Option<string>, id: string)
    requires open.None? || open == Some(id)
    ensures ToggleDropdown(ToggleDropdown(open, id), id) == open
  {
  }
}
