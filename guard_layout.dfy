/** Page arithmetic of the debug guard-page layer (TORRENT_DEBUG_BUFFERS in
    src/allocator.cpp). A request of `bytes` bytes is served from a raw region
    laid out as

      raw                 raw + page                       raw + (n - 1) * page
      | header/guard page | user pages (bytes, rounded up) | trailing guard page |

    where `n` is the page count, and the caller receives `raw + page`.
    All quantities are unbounded integers; RawSizeFitsInt states when they
    fit the `int` the source computes them in. */
module GuardLayout {

  /** The sanity ceiling the allocator asserts on every request. */
  const SizeCeiling := 0x3000_0000

  /** The largest value of a 32-bit signed `int`. */
  const IntMax := 0x7FFF_FFFF

  /** The number of pages the debug layer requests: the request rounded up
      to whole pages, plus the leading header/guard page and the trailing
      guard page. */
  function NumPages(bytes: int, page: int): (n: int)
    requires bytes > 0 && page > 0
    ensures n >= 3
    ensures (n - 2) * page >= bytes
    ensures (n - 3) * page < bytes
  {
    var x := bytes + (page - 1);
    var q := x / page;
    assert x == q * page + x % page;
    assert q * page >= bytes by {
      assert q * page > x - page;
    }
    assert (q - 1) * page < bytes by {
      assert (q - 1) * page == q * page - page;
    }
    q + 2
  }

  /** The size of the raw region: a whole number of pages, at least two
      pages more than the request and less than three pages more. */
  function RawSize(bytes: int, page: int): (r: int)
    requires bytes > 0 && page > 0
    ensures r % page == 0
    ensures bytes + 2 * page <= r < bytes + 3 * page
  {
    var n := NumPages(bytes, page);
    MultipleOfPage(n, page);
    assert n * page == (n - 2) * page + 2 * page;
    assert n * page == (n - 3) * page + 3 * page;
    n * page
  }

  /** The page the debug layer protects after the user pages: the last page
      of the raw region, which is also the first page boundary at or after
      the end of the user region `[raw + page, raw + page + bytes)`. */
  function TrailingGuard(raw: int, bytes: int, page: int): (g: int)
    requires bytes > 0 && page > 0
    ensures g + page == raw + RawSize(bytes, page)
    ensures raw + page + bytes <= g < raw + page + bytes + page
  {
    var n := NumPages(bytes, page);
    assert (n - 1) * page == (n - 2) * page + page;
    assert (n - 1) * page + page == n * page;
    raw + (n - 1) * page
  }

  lemma MultipleOfPage(k: int, page: int)
    requires page > 0
    ensures (k * page) % page == 0
  {
    var m := k * page;
    var q, r := m / page, m % page;
    assert m == q * page + r && 0 <= r < page;
    var d := k - q;
    assert d * page == r by {
      assert d * page == k * page - q * page;
    }
  }

  /** The page after a page-aligned address is page-aligned. */
  lemma NextPageAligned(a: int, page: int)
    requires page > 0 && a % page == 0
    ensures (a + page) % page == 0
  {
    var k := a / page;
    assert a == k * page;
    assert a + page == (k + 1) * page;
    MultipleOfPage(k + 1, page);
  }

  /** `free` locates the header at `block - page` and the trailing guard at
      `block + (num_pages - 2) * page`, with `num_pages` recomputed from the
      size stored in the header. When `block` is the pointer `malloc`
      returned for `raw` and the stored size is the original request, these
      are exactly the two pages `malloc` protected (`raw` and
      `raw + (num_pages - 1) * page`), and they are two different pages. */
  lemma FreeFindsMallocGuards(raw: int, bytes: int, storedSize: int, page: int)
    requires bytes > 0 && page > 0
    requires storedSize == bytes
    ensures var block := raw + page;
            && block - page == raw
            && block + (NumPages(storedSize, page) - 2) * page == TrailingGuard(raw, bytes, page)
            && raw != TrailingGuard(raw, bytes, page)
  {
    var n := NumPages(storedSize, page);
    assert page + (n - 2) * page == (n - 1) * page;
  }

  /** The two guard pages of a raw region lie inside it, and the user region
      lies strictly between them: byte `block - 1` is in the leading guard
      page and every byte of `[block, block + bytes)` is outside both guard
      pages. */
  lemma GuardsBracketUserRegion(raw: int, bytes: int, page: int)
    requires bytes > 0 && page > 0
    ensures var block := raw + page;
            var g := TrailingGuard(raw, bytes, page);
            && raw <= block - 1 < raw + page
            && block + bytes <= g
            && raw + page <= g
            && g + page <= raw + RawSize(bytes, page)
  {
  }

  /** If two raw regions do not overlap, no guard page of one is a guard
      page of the other: protecting or unprotecting the guards of one
      allocation leaves the guards of every other allocation alone. */
  lemma GuardsOfDisjointRegions(raw1: int, bytes1: int, raw2: int, bytes2: int, page: int)
    requires bytes1 > 0 && bytes2 > 0 && page > 0
    requires raw1 + RawSize(bytes1, page) <= raw2 || raw2 + RawSize(bytes2, page) <= raw1
    ensures raw1 != raw2 && raw1 != TrailingGuard(raw2, bytes2, page)
    ensures TrailingGuard(raw1, bytes1, page) != raw2
    ensures TrailingGuard(raw1, bytes1, page) != TrailingGuard(raw2, bytes2, page)
  {
    GuardsBracketUserRegion(raw1, bytes1, page);
    GuardsBracketUserRegion(raw2, bytes2, page);
  }

  /** With the request bounds the allocator asserts, every intermediate
      value of the page computation fits a 32-bit `int` as long as the page
      size is at most 256 MiB: `bytes + (page - 1)` always does (the request
      is at least one page), and the raw size does under that bound. */
  lemma RawSizeFitsInt(bytes: int, page: int)
    requires 0 < bytes < SizeCeiling && page <= bytes
    requires 0 < page <= 0x1000_0000
    ensures bytes + (page - 1) <= IntMax
    ensures NumPages(bytes, page) <= IntMax
    ensures RawSize(bytes, page) <= IntMax
  {
    assert NumPages(bytes, page) * page == RawSize(bytes, page);
    assert NumPages(bytes, page) <= NumPages(bytes, page) * page;
  }
}
