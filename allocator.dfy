/** `page_aligned_allocator` (src/allocator.cpp): page-aligned buffers served
    by one platform facility, with an optional guard-page layer
    (TORRENT_DEBUG_BUFFERS) that puts an `alloc_header` in a protected page
    before every buffer and protects the page after it. */
module Allocator {
  import opened PageSize
  import opened GuardLayout
  import opened Facility

  /** The sentinel `alloc_header::magic` holds while a block is allocated. */
  const Live := 0x1337

  /** The capacity of `alloc_header::stack`. */
  const StackBytes := 3072

  /** A call-stack snapshot written by `print_backtrace`; its contents are
      not interpreted here. */
  type Backtrace = s: seq<char> | |s| <= StackBytes

  /** The protection `mprotect` leaves on a page: `PROT_READ`, or
      `PROT_READ | PROT_WRITE` (also the protection of a page never passed
      to `mprotect`). */
  datatype Protection = ReadOnly | ReadWrite

  /** `alloc_header`, written at the start of the leading page of a debug
      allocation. */
  datatype AllocHeader = AllocHeader(size: int, magic: int, stack: Backtrace)

  /** The protection of page `addr` under the protections `mprotect` has set. */
  function ProtectionAt(protection: map<int, Protection>, addr: int): (p: Protection)
  {
    if addr in protection then protection[addr] else ReadWrite
  }

  /** The state of a live debug allocation based at `raw`: its recorded size
      passed the request checks, its region is still handed out and has the
      debug layout, and both its guard pages are read-only. */
  ghost predicate Guarded(page: int, regions: map<int, int>, headers: map<int, AllocHeader>,
                          protection: map<int, Protection>, raw: int)
    requires page > 0 && raw in headers
  {
    var h := headers[raw];
    && 0 < h.size < SizeCeiling && page <= h.size
    && raw in regions && regions[raw] == RawSize(h.size, page)
    && ProtectionAt(protection, raw) == ReadOnly
    && ProtectionAt(protection, TrailingGuard(raw, h.size, page)) == ReadOnly
  }

  /** Page `addr` is one of the two guard pages of a live allocation. */
  ghost predicate IsLiveGuard(page: int, headers: map<int, AllocHeader>, addr: int)
    requires page > 0
  {
    exists raw :: raw in headers && headers[raw].magic == Live && headers[raw].size > 0 &&
      (addr == raw || addr == TrailingGuard(raw, headers[raw].size, page))
  }

  /** The debug layer's bookkeeping agrees with the facility: in a debug
      build a raw region is handed out exactly when the header at its base
      carries the live sentinel, every such allocation is guarded, and no
      other page is read-only. Without the debug layer nothing is written
      or protected. */
  ghost predicate Consistent(debug: bool, page: int, regions: map<int, int>,
                             headers: map<int, AllocHeader>, protection: map<int, Protection>)
    requires page > 0
  {
    && (!debug ==> headers == map[] && protection == map[])
    && (debug ==> forall raw :: raw in regions ==> raw in headers && headers[raw].magic == Live)
    && (forall raw :: raw in headers && headers[raw].magic == Live ==>
          Guarded(page, regions, headers, protection, raw))
    && (forall addr :: addr in protection && protection[addr] == ReadOnly ==>
          IsLiveGuard(page, headers, addr))
  }

  /** A successful debug `malloc` keeps the bookkeeping consistent: the new
      allocation is guarded, and since its region overlaps no other, writing
      its header and protecting its two guard pages leaves every other live
      allocation guarded. Every page of the fresh region was writable, so
      the header is written into a writable page and, once the two guards are
      protected, the user pages are left writable. */
  lemma MallocKeepsConsistent(page: int, regions: map<int, int>, headers: map<int, AllocHeader>,
                              protection: map<int, Protection>, raw: int, bytes: int, stack: Backtrace)
    requires 0 < page <= bytes < SizeCeiling
    requires Consistent(true, page, regions, headers, protection)
    requires raw !in regions
    requires forall b :: b in regions ==> raw + RawSize(bytes, page) <= b || b + regions[b] <= raw
    ensures forall addr :: raw <= addr < raw + RawSize(bytes, page) ==>
              ProtectionAt(protection, addr) == ReadWrite
    ensures Consistent(true, page,
                       regions[raw := RawSize(bytes, page)],
                       headers[raw := AllocHeader(bytes, Live, stack)],
                       protection[raw := ReadOnly][TrailingGuard(raw, bytes, page) := ReadOnly])
  {
    var regions', headers' := regions[raw := RawSize(bytes, page)], headers[raw := AllocHeader(bytes, Live, stack)];
    var g := TrailingGuard(raw, bytes, page);
    var protection' := protection[raw := ReadOnly][g := ReadOnly];
    FreeFindsMallocGuards(raw, bytes, bytes, page);
    forall addr | raw <= addr < raw + RawSize(bytes, page)
      ensures ProtectionAt(protection, addr) == ReadWrite
    {
      if addr in protection && protection[addr] == ReadOnly {
        assert false;
      }
    }
    forall other | other in headers' && headers'[other].magic == Live
      ensures Guarded(page, regions', headers', protection', other)
    {
      if other != raw {
        var h := headers[other];
        assert Guarded(page, regions, headers, protection, other);
        GuardsOfDisjointRegions(raw, bytes, other, h.size, page);
      }
    }
    forall addr | addr in protection' && protection'[addr] == ReadOnly
      ensures IsLiveGuard(page, headers', addr)
    {
      if addr == raw || addr == g {
        assert headers'[raw].size > 0;
      } else {
        var other :| other in headers && headers[other].magic == Live && headers[other].size > 0 &&
          (addr == other || addr == TrailingGuard(other, headers[other].size, page));
        assert Guarded(page, regions, headers, protection, other);
        assert other != raw && headers'[other] == headers[other];
      }
    }
  }

  /** A debug `free` of a live block keeps the bookkeeping consistent:
      clearing the sentinel, unprotecting the block's two guard pages and
      releasing its region leave every other live allocation guarded, since
      the facility's regions do not overlap. */
  lemma FreeKeepsConsistent(page: int, regions: map<int, int>, headers: map<int, AllocHeader>,
                            protection: map<int, Protection>, raw: int, stack: Backtrace)
    requires page > 0
    requires Consistent(true, page, regions, headers, protection) && Disjoint(regions)
    requires raw in headers && headers[raw].magic == Live
    ensures var size := headers[raw].size;
            Guarded(page, regions, headers, protection, raw) &&
            Consistent(true, page,
                       regions - {raw},
                       headers[raw := AllocHeader(size, 0, stack)],
                       protection[raw := ReadWrite][TrailingGuard(raw, size, page) := ReadWrite])
  {
    var size := headers[raw].size;
    assert Guarded(page, regions, headers, protection, raw);
    var regions', headers' := regions - {raw}, headers[raw := AllocHeader(size, 0, stack)];
    var protection' := protection[raw := ReadWrite][TrailingGuard(raw, size, page) := ReadWrite];
    forall other | other in headers' && headers'[other].magic == Live
      ensures Guarded(page, regions', headers', protection', other)
    {
      var h := headers[other];
      assert Guarded(page, regions, headers, protection, other);
      GuardsOfDisjointRegions(raw, size, other, h.size, page);
    }
    forall addr | addr in protection' && protection'[addr] == ReadOnly
      ensures IsLiveGuard(page, headers', addr)
    {
      var other :| other in headers && headers[other].magic == Live && headers[other].size > 0 &&
        (addr == other || addr == TrailingGuard(other, headers[other].size, page));
      assert other != raw && headers'[other] == headers[other];
    }
  }

  class PageAlignedAllocator {
    /** Whether the guard-page layer is compiled in (TORRENT_DEBUG_BUFFERS). */
    const debug: bool
    /** The process-wide page-size cache behind `page_size()`. */
    const pages: PageSizeCache
    /** The platform facility. */
    const os: AlignedFacility
    /** The `alloc_header` stored at each raw base the debug layer has used,
        as last written (a freed block keeps its cleared header). */
    var headers: map<int, AllocHeader>
    /** The protection `mprotect` last set on each page address. */
    var protection: map<int, Protection>

    /** The value every call of `page_size()` returns in this process. */
    function Page(): (page: int)
      ensures page > 0
    {
      ResolvePageSize(pages.query)
    }

    function ProtectionOf(addr: int): (p: Protection)
      reads this
    {
      ProtectionAt(protection, addr)
    }

    ghost predicate Valid()
      reads this, pages, os
    {
      && pages.Valid()
      && os.Valid()
      && (headers != map[] ==> pages.s != 0)
      && Consistent(debug, Page(), os.regions, headers, protection)
    }

    /** Whether `block` may be passed to `Free`: in a debug build, the header
        one page before it carries the live sentinel (the assertion `free`
        makes); otherwise it is a region the facility handed out. */
    predicate Owns(block: int)
      reads this, os
      ensures Owns(block) && Consistent(debug, Page(), os.regions, headers, protection) ==>
        (if debug then block - Page() else block) in os.regions
    {
      if debug then block - Page() in headers && headers[block - Page()].magic == Live
      else block in os.regions
    }

    /** The number of bytes `malloc` asks the facility for. */
    function RequestSize(bytes: int): (size: int)
      requires bytes > 0
    {
      if debug then RawSize(bytes, Page()) else bytes
    }

    constructor (debug: bool, pageQuery: int)
      ensures Valid()
      ensures this.debug == debug && pages.query == pageQuery
      ensures fresh(pages) && fresh(os)
      ensures pages.s == 0 && os.regions == map[]
      ensures headers == map[] && protection == map[]
    {
      this.debug := debug;
      pages := new PageSizeCache(pageQuery);
      os := new AlignedFacility();
      headers := map[];
      protection := map[];
    }

    /** `page_aligned_allocator::malloc`. The request must be positive, below
        the sanity ceiling and at least one page (assertions in the source).
        `ret` is the facility's answer. On failure nothing changes and null is
        returned. Without the debug layer the facility's block is returned
        as it is. With it, the facility is asked for the request rounded up
        to whole pages plus two pages; the header is written into the first
        page, the first and last pages are made read-only, and the pointer
        one page past the raw base is returned. Either way the result is
        page-aligned. */
    method Malloc(bytes: int, stack: Backtrace, ret: int) returns (p: int)
      requires Valid()
      requires 0 < bytes < SizeCeiling
      requires bytes >= Page()
      requires os.MayReturn(ret, RequestSize(bytes), Page())
      modifies this, pages, os
      ensures Valid()
      ensures pages.s == Page()
      ensures ret == Null ==>
        && p == Null
        && os.regions == old(os.regions)
        && headers == old(headers)
        && protection == old(protection)
      ensures ret != Null ==> p % Page() == 0 && Owns(p)
      ensures ret != Null && !debug ==>
        && p == ret
        && os.regions == old(os.regions)[ret := bytes]
        && headers == old(headers)
        && protection == old(protection)
      ensures ret != Null && debug ==>
        && p == ret + Page()
        && os.regions == old(os.regions)[ret := RawSize(bytes, Page())]
        && headers == old(headers)[ret := AllocHeader(bytes, Live, stack)]
        && protection == old(protection)[ret := ReadOnly][TrailingGuard(ret, bytes, Page()) := ReadOnly]
      ensures ret != Null && debug ==>
        && (forall addr :: ret <= addr < ret + RawSize(bytes, Page()) ==>
              ProtectionAt(old(protection), addr) == ReadWrite)
        && (forall addr :: p <= addr < TrailingGuard(ret, bytes, Page()) ==> ProtectionOf(addr) == ReadWrite)
    {
      var page := pages.PageSize();
      var size := bytes;
      var numPages := 0;
      if debug {
        numPages := (bytes + (page - 1)) / page + 2;
        size := numPages * page;
      }
      var alignment := pages.PageSize();
      var raw := os.Allocate(size, alignment, ret);
      if raw == Null {
        return Null;
      }
      if !debug {
        return raw;
      }
      assert numPages == NumPages(bytes, page) && size == RawSize(bytes, page);
      headers := headers[raw := AllocHeader(bytes, Live, stack)];
      FreeFindsMallocGuards(raw, bytes, bytes, page);
      protection := protection[raw := ReadOnly];
      protection := protection[raw + (numPages - 1) * page := ReadOnly];
      p := raw + page;
      NextPageAligned(raw, page);
      MallocKeepsConsistent(page, old(os.regions), old(headers), old(protection), raw, bytes, stack);
      forall addr | p <= addr < TrailingGuard(raw, bytes, page)
        ensures ProtectionOf(addr) == ReadWrite
      {
        assert ProtectionAt(old(protection), addr) == ReadWrite;
      }
    }

    /** `page_aligned_allocator::free`. Null is ignored. Without the debug
        layer the block goes back to the facility. With it, the header is
        found one page before the block, the page count is recomputed from
        the size stored there, both guard pages are made writable again, the
        live sentinel is asserted and cleared, a free-site snapshot replaces
        the stack, and the raw base goes back to the facility. Afterwards the
        block is no longer owned, so freeing it again breaks the sentinel
        assertion. */
    method Free(block: int, stack: Backtrace)
      requires Valid()
      requires block == Null || Owns(block)
      modifies this, pages, os
      ensures Valid()
      ensures pages.s == old(pages.s)
      ensures block == Null ==>
        && os.regions == old(os.regions)
        && headers == old(headers)
        && protection == old(protection)
      ensures block != Null ==> !Owns(block)
      ensures block != Null && !debug ==>
        && os.regions == old(os.regions) - {block}
        && headers == old(headers)
        && protection == old(protection)
      ensures block != Null && debug ==>
        var raw := block - Page();
        var size := old(headers)[raw].size;
        && os.regions == old(os.regions) - {raw}
        && headers == old(headers)[raw := AllocHeader(size, 0, stack)]
        && protection == old(protection)[raw := ReadWrite][TrailingGuard(raw, size, Page()) := ReadWrite]
    {
      if block == Null {
        return;
      }
      var raw := block;
      if debug {
        var page := pages.PageSize();
        FreeKeepsConsistent(page, os.regions, headers, protection, block - page, stack);
        protection := protection[block - page := ReadWrite];
        var h := headers[block - page];
        var numPages := (h.size + (page - 1)) / page + 2;
        assert h.magic == Live;
        assert numPages == NumPages(h.size, page);
        FreeFindsMallocGuards(block - page, h.size, h.size, page);
        protection := protection[block + (numPages - 2) * page := ReadWrite];
        assert protection == old(protection)[block - page := ReadWrite][TrailingGuard(block - page, h.size, page) := ReadWrite];
        headers := headers[block - page := h.(magic := 0)];
        raw := block - page;
        headers := headers[raw := headers[raw].(stack := stack)];
        assert headers == old(headers)[raw := AllocHeader(h.size, 0, stack)];
      }
      os.Release(raw);
    }

    /** `page_aligned_allocator::in_use` (debug builds only): whether the
        header one page before `block` carries the live sentinel, which is
        whether the block is allocated and not yet freed. Only the page-size
        cache is touched, and it already holds its value. */
    method InUse(block: int) returns (live: bool)
      requires Valid() && debug
      requires block - Page() in headers
      modifies pages
      ensures Valid()
      ensures pages.s == old(pages.s)
      ensures live == (headers[block - Page()].magic == Live)
      ensures live <==> block - Page() in os.regions
      ensures live == Owns(block)
    {
      var page := pages.PageSize();
      var h := headers[block - page];
      live := h.magic == Live;
    }
  }

  /** One block through its whole life in a debug build: live after
      `malloc`, not live after `free`, its guard pages writable again, the
      facility back where it started, and the block no longer one that
      `free` accepts. */
  method GuardedLifecycle(a: PageAlignedAllocator, bytes: int, ret: int, atMalloc: Backtrace, atFree: Backtrace)
    requires a.Valid() && a.debug
    requires 0 < bytes < SizeCeiling && bytes >= a.Page()
    requires ret != Null && a.os.MayReturn(ret, a.RequestSize(bytes), a.Page())
    modifies a, a.pages, a.os
    ensures a.Valid()
    ensures a.os.regions == old(a.os.regions)
    ensures a.ProtectionOf(ret) == ReadWrite
    ensures a.ProtectionOf(TrailingGuard(ret, bytes, a.Page())) == ReadWrite
    ensures !a.Owns(ret + a.Page())
  {
    var p := a.Malloc(bytes, atMalloc, ret);
    var live := a.InUse(p);
    assert live;
    a.Free(p, atFree);
    live := a.InUse(p);
    assert !live;
  }
}
