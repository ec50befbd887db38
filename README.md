# libtorrent page-aligned allocator, modelled in Dafny

This project models libtorrent's `page_aligned_allocator` (`src/allocator.cpp`):

- `page_size()`: a lazily cached, process-wide page size;
- `page_aligned_allocator::malloc` and `free`: they hand out page-aligned
  buffers from one platform facility;
- the optional guard-page layer compiled in under `TORRENT_DEBUG_BUFFERS`:
  - every request is rounded up to whole pages and gets two extra pages;
  - an `alloc_header` (original size, magic `0x1337`, stack snapshot) is
    written into the leading page;
  - the leading and trailing pages are made read-only;
  - the caller receives the raw base plus one page;
- `in_use`: the debug probe on the header's magic.

Modules:

- `PageSize` (`page_size.dfy`): `ResolvePageSize` and the class
  `PageSizeCache`, whose field `s` is the function-local static of
  `page_size()`.
  - Its invariant says the cache is either empty or holds exactly what a fresh
    computation yields, so every call returns the same positive value.
  - `PageSizeCall` is one call as a function of the static. `Results` gives the
    answers of a run of calls; the lemmas about it state idempotence.
- `GuardLayout` (`guard_layout.dfy`): the debug layer's page arithmetic.
  - `NumPages`, `RawSize` and `TrailingGuard` state the layout.
  - Lemmas show that `free`, which starts from the user pointer and the stored
    size, finds exactly the two pages `malloc` protected.
  - Lemmas show that guard pages of disjoint regions never coincide.
  - A lemma bounds the values the source computes in `int`.
- `Facility` (`facility.dfy`): the one platform aligned-allocation facility,
  known only by contract. An allocation either fails (null) or yields a fresh,
  aligned region that overlaps none still handed out. Release forgets the
  region.
- `Allocator` (`allocator.dfy`): the class `PageAlignedAllocator`.
  - Its `debug` constant selects the build configuration.
  - It holds the page-size cache, the facility, the headers by raw base and a
    per-page protection map.
  - Its invariant (`Consistent`): in a debug build, a region is handed out
    exactly when the header at its base carries the live magic, every live
    allocation has both guard pages read-only, and no other page is read-only.
  - `TORRENT_ASSERT`s are preconditions. A second `free` of a block is excluded
    because `Free` leaves the block not `Owns`, which is the magic assertion.

The facility's answer to an allocation is a method parameter (`ret`). The
stack snapshot from `print_backtrace` is also a parameter (`Backtrace`). The
platform's page-size answer is the cache's constant `query`. Addresses are
integers and null is 0.

## Model

| member | source | states |
|---|---|---|
| `PageSize.ResolvePageSize` | src/allocator.cpp:83-97 | the computed page size is always positive; a positive platform answer is kept and a zero or negative one becomes 4096 |
| `PageSize.PageSizeCache.constructor` | src/allocator.cpp:80 | the static cache starts at 0 and the platform answer is fixed for the process |
| `PageSize.PageSizeCache.PageSize` | src/allocator.cpp:78-98 | one call returns the cached value if the static is set and leaves it unchanged; otherwise it computes the value and stores it; with the cache invariant, the result is always the positive resolved platform answer |
| `PageSize.PageSizeCall` | src/allocator.cpp:80-97 | one call leaves in the static exactly the value it returns; a set static is returned unchanged; an empty one is filled with the positive resolved page size |
| `PageSize.Results` | src/allocator.cpp:80-81 | a run of `n` calls gives `n` answers, the first being what one call from the initial static returns |
| `PageSize.RepeatedCallsAgree` | src/allocator.cpp:80-81 | idempotence: in any run of successive calls, whatever the static held before the first call, every call returns what the first one returned |
| `PageSize.EveryCallReturnsPageSize` | src/allocator.cpp:80-97 | from an empty static, every call in a run returns the same positive value, the one resolved from the platform's answer |
| `GuardLayout.NumPages` | src/allocator.cpp:109-110 | the page count is the request rounded up to whole pages plus two: at least 3, the user pages cover the request, and one page fewer would not |
| `GuardLayout.RawSize` | src/allocator.cpp:109-112 | the raw size is a multiple of the page size, at least the request plus two pages and less than the request plus three pages |
| `GuardLayout.TrailingGuard` | src/allocator.cpp:144 | the trailing guard page is the last page of the raw region; it is also the first page boundary at or after the end of the user region |
| `GuardLayout.FreeFindsMallocGuards` | src/allocator.cpp:171-175 | `free` finds the header at `block - page`; its trailing page `block + (num_pages - 2) * page`, with the count recomputed from the stored size, is the page `malloc` protected at `raw + (num_pages - 1) * page`; the two guards are different pages |
| `GuardLayout.GuardsBracketUserRegion` | src/allocator.cpp:143-152 | byte `block - 1` lies in the leading guard page; the user bytes end at or before the trailing guard; both guards lie inside the raw region |
| `GuardLayout.GuardsOfDisjointRegions` | src/allocator.cpp:143-144 | allocations whose regions do not overlap share no guard page |
| `GuardLayout.NextPageAligned` | src/allocator.cpp:152 | one page past a page-aligned raw base is still page-aligned |
| `GuardLayout.RawSizeFitsInt` | src/allocator.cpp:102-112 | under the asserted request bounds, `bytes + (page - 1)` always fits a 32-bit `int`; with a page of at most 256 MiB, the page count and the raw size fit as well |
| `Facility.AlignedFacility.Allocate` | src/allocator.cpp:115-130 | the facility returns null and changes nothing, or returns a fresh region that it records as handed out; its regions never overlap |
| `Facility.AlignedFacility.Release` | src/allocator.cpp:190-198 | releasing forgets exactly the released region |
| `Allocator.MallocKeepsConsistent` | src/allocator.cpp:132-152 | every page of the fresh raw region was writable before `malloc` touched it; after a successful debug `malloc`, the new block is live and guarded, every other live block stays guarded, and the only read-only pages are guards of live blocks |
| `Allocator.FreeKeepsConsistent` | src/allocator.cpp:169-186 | the block being freed is guarded; after the debug `free`, every other live block stays guarded, the freed region is no longer handed out, and the only read-only pages are guards of live blocks |
| `Allocator.PageAlignedAllocator.Owns` | src/allocator.cpp:172-174 | a block passes `free`'s check when the header one page before it carries `0x1337` (debug) or the facility handed it out (base); with consistent bookkeeping, an owned block's raw region is one the facility still has handed out |
| `Allocator.PageAlignedAllocator.Malloc` | src/allocator.cpp:100-156 | requires `0 < bytes < 0x30000000` and `bytes >= page_size()`; a facility failure returns null with nothing written or protected; success returns a page-aligned, owned block; the base build returns the facility's block; the debug build requests the rounded raw size, writes the header (size, `0x1337`, stack) at the raw base, protects exactly the first and the last page, and returns `raw + page`; every page of the raw region was writable beforehand, so the header goes into a writable page, and every user page from `raw + page` up to the trailing guard is writable afterwards |
| `Allocator.PageAlignedAllocator.Free` | src/allocator.cpp:158-199 | null changes nothing; in the base build the block is released; in the debug build, with the live magic required: the raw base `block - page` is released, the header keeps its size and gets magic 0 and the free-site stack, and exactly the two guard pages become writable; afterwards the block is no longer owned, so a second free fails the magic assertion |
| `Allocator.PageAlignedAllocator.InUse` | src/allocator.cpp:201-207 | the probe is true exactly when the header one page before the block carries `0x1337`, which is when its region is still handed out; it changes nothing, not even the page-size cache |
| `Allocator.GuardedLifecycle` | src/allocator.cpp:160-207 | in a debug build: a block is in use after `malloc` and not after `free`; its guard pages are writable again; the facility is back where it started, so nothing leaks; `free` no longer accepts the block |

## Left out

- The platform facilities are one abstract facility. Their answers are a
  parameter constrained by `Facility.AlignedFacility.MayReturn`:
  - allocation: `posix_memalign`, `memalign`, `_aligned_malloc` and
    `__mingw_aligned_malloc`, `valloc`, BeOS `create_area`;
  - release: `::free`, `_aligned_free`, `area_for` and `delete_area`.
  - The build-time choice of facility, the MinGW and Windows macro remapping
    (lines 56-59, 139-149, 164-184) and `GetSystemInfo`/`sysconf`/`B_PAGE_SIZE`
    are foreign calls. The page-size answer is the constant `query`.
- The BeOS area size `(bytes + page_size() - 1) & (page_size() - 1)` (line 125)
  is a remainder, smaller than a page, not a round-up. The BeOS facility is not
  modelled, so neither is this expression.
- `mprotect`/`VirtualProtect` are a per-page flag with no fault semantics. The
  comment at line 133 says "non-readable", but the code sets `PROT_READ`
  (lines 143-144). The model follows the code: guard pages are read-only, not
  unreadable.
- Each call's header write and protection changes are applied together. The
  model leaves out their order inside one call, for example that `free`
  makes the header page writable (line 171) before it clears the magic
  (line 177).
- A freed block's header is kept as last written: magic 0 and the free-site
  stack. After `::free` the memory belongs to the facility, which may reuse
  it for another allocation's user data or unmap it. In the source, catching
  a second `free` through the magic assertion (lines 172-174) and `in_use`
  returning false after `free` (lines 204-206) therefore read released
  memory and are best effort; the model makes both certain. Memory contents
  other than headers are not modelled.
- The contents of the 3072-byte `stack` buffer are an opaque `Backtrace`
  value, since `print_backtrace` is an opaque collaborator.
- `TORRENT_ASSERT`s are preconditions. The model does not cover builds that
  compile them out and continue past a violated assertion.
- Thread safety of the unsynchronised static in `page_size()` is out of
  scope. The cache is modelled sequentially.
- The commented-out `fprintf` diagnostics (lines 150, 176) are not modelled.
- `Allocator.PageAlignedAllocator.Malloc`: the page arithmetic uses unbounded
  integers. The source computes it in 32-bit `int`. `RawSizeFitsInt` shows the
  two agree for page sizes up to 256 MiB. Wrap-around of `num_pages * page`
  for larger pages is not modelled.
- `Allocator.PageAlignedAllocator.Free`: in the base build it requires a block
  the facility handed out. The source does not check this, but releasing
  anything else is undefined for the C runtime's `free`. The model therefore
  does not follow the BeOS path, where an unknown address is ignored.
- `Allocator.PageAlignedAllocator.InUse`: it requires that a header was once
  written one page before the block. Reading any other address is undefined
  in the source.
- `page_aligned_allocator::size_type` is declared in `allocator.hpp`, which
  is not part of this model. Requests are taken to be `int`-sized; the
  `int(bytes)` cast at line 107 is then the identity.
- `free` asserts the magic before it clears it, and takes the free-site
  stack snapshot last (src/allocator.cpp:174, 177, 186).
- The base build only asserts that the request is at least one page
  (src/allocator.cpp:107). It does not check that the request is a multiple
  of the page size.
