/** The one platform aligned-allocation facility the allocator delegates to
    (`posix_memalign`, `memalign`, `_aligned_malloc`, `valloc` or a BeOS area,
    with the matching release). Its behaviour is only known by contract: an
    allocation either fails (the null pointer, 0) or yields a fresh region
    at an address that is a multiple of the requested alignment. */
module Facility {

  /** The null pointer. */
  const Null := 0

  /** Regions have positive bases and sizes and no two of them overlap. */
  ghost predicate Disjoint(regions: map<int, int>)
  {
    && (forall b :: b in regions ==> b > 0 && regions[b] > 0)
    && (forall b1, b2 :: b1 in regions && b2 in regions && b1 != b2 ==>
          b1 + regions[b1] <= b2 || b2 + regions[b2] <= b1)
  }

  class AlignedFacility {
    /** Every region handed out and not yet released: base address to size. */
    var regions: map<int, int>

    ghost predicate Valid()
      reads this
    {
      Disjoint(regions)
    }

    constructor ()
      ensures Valid() && regions == map[]
    {
      regions := map[];
    }

    /** The answers the facility may give to a request for `size` bytes
        aligned to `alignment`: failure, or a positive, aligned base whose
        region overlaps no region still handed out. */
    predicate MayReturn(ret: int, size: int, alignment: int)
      reads this
    {
      ret == Null ||
      (&& ret > 0 && alignment > 0 && ret % alignment == 0
       && forall b :: b in regions ==> ret + size <= b || b + regions[b] <= ret)
    }

    /** Allocation. The facility's answer is `ret`, one of those MayReturn
        admits; on success the region is recorded as handed out. */
    method Allocate(size: int, alignment: int, ret: int) returns (p: int)
      requires Valid() && size > 0
      requires MayReturn(ret, size, alignment)
      modifies this
      ensures Valid()
      ensures p == ret
      ensures p == Null ==> regions == old(regions)
      ensures p != Null ==> p !in old(regions) && regions == old(regions)[p := size]
    {
      p := ret;
      if p != Null {
        regions := regions[p := size];
      }
    }

    /** Release of the region based at `p`. */
    method Release(p: int)
      requires Valid()
      modifies this
      ensures Valid()
      ensures regions == old(regions) - {p}
    {
      regions := regions - {p};
    }
  }
}
