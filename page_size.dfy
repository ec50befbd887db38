/** The process-wide page size: computed once by querying the platform and
    cached in a function-local static (`page_size()` in src/allocator.cpp). */
module PageSize {

  /** The size assumed when the platform query fails. */
  const DefaultPageSize := 4096

  /** The page size that one computation yields from the platform's answer
      `query` (already converted to `int`): a non-positive answer is replaced
      by the 4 KiB default, a positive one is taken as it is. */
  function ResolvePageSize(query: int): (r: int)
    ensures r > 0
    ensures query > 0 ==> r == query
    ensures query <= 0 ==> r == DefaultPageSize
  {
    if query <= 0 then DefaultPageSize else query
  }

  /** One call of `page_size()` with the static at `s`: the value returned
      and the value left in the static. The static always ends up holding
      what the call returned; a set static is returned as it is, and an
      empty one is filled with the positive resolved page size. */
  function PageSizeCall(s: int, query: int): (r: (int, int))
    ensures r.1 == r.0
    ensures s != 0 ==> r.0 == s
    ensures s == 0 ==> r.0 == ResolvePageSize(query) && r.0 > 0
  {
    if s != 0 then (s, s)
    else var v := ResolvePageSize(query); (v, v)
  }

  /** The values returned by `n` successive calls of `page_size()`, the
      first one made with the static at `s`. */
  function Results(s: int, query: int, n: nat): (rs: seq<int>)
    ensures |rs| == n
    ensures n > 0 ==> rs[0] == PageSizeCall(s, query).0
    decreases n
  {
    if n == 0 then []
    else
      var (r, s') := PageSizeCall(s, query);
      [r] + Results(s', query, n - 1)
  }

  /** The cache is idempotent: whatever the static holds before the first
      call, every later call returns what the first one returned. */
  lemma {:induction false} RepeatedCallsAgree(s: int, query: int, n: nat)
    requires n > 0
    ensures forall i :: 0 <= i < n ==> Results(s, query, n)[i] == Results(s, query, n)[0]
    decreases n
  {
    if n > 1 {
      var (r, s') := PageSizeCall(s, query);
      assert s' == r && PageSizeCall(s', query) == (r, r);
      RepeatedCallsAgree(s', query, n - 1);
    }
  }

  /** Starting from the empty static (or one already holding the computed
      value), every call in a run returns the same positive page size, the
      one resolved from the platform's answer. */
  lemma {:induction false} EveryCallReturnsPageSize(s: int, query: int, n: nat)
    requires s == 0 || s == ResolvePageSize(query)
    ensures forall i :: 0 <= i < n ==> Results(s, query, n)[i] == ResolvePageSize(query) > 0
    decreases n
  {
    if n > 0 {
      EveryCallReturnsPageSize(ResolvePageSize(query), query, n - 1);
    }
  }

  /** The cache behind `page_size()`. `query` is what the platform reports
      for this process (`sysconf(_SC_PAGESIZE)`, `GetSystemInfo`,
      `B_PAGE_SIZE`, or 4096 in the simulator build); it does not change
      while the process runs. `s` is the function-local static, 0 until the
      first call. */
  class PageSizeCache {
    const query: int
    var s: int

    /** The cache is either empty or holds exactly what a fresh computation
        would produce, so caching never changes an answer. */
    ghost predicate Valid()
      reads this
    {
      s == 0 || s == ResolvePageSize(query)
    }

    constructor (query: int)
      ensures Valid()
      ensures this.query == query && s == 0
    {
      this.query := query;
      s := 0;
    }

    /** `page_size()`: returns the cached value when there is one, otherwise
        computes it, stores it and returns it. Every call returns the same
        positive value, and after any call the cache is filled. */
    method PageSize() returns (r: int)
      requires Valid()
      modifies this
      ensures Valid()
      ensures r > 0 && r == ResolvePageSize(query)
      ensures (r, s) == PageSizeCall(old(s), query)
    {
      if s != 0 {
        return s;
      }
      s := query;
      if s <= 0 {
        s := DefaultPageSize;
      }
      r := s;
    }
  }
}
