/** Pages of a list: `items[offset : offset + limit]` with Python's clamping. */
module Paging {
  import opened Domain

  function Slice<T>(items: seq<T>, offset: nat, limit: nat): seq<T> {
    items[Min(offset, |items|)..Min(offset + limit, |items|)]
  }

  /** Where page `k` starts. */
  function PageStart(size: nat, k: nat): nat { if k == 0 then 0 else PageStart(size, k - 1) + size }

  lemma {:induction false} PageStartIsProduct(size: nat, k: nat)
    ensures PageStart(size, k) == k * size
  {
    if k > 0 {
      PageStartIsProduct(size, k - 1);
      assert k * size == (k - 1) * size + size;
    }
  }

  /** The first `n` pages of the given size, one after the other. */
  function Pages<T>(items: seq<T>, size: nat, n: nat): seq<T> {
    if n == 0 then [] else Pages(items, size, n - 1) + Slice(items, PageStart(size, n - 1), size)
  }

  /** Consecutive pages have no gap and no repeat. */
  lemma {:induction false} PagesPartition<T>(items: seq<T>, size: nat, n: nat)
    ensures Pages(items, size, n) == items[..Min(PageStart(size, n), |items|)]
  {
    if n > 0 {
      PagesPartition(items, size, n - 1);
    }
  }
}
