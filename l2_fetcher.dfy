/**
 * `L2SupplyFetcher` (src/l2SupplyFetcher.ts): the L2 DAI total supply,
 * memoised in a bounded cache keyed by the L2 node's latest block number,
 * which is read afresh at the start of every call.
 */
module L2Fetcher {
  import opened Wrappers
  import opened Utils
  import Lru

  /** The `max` the constructor gives the cache. */
  const CACHE_MAX: nat := 10000

  class L2SupplyFetcher {
    var cache: Lru.Cache<Option<nat>>
    /** The block tags of the `totalSupply` queries issued so far, in order. */
    ghost var Queries: seq<int>

    ghost predicate Valid()
      reads this
    {
      cache.Valid() && cache.max == CACHE_MAX
    }

    constructor ()
      ensures Valid()
      ensures cache.entries == map[] && Queries == []
    {
      cache := Lru.Empty(CACHE_MAX);
      Queries := [];
    }

    /**
     * `fetchTotalSupply()`: `latest` is the node's answer to `getBlockNumber()`,
     * which is not inside the `try` and so propagates a failure. With the key in
     * hand, a hit returns the stored value without a query; a miss queries
     * `totalSupply` once, at tag `key - 1`, catches a failure, stores the
     * outcome under the key and returns it.
     */
    method FetchTotalSupply(latest: Reply<nat>, totalSupply: int -> Reply<nat>) returns (r: Reply<Option<nat>>)
      requires Valid()
      modifies this
      ensures Valid() && cache.Size() <= CACHE_MAX
      ensures match latest
        case Threw => r == Threw && cache == old(cache) && Queries == old(Queries)
        case Returned(key) =>
          if old(cache).Has(key) then
            r == Returned(old(cache).Get(key)) && Queries == old(Queries) && cache == old(cache).Touch(key)
          else
            var stored := Caught(totalSupply(key - 1));
            r == Returned(stored) && Queries == old(Queries) + [key - 1] && cache == old(cache).Set(key, stored)
      ensures r.Returned? ==> cache.Has(latest.value) && cache.Get(latest.value) == r.value
    {
      if latest.Threw? {
        return Threw;
      }
      var key := latest.value;
      if cache.Has(key) {
        r := Returned(cache.Get(key));
        cache := cache.Touch(key);
        return;
      }
      var balance: Option<nat> := None;
      var tag: int := key as int - 1;
      var reply := totalSupply(tag);
      Queries := Queries + [tag];
      if reply.Returned? {
        balance := Some(reply.value);
      }
      cache := cache.Set(key, balance);
      r := Returned(cache.Get(key));
    }
  }

  /** Two calls that observe the same latest block share one query and one value. */
  method SameLatestBlockQueriedOnce(f: L2SupplyFetcher, key: nat, totalSupply: int -> Reply<nat>,
                                    later: int -> Reply<nat>) returns (first: Reply<Option<nat>>, second: Reply<Option<nat>>)
    requires f.Valid() && !f.cache.Has(key)
    modifies f
    ensures first == second == Returned(Caught(totalSupply(key - 1)))
    ensures f.Queries == old(f.Queries) + [key - 1]
  {
    first := f.FetchTotalSupply(Returned(key), totalSupply);
    second := f.FetchTotalSupply(Returned(key), later);
  }
}
