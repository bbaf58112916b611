/**
 * `L1BalanceFetcher` (src/l1BalanceFetcher.ts): the escrow's L1 DAI balance
 * per block, memoised in a bounded cache keyed by the block number. The node
 * is handed to each call as an oracle, so that a transient failure can be
 * followed by a call on a node that would have answered.
 */
module L1Fetcher {
  import opened Wrappers
  import opened Utils
  import Lru

  /** The `max` the constructor gives the cache. */
  const CACHE_MAX: nat := 10000

  class L1BalanceFetcher {
    const escrowAddress: string
    var cache: Lru.Cache<Option<nat>>
    /** The block tags of the `balanceOf` queries issued so far, in order. */
    ghost var Queries: seq<int>

    ghost predicate Valid()
      reads this
    {
      cache.Valid() && cache.max == CACHE_MAX
    }

    constructor (escrowAddress: string)
      ensures Valid()
      ensures this.escrowAddress == escrowAddress
      ensures cache.entries == map[] && Queries == []
    {
      this.escrowAddress := escrowAddress;
      cache := Lru.Empty(CACHE_MAX);
      Queries := [];
    }

    /**
     * `fetchEscrowBalance(block)`: a hit returns the stored value (possibly
     * `undefined`) without a query; a miss queries `balanceOf(escrow)` once, at
     * tag `block - 1`, catches a failure, stores the outcome under `block` and
     * returns it. Nothing is thrown.
     */
    method FetchEscrowBalance(block: nat, balanceOf: (string, int) -> Reply<nat>) returns (v: Option<nat>)
      requires Valid()
      modifies this
      ensures Valid() && cache.Size() <= CACHE_MAX
      ensures old(cache.Has(block)) ==>
        v == old(cache.Get(block)) && Queries == old(Queries) && cache == old(cache.Touch(block))
      ensures !old(cache.Has(block)) ==>
        && v == Caught(balanceOf(escrowAddress, block - 1))
        && Queries == old(Queries) + [block - 1]
        && cache == old(cache.Set(block, v))
      ensures cache.Has(block) && cache.Get(block) == v
    {
      var key := block;
      if cache.Has(key) {
        v := cache.Get(key);
        cache := cache.Touch(key);
        return;
      }
      var balance: Option<nat> := None;
      var reply := balanceOf(escrowAddress, block - 1);
      Queries := Queries + [block - 1];
      if reply.Returned? {
        balance := Some(reply.value);
      }
      cache := cache.Set(key, balance);
      v := cache.Get(key);
    }
  }

  /**
   * A failed block is poisoned: the second call returns `undefined` from the
   * cache and issues no query, even on a node that would now answer.
   */
  method PoisonedBlockIsNotRetried(f: L1BalanceFetcher, block: nat, failing: (string, int) -> Reply<nat>,
                                   recovered: (string, int) -> Reply<nat>) returns (first: Option<nat>, second: Option<nat>)
    requires f.Valid() && !f.cache.Has(block)
    requires failing(f.escrowAddress, block - 1) == Threw
    modifies f
    ensures first == None && second == None
    ensures f.Queries == old(f.Queries) + [block - 1]
  {
    first := f.FetchEscrowBalance(block, failing);
    second := f.FetchEscrowBalance(block, recovered);
  }

  /** Two calls for one block issue at most one query and agree on the value. */
  method RepeatedBlockQueriedOnce(f: L1BalanceFetcher, block: nat, balanceOf: (string, int) -> Reply<nat>,
                                  later: (string, int) -> Reply<nat>) returns (first: Option<nat>, second: Option<nat>)
    requires f.Valid()
    modifies f
    ensures first == second
    ensures old(f.cache.Has(block)) ==> f.Queries == old(f.Queries)
    ensures !old(f.cache.Has(block)) ==> f.Queries == old(f.Queries) + [block - 1]
  {
    first := f.FetchEscrowBalance(block, balanceOf);
    second := f.FetchEscrowBalance(block, later);
  }
}
