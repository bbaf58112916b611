/**
 * The bounded least-recently-used cache that both fetchers own (the
 * `lru-cache` package constructed with `max`). It is a value: a map from block
 * number to the stored value, and the keys ordered from least to most recently
 * used. Only what the fetchers rely on is modelled: `has`, `get`, `set`, and
 * eviction of the least recently used key when a new key arrives at capacity.
 */
module Lru {

  predicate Distinct(s: seq<nat>)
  {
    forall i, j :: 0 <= i < j < |s| ==> s[i] != s[j]
  }

  function Elems(s: seq<nat>): set<nat>
  {
    set x | x in s
  }

  lemma {:induction false} DistinctCard(s: seq<nat>)
    requires Distinct(s)
    ensures |Elems(s)| == |s|
  {
    if s != [] {
      assert Distinct(s[1..]) by {
        forall i, j | 0 <= i < j < |s[1..]| ensures s[1..][i] != s[1..][j] {
          assert s[1..][i] == s[i + 1] && s[1..][j] == s[j + 1];
        }
      }
      DistinctCard(s[1..]);
      assert Elems(s) == {s[0]} + Elems(s[1..]);
      assert s[0] !in Elems(s[1..]);
    }
  }

  /** `s` with `k` taken out, the other keys keeping their order. */
  function Without(s: seq<nat>, k: nat): (r: seq<nat>)
    ensures Elems(r) == Elems(s) - {k}
    ensures Distinct(s) ==> Distinct(r)
    ensures |r| <= |s|
    ensures k in Elems(s) ==> |r| < |s|
    decreases |s|
  {
    if s == [] then []
    else if s[0] == k then Without(s[1..], k)
    else
      var rest := Without(s[1..], k);
      assert Elems(s) == {s[0]} + Elems(s[1..]);
      assert Distinct(s) ==> Distinct(s[1..]) by {
        if Distinct(s) {
          forall i, j | 0 <= i < j < |s[1..]| ensures s[1..][i] != s[1..][j] {
            assert s[1..][i] == s[i + 1] && s[1..][j] == s[j + 1];
          }
        }
      }
      assert Distinct(s) ==> s[0] !in Elems(rest);
      assert Distinct(s) ==> Distinct([s[0]] + rest) by {
        if Distinct(s) {
          var r' := [s[0]] + rest;
          forall i, j | 0 <= i < j < |r'| ensures r'[i] != r'[j] {
            if i == 0 {
              assert r'[j] == rest[j - 1];
              assert rest[j - 1] in Elems(rest);
            } else {
              assert r'[i] == rest[i - 1] && r'[j] == rest[j - 1];
            }
          }
        }
      }
      assert Elems([s[0]] + rest) == {s[0]} + Elems(rest);
      [s[0]] + rest
  }

  /** Taking out a key that is not listed changes nothing. */
  lemma {:induction false} WithoutAbsent(s: seq<nat>, k: nat)
    requires k !in Elems(s)
    ensures Without(s, k) == s
    decreases |s|
  {
    if s != [] {
      assert Elems(s) == {s[0]} + Elems(s[1..]);
      WithoutAbsent(s[1..], k);
      assert [s[0]] + s[1..] == s;
    }
  }

  /** In a list without repeats, taking out the key at `i` closes the gap and keeps the order. */
  lemma {:induction false} WithoutAt(s: seq<nat>, i: nat)
    requires Distinct(s) && i < |s|
    ensures Without(s, s[i]) == s[..i] + s[i + 1..]
    decreases |s|
  {
    assert Distinct(s[1..]) by {
      forall a, b | 0 <= a < b < |s[1..]| ensures s[1..][a] != s[1..][b] {
        assert s[1..][a] == s[a + 1] && s[1..][b] == s[b + 1];
      }
    }
    if i == 0 {
      assert s[i] !in Elems(s[1..]) by {
        forall x | x in s[1..] ensures x != s[0] {
          var j :| 0 <= j < |s[1..]| && s[1..][j] == x;
          assert s[1..][j] == s[j + 1];
        }
      }
      WithoutAbsent(s[1..], s[i]);
    } else {
      assert s[1..][i - 1] == s[i];
      WithoutAt(s[1..], i - 1);
      assert s[1..][..i - 1] + s[1..][i..] == s[1..i] + s[i + 1..];
      assert [s[0]] + (s[1..i] + s[i + 1..]) == s[..i] + s[i + 1..];
    }
  }

  lemma AppendFresh(s: seq<nat>, k: nat)
    requires Distinct(s) && k !in Elems(s)
    ensures Distinct(s + [k]) && Elems(s + [k]) == Elems(s) + {k}
  {
    var t := s + [k];
    forall i, j | 0 <= i < j < |t| ensures t[i] != t[j] {
      if j == |s| {
        assert t[i] == s[i] && s[i] in Elems(s);
      } else {
        assert t[i] == s[i] && t[j] == s[j];
      }
    }
  }

  lemma TailDistinct(s: seq<nat>)
    requires Distinct(s) && s != []
    ensures Distinct(s[1..]) && Elems(s[1..]) == Elems(s) - {s[0]}
  {
    forall i, j | 0 <= i < j < |s[1..]| ensures s[1..][i] != s[1..][j] {
      assert s[1..][i] == s[i + 1] && s[1..][j] == s[j + 1];
    }
    assert Elems(s) == {s[0]} + Elems(s[1..]);
  }

  datatype Cache<V> = Cache(entries: map<nat, V>, recency: seq<nat>, max: nat)
  {
    /** Every key is listed once in the recency order, and there are at most `max`. */
    predicate Valid()
    {
      Distinct(recency) && entries.Keys == Elems(recency) && |recency| <= max
    }

    /** The number of entries held, never more than the capacity. */
    function Size(): (n: nat)
      requires Valid()
      ensures n == |entries|
      ensures n <= max
    {
      DistinctCard(recency);
      |recency|
    }

    predicate Has(key: nat)
    {
      key in entries
    }

    function Get(key: nat): V
      requires Has(key)
    {
      entries[key]
    }

    /** A `get` hit: the key becomes the most recently used; no value changes. */
    function Touch(key: nat): (r: Cache<V>)
      requires Valid() && Has(key)
      ensures r.Valid()
      ensures r.entries == entries && r.max == max
      ensures r.recency == Without(recency, key) + [key]
    {
      var rest := Without(recency, key);
      AppendFresh(rest, key);
      Cache(entries, rest + [key], max)
    }

    /**
     * `set(key, value)`: afterwards `key` holds `value` and is the most recently
     * used. No other key changes its value. A new key arriving at capacity
     * evicts exactly the least recently used key and nothing else.
     */
    function Set(key: nat, value: V): (r: Cache<V>)
      requires Valid() && max > 0
      ensures r.Valid() && r.max == max
      ensures r.Has(key) && r.Get(key) == value
      ensures r.recency[|r.recency| - 1] == key
      ensures r.recency == (if Has(key) then Without(recency, key) else if |recency| < max then recency else recency[1..]) + [key]
      ensures forall j :: j != key && r.Has(j) ==> Has(j) && r.Get(j) == Get(j)
      ensures Has(key) || |recency| < max ==> r.entries.Keys == entries.Keys + {key}
      ensures !Has(key) && |recency| == max ==>
        r.entries.Keys == entries.Keys - {recency[0]} + {key} && recency[0] != key
    {
      if key in entries then
        var rest := Without(recency, key);
        AppendFresh(rest, key);
        Cache(entries[key := value], rest + [key], max)
      else if |recency| < max then
        AppendFresh(recency, key);
        Cache(entries[key := value], recency + [key], max)
      else
        var victim := recency[0];
        TailDistinct(recency);
        AppendFresh(recency[1..], key);
        Cache((entries - {victim})[key := value], recency[1..] + [key], max)
    }
  }

  function Empty<V>(max: nat): (c: Cache<V>)
    ensures c.Valid() && c.max == max && c.entries == map[]
  {
    Cache(map[], [], max)
  }

  /** Storing one key adds no other key. */
  lemma SetKeepsOthersAbsent<V>(c: Cache<V>, key: nat, value: V, other: nat)
    requires c.Valid() && c.max > 0 && other != key && !c.Has(other)
    ensures !c.Set(key, value).Has(other)
  {
  }

  /** A value stored under a key can be read back until the key is evicted. */
  lemma {:induction false} SetThenGet<V>(c: Cache<V>, key: nat, value: V, other: nat, w: V)
    requires c.Valid() && c.max > 1 && other != key
    ensures c.Set(key, value).Set(other, w).Has(key)
    ensures c.Set(key, value).Set(other, w).Get(key) == value
  {
    var c1 := c.Set(key, value);
    var c2 := c1.Set(other, w);
    if !c1.Has(other) && |c1.recency| == c1.max {
      assert c1.recency[|c1.recency| - 1] == key;
      assert c1.recency[0] != key;
    }
  }
}
