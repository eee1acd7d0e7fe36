/** The part of the cache port the listing query uses: `remember`. Expiry
    is not modelled (there is no clock); the TTL is kept with each entry. */
module Cache {

  datatype Entry<V> = Entry(value: V, ttl: int)

  /** `remember($key, $ttl, $callback)` on a snapshot of the entries: a hit
      returns the stored value and leaves the entries alone; a miss stores
      the callback's value under the key and returns it. */
  function Remembered<V>(entries: map<string, Entry<V>>, key: string, ttl: int, computed: V): (map<string, Entry<V>>, V) {
    if key in entries then (entries, entries[key].value)
    else (entries[key := Entry(computed, ttl)], computed)
  }

  /** `remember` once per key, in order, each call with its own callback
      value: the entries afterwards and the value each call returned. */
  function RememberAll<V>(entries: map<string, Entry<V>>, keys: seq<string>, ttl: int, computed: seq<V>): (map<string, Entry<V>>, seq<V>)
    requires |keys| == |computed|
  {
    if |keys| == 0 then (entries, [])
    else
      var n := |keys| - 1;
      var prior := RememberAll(entries, keys[..n], ttl, computed[..n]);
      var step := Remembered(prior.0, keys[n], ttl, computed[n]);
      (step.0, prior.1 + [step.1])
  }

  predicate Distinct(keys: seq<string>) {
    forall i, j :: 0 <= i < j < |keys| ==> keys[i] != keys[j]
  }

  /** One more call: one more `remember` on the entries the earlier calls left. */
  lemma RememberAllSnoc<V>(entries: map<string, Entry<V>>, keys: seq<string>, ttl: int, computed: seq<V>, key: string, v: V)
    requires |keys| == |computed|
    ensures var prior := RememberAll(entries, keys, ttl, computed);
            var step := Remembered(prior.0, key, ttl, v);
            RememberAll(entries, keys + [key], ttl, computed + [v]) == (step.0, prior.1 + [step.1])
  {
    assert (keys + [key])[..|keys|] == keys;
    assert (computed + [v])[..|computed|] == computed;
  }

  /** With distinct keys every call sees the entries as they were before the
      first: a hit returns the stored value, a miss the callback's value. */
  lemma {:induction false} RememberAllValues<V>(entries: map<string, Entry<V>>, keys: seq<string>, ttl: int, computed: seq<V>)
    requires |keys| == |computed| && Distinct(keys)
    ensures var r := RememberAll(entries, keys, ttl, computed);
            && |r.1| == |keys|
            && forall i :: 0 <= i < |keys| ==>
                 r.1[i] == (if keys[i] in entries then entries[keys[i]].value else computed[i])
  {
    if |keys| > 0 {
      var n := |keys| - 1;
      var ks, cs := keys[..n], computed[..n];
      assert Distinct(ks);
      RememberAllValues(entries, ks, ttl, cs);
      RememberAllKeys(entries, ks, ttl, cs);
      RememberAllKeeps(entries, ks, ttl, cs);
      var prior := RememberAll(entries, ks, ttl, cs);
      assert keys[n] !in ks;
      assert keys[n] in prior.0 <==> keys[n] in entries;
      var r := RememberAll(entries, keys, ttl, computed);
      assert r.1 == prior.1 + [Remembered(prior.0, keys[n], ttl, computed[n]).1];
      forall i | 0 <= i < n
        ensures r.1[i] == (if keys[i] in entries then entries[keys[i]].value else computed[i])
      {
        assert r.1[i] == prior.1[i] && ks[i] == keys[i] && cs[i] == computed[i];
      }
    }
  }

  /** Afterwards the cache holds the earlier keys and every key asked for. */
  lemma {:induction false} RememberAllKeys<V>(entries: map<string, Entry<V>>, keys: seq<string>, ttl: int, computed: seq<V>)
    requires |keys| == |computed|
    ensures RememberAll(entries, keys, ttl, computed).0.Keys == entries.Keys + (set k | k in keys)
  {
    if |keys| > 0 {
      var n := |keys| - 1;
      RememberAllKeys(entries, keys[..n], ttl, computed[..n]);
      assert keys == keys[..n] + [keys[n]];
      assert (set k | k in keys) == (set k | k in keys[..n]) + {keys[n]};
    }
  }

  /** An entry that was there before is never rewritten. */
  lemma {:induction false} RememberAllKeeps<V>(entries: map<string, Entry<V>>, keys: seq<string>, ttl: int, computed: seq<V>)
    requires |keys| == |computed|
    ensures forall k :: k in entries ==>
              k in RememberAll(entries, keys, ttl, computed).0 && RememberAll(entries, keys, ttl, computed).0[k] == entries[k]
  {
    if |keys| > 0 {
      var n := |keys| - 1;
      RememberAllKeeps(entries, keys[..n], ttl, computed[..n]);
    }
  }

  /** With distinct keys each key that missed holds its callback's value with
      the TTL. */
  lemma {:induction false} RememberAllMisses<V>(entries: map<string, Entry<V>>, keys: seq<string>, ttl: int, computed: seq<V>)
    requires |keys| == |computed| && Distinct(keys)
    ensures forall i :: 0 <= i < |keys| && keys[i] !in entries ==>
              keys[i] in RememberAll(entries, keys, ttl, computed).0
              && RememberAll(entries, keys, ttl, computed).0[keys[i]] == Entry(computed[i], ttl)
  {
    if |keys| > 0 {
      var n := |keys| - 1;
      var ks, cs := keys[..n], computed[..n];
      assert Distinct(ks);
      RememberAllMisses(entries, ks, ttl, cs);
      var prior := RememberAll(entries, ks, ttl, cs);
      var r := RememberAll(entries, keys, ttl, computed);
      assert r.0 == Remembered(prior.0, keys[n], ttl, computed[n]).0;
      forall i | 0 <= i < n && keys[i] !in entries
        ensures keys[i] in r.0 && r.0[keys[i]] == Entry(computed[i], ttl)
      {
        assert ks[i] == keys[i] && cs[i] == computed[i];
      }
      if keys[n] !in entries {
        RememberAllKeys(entries, ks, ttl, cs);
        assert keys[n] !in ks;
      }
    }
  }

  /** Asking again for the same keys hits on every one, whatever the callbacks
      would compute: the same values come back and the entries stay as they are. */
  lemma RememberAllAgain<V>(entries: map<string, Entry<V>>, keys: seq<string>, ttl: int, computed: seq<V>, later: seq<V>)
    requires |keys| == |computed| == |later| && Distinct(keys)
    ensures var first := RememberAll(entries, keys, ttl, computed);
            RememberAll(first.0, keys, ttl, later) == first
  {
    var first := RememberAll(entries, keys, ttl, computed);
    RememberAllValues(entries, keys, ttl, computed);
    RememberAllKeys(entries, keys, ttl, computed);
    RememberAllKeeps(entries, keys, ttl, computed);
    RememberAllMisses(entries, keys, ttl, computed);
    RememberAllValues(first.0, keys, ttl, later);
    RememberAllKeys(first.0, keys, ttl, later);
    RememberAllKeeps(first.0, keys, ttl, later);
    var second := RememberAll(first.0, keys, ttl, later);
    assert second.1 == first.1;
    assert second.0 == first.0;
  }

  /** On an empty cache every call misses: the callbacks' values come back and
      are all stored. */
  lemma RememberAllCold<V>(keys: seq<string>, ttl: int, computed: seq<V>)
    requires |keys| == |computed| && Distinct(keys)
    ensures var r := RememberAll(map[], keys, ttl, computed);
            && r.1 == computed
            && r.0.Keys == set k | k in keys
            && forall i :: 0 <= i < |keys| ==> keys[i] in r.0 && r.0[keys[i]] == Entry(computed[i], ttl)
  {
    RememberAllValues(map[], keys, ttl, computed);
    RememberAllKeys(map[], keys, ttl, computed);
    RememberAllMisses(map[], keys, ttl, computed);
  }

  /** A cache shared by every caller: its entries change in place. */
  class CacheService<V> {
    var entries: map<string, Entry<V>>

    constructor ()
      ensures entries == map[]
    {
      entries := map[];
    }

    /** `remember`, with the value of the (side-effect free) callback passed as
        `computed`. */
    method Remember(key: string, ttl: int, computed: V) returns (v: V)
      modifies this
      ensures key in old(entries) ==> v == old(entries)[key].value && entries == old(entries)
      ensures key !in old(entries) ==> v == computed && entries == old(entries)[key := Entry(computed, ttl)]
      ensures (entries, v) == Remembered(old(entries), key, ttl, computed)
    {
      if key in entries {
        v := entries[key].value;
      } else {
        entries := entries[key := Entry(computed, ttl)];
        v := computed;
      }
    }
  }
}
