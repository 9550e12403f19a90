/** The keyed slot allocator of utils/container/slots.go. A bitset is the set of its set bits. */
module KeySlots {
  import opened Core

  /** Every (key, slot) pair an allocator with these keys can hand out. */
  ghost function AllPairs<K(!new)>(keys: set<K>, n: nat): set<(K, nat)> {
    set k, s: nat | k in keys && s < n :: (k, s)
  }

  lemma {:induction false} CardAllPairs<K(!new)>(keys: set<K>, n: nat)
    ensures |AllPairs(keys, n)| == |keys| * n
    decreases |keys|
  {
    if keys == {} {
      assert AllPairs(keys, n) == {};
    } else {
      var k :| k in keys;
      var rest := keys - {k};
      CardAllPairs(rest, n);
      CardRow(k, n);
      assert AllPairs(keys, n) == AllPairs(rest, n) + AllPairs({k}, n);
      assert |keys| == |rest| + 1;
    }
  }

  lemma {:induction false} CardRow<K(!new)>(k: K, n: nat)
    ensures |AllPairs({k}, n)| == n
  {
    if n == 0 {
      assert AllPairs({k}, n) == {};
    } else {
      CardRow(k, n - 1);
      assert AllPairs({k}, n) == AllPairs({k}, n - 1) + {(k, n - 1)};
    }
  }

  /** The pairs held by a table of bitsets. */
  ghost function Pairs<K(!new)>(slotsByKey: map<K, set<nat>>): set<(K, nat)> {
    set k, s | k in slotsByKey && s in slotsByKey[k] :: (k, s)
  }

  lemma PairsUpdate<K(!new)>(slotsByKey: map<K, set<nat>>, key: K, slot: nat)
    requires key in slotsByKey
    ensures Pairs(slotsByKey[key := slotsByKey[key] + {slot}]) == Pairs(slotsByKey) + {(key, slot)}
  {
  }

  /** A bitset of length `n` is full exactly when it has `n` members. */
  lemma FullSet(slots: set<nat>, n: nat)
    requires forall s | s in slots :: s < n
    ensures |slots| <= n
    ensures |slots| == n <==> forall s: nat | s < n :: s in slots
  {
    var all := Below(n);
    CardSubset(slots, all);
    if forall s: nat | s < n :: s in slots {
      assert slots == all;
    }
  }

  /** Some key still has a clear slot exactly when fewer pairs are used than there are. */
  lemma RoomIffBelowTotal<K(!new)>(slotsByKey: map<K, set<nat>>, n: nat)
    requires forall k, s | k in slotsByKey && s in slotsByKey[k] :: s < n
    ensures |Pairs(slotsByKey)| <= |slotsByKey| * n
    ensures (exists k :: k in slotsByKey && |slotsByKey[k]| < n) <==> |Pairs(slotsByKey)| < |slotsByKey| * n
  {
    var all := AllPairs(slotsByKey.Keys, n);
    CardAllPairs(slotsByKey.Keys, n);
    assert |slotsByKey.Keys| == |slotsByKey|;
    CardSubset(Pairs(slotsByKey), all);
    forall k | k in slotsByKey
      ensures |slotsByKey[k]| < n ==> exists s: nat :: s < n && (k, s) in all && (k, s) !in Pairs(slotsByKey)
      ensures |slotsByKey[k]| >= n ==> forall s: nat | s < n :: (k, s) in Pairs(slotsByKey)
    {
      FullSet(slotsByKey[k], n);
      if |slotsByKey[k]| < n {
        var s: nat :| s < n && s !in slotsByKey[k];
        assert (k, s) in all && (k, s) !in Pairs(slotsByKey);
      }
    }
    if forall k | k in slotsByKey :: |slotsByKey[k]| >= n {
      assert Pairs(slotsByKey) == all;
    }
  }

  /** `bitset.NextClear(0)`: the lowest clear bit below the length, if there is one. */
  method NextClear(slots: set<nat>, length: nat) returns (r: Option<nat>)
    ensures r.None? <==> forall s: nat | s < length :: s in slots
    ensures r.Some? ==> r.value < length && r.value !in slots && forall s: nat | s < r.value :: s in slots
  {
    for i := 0 to length
      invariant forall s: nat | s < i :: s in slots
    {
      if i !in slots {
        return Some(i);
      }
    }
    return None;
  }

  class KeySlots<K(==, !new)> {
    const slotsPerKey: nat
    var used: nat
    var slotsByKey: map<K, set<nat>>
    var freeKeys: set<K>

    /** The abstract value: the set of used (key, slot) pairs. */
    ghost function Taken(): set<(K, nat)>
      reads this
    {
      Pairs(slotsByKey)
    }

    ghost predicate Valid()
      reads this
    {
      && (forall k, s | k in slotsByKey && s in slotsByKey[k] :: s < slotsPerKey)
      && used == |Taken()|
      && (forall k :: k in freeKeys <==> k in slotsByKey && (slotsPerKey == 0 || |slotsByKey[k]| < slotsPerKey))
    }

    constructor (slotsPerKey: nat, keys: seq<K>)
      ensures Valid() && this.slotsPerKey == slotsPerKey
      ensures slotsByKey.Keys == set k | k in keys
      ensures Taken() == {}
    {
      var byKey: map<K, set<nat>> := map[];
      var free: set<K> := {};
      for i := 0 to |keys|
        invariant byKey.Keys == free == set k | k in keys[..i]
        invariant forall k | k in byKey :: byKey[k] == {}
      {
        assert keys[..i + 1] == keys[..i] + [keys[i]];
        if keys[i] !in byKey {
          byKey := byKey[keys[i] := {}];
          free := free + {keys[i]};
        }
      }
      assert keys[..|keys|] == keys;
      this.slotsPerKey := slotsPerKey;
      this.used := 0;
      this.slotsByKey := byKey;
      this.freeKeys := free;
    }

    method Total() returns (total: nat)
      requires Valid()
      ensures total == |slotsByKey.Keys| * slotsPerKey
      ensures |Taken()| <= total
    {
      RoomIffBelowTotal(slotsByKey, slotsPerKey);
      total := |slotsByKey| * slotsPerKey;
    }

    method Use(key: K, slot: nat) returns (ok: bool)
      requires Valid()
      modifies this
      ensures Valid() && slotsByKey.Keys == old(slotsByKey.Keys)
      ensures ok <==> key in slotsByKey && slot < slotsPerKey && (key, slot) !in old(Taken())
      ensures Taken() == if ok then old(Taken()) + {(key, slot)} else old(Taken())
    {
      if slot >= slotsPerKey {
        return false;
      }
      if key !in slotsByKey || slot in slotsByKey[key] {
        return false;
      }
      PairsUpdate(slotsByKey, key, slot);
      slotsByKey := slotsByKey[key := slotsByKey[key] + {slot}];
      used := used + 1;
      FullSet(slotsByKey[key], slotsPerKey);
      if |slotsByKey[key]| == slotsPerKey {
        freeKeys := freeKeys - {key};
      }
      return true;
    }

    /** Go visits `freeKeys` in an unspecified order: any free key may be taken first. */
    method UseNextFree() returns (r: Option<(K, nat)>)
      requires Valid()
      modifies this
      ensures Valid() && slotsByKey.Keys == old(slotsByKey.Keys)
      ensures r.Some? <==> |old(Taken())| < |slotsByKey.Keys| * slotsPerKey
      ensures r.None? ==> Taken() == old(Taken())
      ensures r.Some? ==>
        && r.value.0 in slotsByKey && r.value.1 < slotsPerKey
        && r.value !in old(Taken())
        && (forall s: nat | s < r.value.1 :: (r.value.0, s) in old(Taken()))
        && Taken() == old(Taken()) + {r.value}
    {
      RoomIffBelowTotal(slotsByKey, slotsPerKey);
      if |freeKeys| == 0 {
        return None;
      }
      var rest := freeKeys;
      while rest != {}
        invariant Valid() && slotsByKey == old(slotsByKey) && freeKeys == old(freeKeys)
        invariant rest <= freeKeys
        invariant forall k | k in freeKeys - rest :: |slotsByKey[k]| >= slotsPerKey
      {
        var key :| key in rest;
        var slot := NextClear(slotsByKey[key], slotsPerKey);
        FullSet(slotsByKey[key], slotsPerKey);
        if slot.Some? {
          var _ := Use(key, slot.value);
          return Some((key, slot.value));
        }
        rest := rest - {key};
      }
      return None;
    }
  }
}
