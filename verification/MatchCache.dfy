/** The bounded topic cache with random eviction. */
module MatchCache {
  import opened Wrappers
  import opened XorShift

  ghost function Elements<T>(s: seq<T>): set<T> {
    set x | x in s
  }

  lemma {:induction false} DistinctCount<T>(s: seq<T>)
    requires NoDuplicates(s)
    ensures |Elements(s)| == |s|
  {
    if s != [] {
      var n := |s| - 1;
      DistinctCount(s[..n]);
      assert Elements(s) == Elements(s[..n]) + {s[n]};
    }
  }

  /** The keys list the entries' topics, each once. */
  ghost predicate Lists<T>(keys: seq<string>, entries: map<string, T>) {
    NoDuplicates(keys) && Elements(keys) == entries.Keys && |entries| == |keys|
  }

  /** The list without the element at an index, the last one moved into its place. */
  function SwapRemove<T>(s: seq<T>, index: nat): seq<T>
    requires index < |s|
  {
    s[index := s[|s| - 1]][..|s| - 1]
  }

  lemma SwapRemoveLists<T>(keys: seq<string>, entries: map<string, T>, index: nat)
    requires Lists(keys, entries) && index < |keys|
    ensures Lists(SwapRemove(keys, index), entries - {keys[index]})
  {
    var rest, gone := SwapRemove(keys, index), keys[index];
    forall i, j | 0 <= i < j < |rest| ensures rest[i] != rest[j] {
      assert rest[i] == keys[if i == index then |rest| else i];
      assert rest[j] == keys[if j == index then |rest| else j];
    }
    forall k ensures k in Elements(rest) <==> k in Elements(keys) && k != gone {
      if k in Elements(keys) && k != gone {
        var i :| 0 <= i < |keys| && keys[i] == k;
        assert k == rest[if i == |rest| then index else i];
      }
      if k in Elements(rest) {
        var i :| 0 <= i < |rest| && rest[i] == k;
        assert k == keys[if i == index then |rest| else i];
      }
    }
    DistinctCount(rest);
    assert (entries - {gone}).Keys == Elements(rest);
  }

  lemma AppendLists<T>(keys: seq<string>, entries: map<string, T>, topic: string, value: T)
    requires Lists(keys, entries) && topic !in entries
    ensures Lists(keys + [topic], entries[topic := value])
  {
    assert topic !in Elements(keys);
    forall k ensures k in Elements(keys + [topic]) <==> k in Elements(keys) || k == topic {
      assert k in keys + [topic] <==> k in keys || k == topic;
    }
    DistinctCount(keys + [topic]);
    assert entries[topic := value].Keys == Elements(keys + [topic]);
  }

  lemma ReplaceLists<T>(keys: seq<string>, entries: map<string, T>, topic: string, value: T)
    requires Lists(keys, entries) && topic in entries
    ensures Lists(keys, entries[topic := value])
  {
    assert entries[topic := value].Keys == entries.Keys;
    DistinctCount(keys);
  }

  class TopicMatchCache<T> {
    const capacity: nat
    var randomState: Word
    var entries: map<string, T>
    var keys: seq<string>

    /** Keys lists the cached topics, each once; there are never more than the capacity allows. */
    ghost predicate Valid()
      reads this
    {
      && Lists(keys, entries) && |keys| <= capacity
      && randomState != ZERO
    }

    constructor (capacity: nat)
      ensures Valid() && this.capacity == capacity && entries == map[]
    {
      this.capacity := capacity;
      entries, keys := map[], [];
      randomState := Bits(SEED, 64);
      SeedIsNonZero();
    }

    method Clear()
      requires Valid()
      modifies this
      ensures Valid() && entries == map[]
    {
      entries, keys := map[], [];
      randomState := Bits(SEED, 64);
      SeedIsNonZero();
    }

    /** The place in the keys that the next eviction takes. */
    ghost function Place(): nat
      requires keys != []
      reads this
    {
      Draw(NextState(randomState)) % |keys|
    }

    method NextRandom() returns (r: nat)
      requires Valid()
      modifies this`randomState
      ensures Valid() && randomState == NextState(old(randomState)) && r == Draw(randomState)
    {
      var x := randomState;
      x := Xor(x, ShiftRight(x, 12));
      x := Xor(x, ShiftLeft(x, 25));
      x := Xor(x, ShiftRight(x, 27));
      NextStateKeepsNonZero(randomState);
      randomState := x;
      r := Draw(x);
    }

    /** Drops the cached topic at the drawn place, if there is any; the last key takes the place of the dropped one. */
    method EvictRandom()
      requires Valid()
      modifies this
      ensures Valid()
      ensures old(keys) == [] ==> entries == old(entries) && keys == [] && randomState == old(randomState)
      ensures old(keys) != [] ==>
                && old(keys[Place()] in entries) && entries == old(entries) - {old(keys[Place()])}
                && keys == SwapRemove(old(keys), old(Place())) && randomState == NextState(old(randomState))
    {
      if keys == [] {
        return;
      }
      var r := NextRandom();
      var index := r % |keys|;
      var evicted := keys[index];
      SwapRemoveLists(keys, entries, index);
      keys := SwapRemove(keys, index);
      entries := entries - {evicted};
      assert evicted in old(Elements(keys));
    }

    /** Caches an answer, evicting another topic when full; every entry kept is unchanged, and no cache at all
        is kept with capacity 0. */
    method Insert(topic: string, matched: T)
      requires Valid()
      modifies this
      ensures Valid()
      ensures capacity == 0 ==> entries == old(entries)
      ensures capacity > 0 ==> topic in entries && entries[topic] == matched
      ensures forall k :: k in entries && k != topic ==> k in old(entries) && entries[k] == old(entries)[k]
      ensures capacity > 0 && (topic in old(entries) || |old(entries)| < capacity) ==>
                entries == old(entries)[topic := matched]
      ensures capacity > 0 && topic !in old(entries) && |old(entries)| >= capacity ==>
                entries == (old(entries) - {old(keys[Place()])})[topic := matched]
    {
      if capacity == 0 {
        return;
      }
      if topic in entries {
        ReplaceLists(keys, entries, topic, matched);
        entries := entries[topic := matched];
        return;
      }
      if |entries| >= capacity {
        EvictRandom();
      }
      AppendLists(keys, entries, topic, matched);
      keys := keys + [topic];
      entries := entries[topic := matched];
    }
  }
}
