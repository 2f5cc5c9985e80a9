/** The TTL deduplication ring: recently executed keys with their times, at most `capacity`
    of them. Recording appends until the ring is full and then overwrites the slot at a cyclic
    index; every query and record first drops the entries older than the TTL; removal drops
    every entry of a key. Dates are reals (seconds). */
module Deduplication {

  datatype Entry = Entry(key: string, timestamp: real)

  /** The ring and the next slot to overwrite. */
  datatype Store = Store(ring: seq<Entry>, index: nat)

  /** The ring fits its capacity and the index is 0 or a slot of the ring. */
  predicate WellIndexed(s: Store, capacity: nat) {
    |s.ring| <= capacity && (s.index == 0 || s.index < |s.ring|)
  }

  predicate HasKey(ring: seq<Entry>, key: string) {
    exists i :: 0 <= i < |ring| && ring[i].key == key
  }

  /** `ring.removeAll { $0.timestamp < threshold }`. */
  function Unexpired(ring: seq<Entry>, threshold: real): (r: seq<Entry>)
    ensures |r| <= |ring|
    ensures forall e :: e in r <==> e in ring && e.timestamp >= threshold
  {
    if ring == [] then []
    else (if ring[0].timestamp < threshold then [] else [ring[0]]) + Unexpired(ring[1..], threshold)
  }

  /** `ring.removeAll { $0.key == key }`. */
  function WithoutKey(ring: seq<Entry>, key: string): (r: seq<Entry>)
    ensures |r| <= |ring|
    ensures forall e :: e in r <==> e in ring && e.key != key
  {
    if ring == [] then []
    else (if ring[0].key == key then [] else [ring[0]]) + WithoutKey(ring[1..], key)
  }

  /** Removal keeps the surviving entries in their order: it distributes over concatenation. */
  lemma {:induction false} WithoutKeyAppend(a: seq<Entry>, b: seq<Entry>, key: string)
    ensures WithoutKey(a + b, key) == WithoutKey(a, key) + WithoutKey(b, key)
    decreases |a|
  {
    if a != [] {
      assert (a + b)[1..] == a[1..] + b && (a + b)[0] == a[0];
      WithoutKeyAppend(a[1..], b, key);
      var head := if a[0].key == key then [] else [a[0]];
      assert WithoutKey(a + b, key) == head + WithoutKey(a[1..] + b, key);
      assert WithoutKey(a, key) == head + WithoutKey(a[1..], key);
    } else {
      assert a + b == b;
    }
  }

  /** Purging keeps the surviving entries in their order too. */
  lemma {:induction false} UnexpiredAppend(a: seq<Entry>, b: seq<Entry>, threshold: real)
    ensures Unexpired(a + b, threshold) == Unexpired(a, threshold) + Unexpired(b, threshold)
    decreases |a|
  {
    if a != [] {
      assert (a + b)[1..] == a[1..] + b && (a + b)[0] == a[0];
      UnexpiredAppend(a[1..], b, threshold);
      var head := if a[0].timestamp < threshold then [] else [a[0]];
      assert Unexpired(a + b, threshold) == head + Unexpired(a[1..] + b, threshold);
      assert Unexpired(a, threshold) == head + Unexpired(a[1..], threshold);
    } else {
      assert a + b == b;
    }
  }

  /** Resets an index that no longer names a slot. */
  function ClampIndex(index: nat, ring: seq<Entry>): (r: nat)
    ensures r == 0 || r < |ring|
    ensures index < |ring| ==> r == index
  {
    if index >= |ring| then 0 else index
  }

  /** `purgeExpired(now:)`: on a non-empty ring, drops every entry older than `now - ttl`. */
  function Purge(s: Store, now: real, ttl: real): (r: Store)
    ensures forall e :: e in r.ring <==> e in s.ring && e.timestamp >= now - ttl
    ensures r.index == 0 || r.index < |r.ring| || (s.ring == [] && r == s)
    ensures |r.ring| <= |s.ring|
  {
    if s.ring == [] then s
    else
      var ring := Unexpired(s.ring, now - ttl);
      Store(ring, ClampIndex(s.index, ring))
  }

  /** `isDuplicate(key, now:)`, as a value: the key has an entry no older than the TTL. */
  function IsDuplicate(s: Store, key: string, now: real, ttl: real): (r: bool)
    ensures r <==> exists e :: e in s.ring && e.key == key && e.timestamp >= now - ttl
  {
    var p := Purge(s, now, ttl);
    assert forall i :: 0 <= i < |p.ring| ==> p.ring[i] in p.ring;
    HasKey(p.ring, key)
  }

  /** The insertion part of `record`: append while there is room, otherwise overwrite the slot
      at the index and advance it cyclically. */
  function Insert(s: Store, capacity: nat, e: Entry): (r: Store)
    requires capacity > 0 && WellIndexed(s, capacity)
    ensures WellIndexed(r, capacity)
    ensures |s.ring| < capacity ==> r == Store(s.ring + [e], s.index)
    ensures |s.ring| == capacity ==>
      r.ring == s.ring[s.index := e] && r.index == (s.index + 1) % capacity
  {
    if |s.ring| < capacity then Store(s.ring + [e], s.index)
    else Store(s.ring[s.index := e], (s.index + 1) % capacity)
  }

  /** `record(key, now:)`: purge, then insert the entry for `key` at `now`. */
  function Record(s: Store, capacity: nat, ttl: real, key: string, now: real): (r: Store)
    requires capacity > 0 && WellIndexed(s, capacity)
    ensures WellIndexed(r, capacity)
    ensures Entry(key, now) in r.ring
    ensures forall e :: e in r.ring ==> e == Entry(key, now) || (e in s.ring && e.timestamp >= now - ttl)
    ensures var p := Purge(s, now, ttl);
      |p.ring| < capacity ==> r.ring == p.ring + [Entry(key, now)] && r.index == p.index
    ensures var p := Purge(s, now, ttl);
      |p.ring| == capacity ==>
        && |r.ring| == capacity && r.index == (p.index + 1) % capacity
        && r.ring[p.index] == Entry(key, now)
        && forall i :: 0 <= i < capacity && i != p.index ==> r.ring[i] == p.ring[i]
    ensures forall e :: e in s.ring && e.timestamp >= now - ttl ==>
      e in r.ring || (|Purge(s, now, ttl).ring| == capacity && e == Purge(s, now, ttl).ring[Purge(s, now, ttl).index])
  {
    var p := Purge(s, now, ttl);
    var r := Insert(p, capacity, Entry(key, now));
    assert |p.ring| < capacity ==> r.ring[|p.ring|] == Entry(key, now);
    assert |p.ring| == capacity ==> r.ring[p.index] == Entry(key, now);
    assert forall i :: 0 <= i < |r.ring| ==> r.ring[i] == Entry(key, now) || r.ring[i] in p.ring by {
      forall i | 0 <= i < |r.ring| ensures r.ring[i] == Entry(key, now) || r.ring[i] in p.ring {
        if |p.ring| < capacity && i < |p.ring| {
          assert r.ring[i] == p.ring[i];
        }
      }
    }
    r
  }

  /** `remove(key)`: drops every entry of `key` and resets an index left past the end. */
  function Remove(s: Store, key: string): (r: Store)
    ensures forall e :: e in r.ring <==> e in s.ring && e.key != key
    ensures r.index == 0 || r.index < |r.ring|
    ensures |r.ring| <= |s.ring|
  {
    var ring := WithoutKey(s.ring, key);
    Store(ring, ClampIndex(s.index, ring))
  }

  /** Every operation keeps the ring within capacity and the index on a slot. */
  lemma OperationsKeepIndex(s: Store, capacity: nat, ttl: real, key: string, now: real)
    requires WellIndexed(s, capacity)
    ensures WellIndexed(Purge(s, now, ttl), capacity)
    ensures WellIndexed(Remove(s, key), capacity)
    ensures capacity > 0 ==> WellIndexed(Record(s, capacity, ttl, key, now), capacity)
  {
  }

  /** A key just recorded is a duplicate until its TTL has run out. */
  lemma RecordedIsDuplicate(s: Store, capacity: nat, ttl: real, key: string, now: real, later: real)
    requires capacity > 0 && WellIndexed(s, capacity)
    requires later - ttl <= now
    ensures IsDuplicate(Record(s, capacity, ttl, key, now), key, later, ttl)
  {
  }

  /** An entry older than the TTL no longer counts: a key whose every entry is older than
      `now - ttl` is not a duplicate. */
  lemma ExpiredIsNotDuplicate(s: Store, key: string, now: real, ttl: real)
    requires forall e :: e in s.ring && e.key == key ==> e.timestamp < now - ttl
    ensures !IsDuplicate(s, key, now, ttl)
  {
  }

  /** After `remove(key)` the key is not a duplicate, at any time. */
  lemma RemovedIsNotDuplicate(s: Store, key: string, now: real, ttl: real)
    ensures !IsDuplicate(Remove(s, key), key, now, ttl)
  {
  }

  /** Filling an empty store to capacity in one burst and recording one more key overwrites
      exactly the first entry. */
  lemma {:induction false} FillThenOverwriteFirst(capacity: nat, ttl: real, keys: seq<string>, key: string, now: real)
    requires capacity > 0 && |keys| == capacity && ttl >= 0.0
    ensures RecordAll(Store([], 0), capacity, ttl, keys, now) == Store(Entries(keys, now), 0)
    ensures Record(RecordAll(Store([], 0), capacity, ttl, keys, now), capacity, ttl, key, now)
         == Store([Entry(key, now)] + Entries(keys, now)[1..], 1 % capacity)
  {
    FillAppends(capacity, ttl, keys, now);
    OverwriteFirst(Entries(keys, now), capacity, ttl, key, now);
  }

  /** Recording into a full ring with nothing expired and index 0 overwrites the first. */
  lemma OverwriteFirst(ring: seq<Entry>, capacity: nat, ttl: real, key: string, now: real)
    requires capacity > 0 && |ring| == capacity
    requires forall i :: 0 <= i < |ring| ==> ring[i].timestamp >= now - ttl
    ensures Record(Store(ring, 0), capacity, ttl, key, now) == Store([Entry(key, now)] + ring[1..], 1 % capacity)
  {
    forall e | e in ring ensures e.timestamp >= now - ttl {
      var i :| 0 <= i < |ring| && ring[i] == e;
    }
    RecordWithoutExpiry(Store(ring, 0), capacity, ttl, key, now);
    assert ring[0 := Entry(key, now)] == [Entry(key, now)] + ring[1..];
  }

  /** The entries of `keys`, all at `now`. */
  function Entries(keys: seq<string>, now: real): (r: seq<Entry>)
    ensures |r| == |keys|
    ensures forall i :: 0 <= i < |keys| ==> r[i] == Entry(keys[i], now)
  {
    if keys == [] then [] else Entries(keys[..|keys| - 1], now) + [Entry(keys[|keys| - 1], now)]
  }

  /** Records `keys` in order, all at `now`. */
  function RecordAll(s: Store, capacity: nat, ttl: real, keys: seq<string>, now: real): (r: Store)
    requires capacity > 0 && WellIndexed(s, capacity)
    ensures WellIndexed(r, capacity)
    decreases |keys|
  {
    if keys == [] then s
    else Record(RecordAll(s, capacity, ttl, keys[..|keys| - 1], now), capacity, ttl, keys[|keys| - 1], now)
  }

  /** A purge that finds nothing expired changes nothing. */
  lemma {:induction false} UnexpiredNoneExpired(ring: seq<Entry>, threshold: real)
    requires forall e :: e in ring ==> e.timestamp >= threshold
    ensures Unexpired(ring, threshold) == ring
    decreases |ring|
  {
    if ring != [] {
      assert forall e :: e in ring[1..] ==> e in ring;
      UnexpiredNoneExpired(ring[1..], threshold);
      assert ring == [ring[0]] + ring[1..];
    }
  }

  /** With nothing expired, recording is inserting. */
  lemma RecordWithoutExpiry(s: Store, capacity: nat, ttl: real, key: string, now: real)
    requires capacity > 0 && WellIndexed(s, capacity)
    requires forall e :: e in s.ring ==> e.timestamp >= now - ttl
    ensures Record(s, capacity, ttl, key, now) == Insert(s, capacity, Entry(key, now))
  {
    UnexpiredNoneExpired(s.ring, now - ttl);
  }

  lemma {:induction false} FillAppends(capacity: nat, ttl: real, keys: seq<string>, now: real)
    requires capacity > 0 && |keys| <= capacity && ttl >= 0.0
    ensures RecordAll(Store([], 0), capacity, ttl, keys, now) == Store(Entries(keys, now), 0)
    decreases |keys|
  {
    if keys != [] {
      var prefix := keys[..|keys| - 1];
      FillAppends(capacity, ttl, prefix, now);
      RecordWithoutExpiry(Store(Entries(prefix, now), 0), capacity, ttl, keys[|keys| - 1], now);
    }
  }

  /** Removing d from [d, b, c] with index 1 (the ring `FillThenOverwriteFirst` gives for
      capacity 3, keys a, b, c and then d) leaves [b, c] with the index still 1. */
  lemma RemoveKeepsIndex()
    ensures Remove(Store([Entry("d", 4.0), Entry("b", 2.0), Entry("c", 3.0)], 1), "d")
      == Store([Entry("b", 2.0), Entry("c", 3.0)], 1)
  {
    var b, c, d := Entry("b", 2.0), Entry("c", 3.0), Entry("d", 4.0);
    WithoutKeyAppend([d], [b, c], "d");
    WithoutKeyAppend([b], [c], "d");
  }

  /** The slot overwritten is not always the oldest entry: from [b, c] with index 1 (what the
      removal above leaves) and capacity 3, recording e appends, and recording f then
      overwrites c although b is older. */
  lemma EvictionIsNotOldest()
    ensures var b, c := Entry("b", 2.0), Entry("c", 3.0);
      var s1 := Record(Store([b, c], 1), 3, 10.0, "e", 5.0);
      && Record(s1, 3, 10.0, "f", 6.0).ring == [b, Entry("f", 6.0), Entry("e", 5.0)]
      && b.timestamp < c.timestamp
  {
    var b, c := Entry("b", 2.0), Entry("c", 3.0);
    var s0 := Store([b, c], 1);
    var s1 := Record(s0, 3, 10.0, "e", 5.0);
    RecordWithoutExpiry(s0, 3, 10.0, "e", 5.0);
    RecordWithoutExpiry(s1, 3, 10.0, "f", 6.0);
  }

  /** The three store scenarios of the test suite (TTL 1 s, capacity 4): a key recorded at
      `now` is a duplicate half a second later and not one and a half seconds later; recorded
      and queried at once it is a duplicate, and after its removal it is not. */
  lemma StoreScenarios(now: real)
    ensures var s := Record(Store([], 0), 4, 1.0, "abc", now);
      && IsDuplicate(s, "abc", now + 0.5, 1.0)
      && !IsDuplicate(s, "abc", now + 1.5, 1.0)
      && IsDuplicate(s, "abc", now, 1.0)
      && !IsDuplicate(Remove(Purge(s, now, 1.0), "abc"), "abc", now, 1.0)
  {
    var s := Record(Store([], 0), 4, 1.0, "abc", now);
    RecordWithoutExpiry(Store([], 0), 4, 1.0, "abc", now);
    assert s.ring == [Entry("abc", now)];
    RecordedIsDuplicate(Store([], 0), 4, 1.0, "abc", now, now + 0.5);
    RecordedIsDuplicate(Store([], 0), 4, 1.0, "abc", now, now);
    RemovedIsNotDuplicate(Purge(s, now, 1.0), "abc", now, 1.0);
  }

  /** `DeduplicationStore`: the ring and index as fields updated in place. */
  class DeduplicationStore {
    const ttl: real
    const capacity: nat
    var ring: seq<Entry>
    var index: nat
    /** Every key ever recorded, to state that nothing else is ever reported. */
    ghost var recordedKeys: set<string>

    function State(): Store
      reads this
    {
      Store(ring, index)
    }

    ghost predicate Valid()
      reads this
    {
      WellIndexed(State(), capacity) && forall e :: e in ring ==> e.key in recordedKeys
    }

    constructor (ttl: real, capacity: nat)
      ensures Valid() && this.ttl == ttl && this.capacity == capacity
      ensures State() == Store([], 0) && recordedKeys == {}
    {
      this.ttl := ttl;
      this.capacity := capacity;
      ring, index := [], 0;
      recordedKeys := {};
    }

    method PurgeExpired(now: real)
      requires Valid()
      modifies this`ring, this`index
      ensures Valid() && State() == Purge(old(State()), now, ttl)
    {
      if ring == [] {
        return;
      }
      var threshold := now - ttl;
      ring := Unexpired(ring, threshold);
      if index >= |ring| {
        index := 0;
      }
    }

    /** `isDuplicate`: a key is reported exactly when it has an entry within the TTL, and only
        keys that were recorded are ever reported. */
    method IsDuplicateKey(key: string, now: real) returns (duplicate: bool)
      requires Valid()
      modifies this`ring, this`index
      ensures Valid() && State() == Purge(old(State()), now, ttl)
      ensures duplicate == IsDuplicate(old(State()), key, now, ttl)
      ensures duplicate ==> key in recordedKeys
    {
      PurgeExpired(now);
      duplicate := HasKey(ring, key);
      assert duplicate ==> exists i :: 0 <= i < |ring| && ring[i].key == key && ring[i] in ring;
    }

    /** `record`. The source traps on a full ring of capacity 0, so a positive capacity is
        required. */
    method RecordKey(key: string, now: real)
      requires Valid() && capacity > 0
      modifies this
      ensures Valid() && State() == Record(old(State()), capacity, ttl, key, now)
      ensures recordedKeys == old(recordedKeys) + {key}
    {
      PurgeExpired(now);
      var entry := Entry(key, now);
      if |ring| < capacity {
        ring := ring + [entry];
      } else {
        ring := ring[index := entry];
        index := (index + 1) % capacity;
      }
      recordedKeys := recordedKeys + {key};
    }

    method RemoveKey(key: string)
      requires Valid()
      modifies this`ring, this`index
      ensures Valid() && State() == Remove(old(State()), key)
    {
      ring := WithoutKey(ring, key);
      if index >= |ring| {
        index := 0;
      }
    }
  }
}
