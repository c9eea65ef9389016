/** Where entries are on their own probe sequences, and what ck_hs_gc does about it. */
module HsPlaces {
  import opened Wrappers
  import opened MapSizes
  import opened HashKeys
  import opened HsTable
  import opened HsStores
  import opened HsMap
  import opened HsCollect

  function SlotAt(slots: seq<Slot>, h: nat, n: nat): Slot
    requires Shape(|slots|)
  {
    slots[Pos(|slots|, h, n)]
  }

  /** Position n is the first of its probe sequence at which `key` is. */
  ghost predicate PlacedAt(c: Callbacks, slots: seq<Slot>, key: Key, n: nat)
    requires Shape(|slots|)
  {
    SlotAt(slots, c.hf(key), n) == Entry(key) && forall m: nat | m < n :: SlotAt(slots, c.hf(key), m) != Entry(key)
  }

  ghost predicate IsPlaced(c: Callbacks, slots: seq<Slot>, key: Key)
    requires Shape(|slots|)
  {
    exists n: nat :: PlacedAt(c, slots, key, n)
  }

  /** The number of probes that a lookup makes before it meets the key; 0 if it never does. */
  ghost function Place(c: Callbacks, slots: seq<Slot>, key: Key): nat {
    if Shape(|slots|) && IsPlaced(c, slots, key) then var n: nat :| PlacedAt(c, slots, key, n); n else 0
  }

  lemma PlaceIs(c: Callbacks, slots: seq<Slot>, key: Key, n: nat)
    requires Shape(|slots|) && PlacedAt(c, slots, key, n)
    ensures IsPlaced(c, slots, key) && Place(c, slots, key) == n
  {
    hide Pos;
    var m := Place(c, slots, key);
    assert PlacedAt(c, slots, key, m);
  }

  lemma {:induction false} FirstPlace(c: Callbacks, slots: seq<Slot>, key: Key, n: nat) returns (m: nat)
    requires Shape(|slots|) && SlotAt(slots, c.hf(key), n) == Entry(key)
    ensures m <= n && PlacedAt(c, slots, key, m)
  {
    hide Pos;
    if p: nat :| p < n && SlotAt(slots, c.hf(key), p) == Entry(key) {
      m := FirstPlace(c, slots, key, p);
    } else {
      m := n;
    }
  }

  /** In a good table every key has its place, and the bounds reach it. */
  lemma PlaceIsCovered(t: Table, key: Key)
    requires Good(t, None) && key in Keys(t.slots)
    ensures Shape(|t.slots|) && PlacedAt(t.cb, t.slots, key, Place(t.cb, t.slots, key))
    ensures Covered(t, t.cb.hf(key), Place(t.cb, t.slots, key))
  {
    hide Pos;
    var i: nat :| i < |t.slots| && t.slots[i] == Entry(key);
    assert Reach(t, i);
    var n: nat :| ReachAt(t, i, n);
    var m := FirstPlace(t.cb, t.slots, key, n);
    PlaceIs(t.cb, t.slots, key, m);
  }

  /** A tombstone precedes the key on its probe sequence. */
  ghost predicate IsBehindTombstone(c: Callbacks, slots: seq<Slot>, key: Key)
    requires Shape(|slots|)
  {
    exists m: nat :: m < Place(c, slots, key) && SlotAt(slots, c.hf(key), m) == Tombstone
  }

  /** No key has come later on its probe sequence. */
  ghost predicate NoneLater(c: Callbacks, before: seq<Slot>, after: seq<Slot>, keys: set<Key>) {
    forall k | k in keys :: Place(c, after, k) <= Place(c, before, k)
  }

  /** Some key is earlier. */
  ghost predicate SomeEarlier(c: Callbacks, before: seq<Slot>, after: seq<Slot>, keys: set<Key>) {
    exists k :: k in keys && Place(c, after, k) < Place(c, before, k)
  }

  /** All places together. */
  ghost function TotalPlaces(c: Callbacks, slots: seq<Slot>, keys: set<Key>): nat {
    if keys == {} then 0 else var k :| k in keys; Place(c, slots, k) + TotalPlaces(c, slots, keys - {k})
  }

  lemma {:induction false} TotalFalls(c: Callbacks, before: seq<Slot>, after: seq<Slot>, keys: set<Key>)
    requires NoneLater(c, before, after, keys)
    ensures TotalPlaces(c, after, keys) <= TotalPlaces(c, before, keys)
    ensures SomeEarlier(c, before, after, keys) ==> TotalPlaces(c, after, keys) < TotalPlaces(c, before, keys)
  {
    hide Place;
    if keys != {} {
      var k :| k in keys && TotalPlaces(c, after, keys) == Place(c, after, k) + TotalPlaces(c, after, keys - {k})
               && TotalPlaces(c, before, keys) == Place(c, before, k) + TotalPlaces(c, before, keys - {k});
      TotalFalls(c, before, after, keys - {k});
      if p :| p in keys && Place(c, after, p) < Place(c, before, p) && p != k {
        assert p in keys - {k};
      }
    }
  }

  // ----- one entry moves

  /** What a probe for the entry of slot x itself tells about its place. */
  lemma ProbeTellsPlace(t: Table, key: Key, x: nat, limit: nat, r: Probed, at: nat)
    requires Good(t, None) && Ended(t, key, Default, limit, r, at) && r.slot == Some(x)
    requires x < |t.slots| && t.slots[x] == Entry(key)
    ensures PlacedAt(t.cb, t.slots, key, at) && Place(t.cb, t.slots, key) == at
    ensures r.first.Some? <==> IsBehindTombstone(t.cb, t.slots, key)
    ensures r.first.Some? ==> 1 <= r.probes <= at && Pos(|t.slots|, t.cb.hf(key), r.probes - 1) == r.first.value
    ensures r.first.Some? ==> r.first.value < |t.slots| && t.slots[r.first.value] == Tombstone
    ensures r.first.Some? ==> forall m: nat | m < r.probes - 1 :: SlotAt(t.slots, t.cb.hf(key), m) != Tombstone
    ensures r.first.None? ==> r.probes == at + 1
  {
    hide Pos;
    var h := t.cb.hf(key);
    forall m: nat | m < at ensures SlotAt(t.slots, h, m) != Entry(key) {
      assert Skipped(t, key, m) && At(t, h, m) == SlotAt(t.slots, h, m);
    }
    assert At(t, h, at) == SlotAt(t.slots, h, at) == t.slots[x];
    PlaceIs(t.cb, t.slots, key, at);
    assert forall m: nat :: At(t, h, m) == SlotAt(t.slots, h, m);
    if r.first.Some? {
      assert SlotAt(t.slots, h, r.probes - 1) == Tombstone;
    }
  }

  /** The slots after the entry of slot x has moved to the tombstone in slot f. */
  function Moved(slots: seq<Slot>, f: nat, x: nat, key: Key): seq<Slot>
    requires f < |slots| && x < |slots|
  {
    slots[f := Entry(key)][x := Tombstone]
  }

  lemma OthersStay(c: Callbacks, slots: seq<Slot>, f: nat, x: nat, key: Key, k: Key)
    requires Shape(|slots|) && f < |slots| && x < |slots| && slots[f] == Tombstone && slots[x] == Entry(key) && k != key
    ensures Place(c, Moved(slots, f, x, key), k) == Place(c, slots, k)
  {
    hide Pos;
    var after := Moved(slots, f, x, key);
    forall n: nat ensures SlotAt(after, c.hf(k), n) == Entry(k) <==> SlotAt(slots, c.hf(k), n) == Entry(k) {}
    forall n: nat ensures PlacedAt(c, after, k, n) <==> PlacedAt(c, slots, k, n) {}
    if n: nat :| PlacedAt(c, slots, k, n) {
      PlaceIs(c, slots, k, n);
      PlaceIs(c, after, k, n);
    }
  }

  /** The moved entry is where the tombstone was. */
  lemma MoverIsAt(c: Callbacks, slots: seq<Slot>, f: nat, x: nat, key: Key, n: nat, at: nat)
    requires Shape(|slots|) && f < |slots| && x < |slots| && slots[f] == Tombstone && slots[x] == Entry(key)
    requires PlacedAt(c, slots, key, at) && n < at && Pos(|slots|, c.hf(key), n) == f
    requires forall m: nat | m < n :: SlotAt(slots, c.hf(key), m) != Tombstone
    ensures Place(c, Moved(slots, f, x, key), key) == n
  {
    hide Pos;
    var after, h := Moved(slots, f, x, key), c.hf(key);
    forall m: nat | m < n ensures SlotAt(after, h, m) != Entry(key) {
      assert SlotAt(slots, h, m) != Tombstone && SlotAt(slots, h, m) != Entry(key);
    }
    assert SlotAt(slots, h, n) == Tombstone;
    assert f != x;
    assert PlacedAt(c, after, key, n);
    PlaceIs(c, after, key, n);
  }

  /** One round of ck_hs_gc on the entry of slot x: it comes forward if a tombstone precedes it. */
  ghost predicate Advanced(c: Callbacks, before: seq<Slot>, after: seq<Slot>, key: Key, probes: nat)
    requires Shape(|before|)
  {
    && (forall k | k in Keys(before) && k != key :: Place(c, after, k) == Place(c, before, k))
    && 1 <= probes && Place(c, after, key) == probes - 1
    && if IsBehindTombstone(c, before, key) then Place(c, after, key) < Place(c, before, key) else after == before
  }

  lemma AdvanceTellsPlaces(t: Table, key: Key, x: nat, limit: nat, r: Probed, at: nat)
    requires Good(t, None) && Ended(t, key, Default, limit, r, at) && r.slot == Some(x)
    requires x < |t.slots| && t.slots[x] == Entry(key) && (r.first.Some? ==> r.first.value < |t.slots|)
    ensures Shape(|t.slots|)
    ensures Advanced(t.cb, t.slots, if r.first.Some? then Moved(t.slots, r.first.value, x, key) else t.slots, key,
                     r.probes)
  {
    ProbeTellsPlace(t, key, x, limit, r, at);
    hide Ended;
    hide Good;
    hide Pos;
    hide Place;
    if r.first.Some? {
      var after := Moved(t.slots, r.first.value, x, key);
      MoverIsAt(t.cb, t.slots, r.first.value, x, key, r.probes - 1, at);
      forall k | k in Keys(t.slots) && k != key ensures Place(t.cb, after, k) == Place(t.cb, t.slots, k) {
        OthersStay(t.cb, t.slots, r.first.value, x, key, k);
      }
    }
  }

  /** What the probe for the entry of slot x itself comes to. */
  lemma ProbeOfEntry(t: Table, key: Key, x: nat, r: Probed, at: nat)
    requires Good(t, None) && Distinct(t) && x < |t.slots| && t.slots[x] == Entry(key)
    requires Ended(t, key, Default, Bound(t, t.cb.hf(key)), r, at)
    ensures Shape(|t.slots|) && r.slot == Some(x) && r.found == Some(key) && Holds(t, x, key)
    ensures 1 <= r.probes && Ready(t, r, key, r.probes - 1)
    ensures r.first.Some? ==> r.first.value < |t.slots| && t.slots[r.first.value] == Tombstone
                              && FitsAt(t, key, r.first.value, r.probes - 1)
    ensures Advanced(t.cb, t.slots, if r.first.Some? then Moved(t.slots, r.first.value, x, key) else t.slots, key,
                     r.probes)
    ensures Keys(t.slots) - {key} + {key} == Keys(t.slots)
  {
    hide Pos;
    hide Advanced;
    FindsItself(t, x, r, at);
    hide Good;
    KeyOfSlot(t.slots, x);
    AdvanceTellsPlaces(t, key, x, Bound(t, t.cb.hf(key)), r, at);
  }

  // ----- a whole collection

  /** The entries that are visited in the rounds before round i. */
  function EntriesIn(slots: seq<Slot>, seed: nat, i: nat): nat
    requires 0 < |slots|
  {
    if i == 0 then 0 else EntriesIn(slots, seed, i - 1) + if slots[Visited(|slots|, seed, i - 1)].Entry? then 1 else 0
  }

  /** Round i visits an entry with a tombstone before it; a partial collection gets as far as `cycles` entries. */
  ghost predicate DueAt(c: Callbacks, slots: seq<Slot>, cycles: nat, seed: nat, i: nat)
    requires Shape(|slots|)
  {
    && i < |slots| && slots[Visited(|slots|, seed, i)].Entry?
    && IsBehindTombstone(c, slots, slots[Visited(|slots|, seed, i)].key)
    && (cycles == 0 || EntriesIn(slots, seed, i) < cycles)
  }

  ghost predicate SomeDue(c: Callbacks, slots: seq<Slot>, cycles: nat, seed: nat)
    requires Shape(|slots|)
  {
    exists i: nat :: DueAt(c, slots, cycles, seed, i)
  }

  /** What a collection does to the places: if some entry is due, entries come forward, and otherwise all stay. */
  ghost predicate Collected(c: Callbacks, before: seq<Slot>, after: seq<Slot>, cycles: nat, seed: nat)
    requires Shape(|before|)
  {
    && NoneLater(c, before, after, Keys(before))
    && if SomeDue(c, before, cycles, seed) then SomeEarlier(c, before, after, Keys(before)) else after == before
  }

  /** The same up to round i. */
  ghost predicate CollectedTo(c: Callbacks, before: seq<Slot>, after: seq<Slot>, cycles: nat, seed: nat, i: nat)
    requires Shape(|before|)
  {
    && |after| == |before| && Keys(after) == Keys(before) && NoneLater(c, before, after, Keys(before))
    && ( || (SomeDue(c, before, cycles, seed) && SomeEarlier(c, before, after, Keys(before)))
         || (after == before && forall j: nat | j < i :: !DueAt(c, before, cycles, seed, j)))
  }

  lemma NothingCollected(c: Callbacks, slots: seq<Slot>, cycles: nat, seed: nat)
    requires Shape(|slots|)
    ensures CollectedTo(c, slots, slots, cycles, seed, 0)
  {}

  lemma AdvancedIsNotLater(c: Callbacks, before: seq<Slot>, slots: seq<Slot>, after: seq<Slot>, key: Key, probes: nat)
    requires Shape(|slots|) && Keys(slots) == Keys(before) && Advanced(c, slots, after, key, probes)
    requires NoneLater(c, before, slots, Keys(before)) && key in Keys(before)
    ensures NoneLater(c, before, after, Keys(before)) && probes <= Place(c, before, key) + 1
    ensures SomeEarlier(c, before, slots, Keys(before)) ==> SomeEarlier(c, before, after, Keys(before))
    ensures IsBehindTombstone(c, slots, key) ==> SomeEarlier(c, before, after, Keys(before))
  {
    hide Place;
    hide Keys;
    hide IsBehindTombstone;
    forall k | k in Keys(before) ensures Place(c, after, k) <= Place(c, slots, k) <= Place(c, before, k) {}
  }

  lemma NotEarlierThanItself(c: Callbacks, slots: seq<Slot>)
    ensures !SomeEarlier(c, slots, slots, Keys(slots))
  {}

  /** A round on the entry of `key`. */
  lemma RoundCollects(c: Callbacks, before: seq<Slot>, slots: seq<Slot>, after: seq<Slot>, cycles: nat, seed: nat,
                      i: nat, key: Key, probes: nat)
    requires Shape(|before|) && CollectedTo(c, before, slots, cycles, seed, i) && i < |slots| == |after|
    requires slots[Visited(|slots|, seed, i)] == Entry(key) && Keys(after) == Keys(before)
    requires Advanced(c, slots, after, key, probes)
    requires slots == before ==> cycles == 0 || EntriesIn(before, seed, i) < cycles
    ensures CollectedTo(c, before, after, cycles, seed, i + 1) && NeedsProbes(c, before, key, probes)
    ensures after == before ==> slots == before && EntriesIn(before, seed, i + 1) == EntriesIn(before, seed, i) + 1
  {
    KeyOfSlot(slots, Visited(|slots|, seed, i));
    AdvancedIsNotLater(c, before, slots, after, key, probes);
    hide Place;
    hide Keys;
    hide Visited;
    hide IsBehindTombstone;
    hide NoneLater;
    NotEarlierThanItself(c, before);
    hide SomeEarlier;
    if slots == before && IsBehindTombstone(c, slots, key) {
      assert DueAt(c, before, cycles, seed, i);
    }
  }

  /** A round on a slot without an entry. */
  lemma RoundSkips(c: Callbacks, before: seq<Slot>, slots: seq<Slot>, cycles: nat, seed: nat, i: nat)
    requires Shape(|before|) && CollectedTo(c, before, slots, cycles, seed, i) && i < |slots|
    requires !slots[Visited(|slots|, seed, i)].Entry?
    ensures CollectedTo(c, before, slots, cycles, seed, i + 1)
    ensures slots == before ==> EntriesIn(before, seed, i + 1) == EntriesIn(before, seed, i)
  {
    hide Keys;
    hide NoneLater;
    hide SomeEarlier;
    hide Visited;
    hide IsBehindTombstone;
  }

  lemma {:induction false} EntriesGrow(slots: seq<Slot>, seed: nat, i: nat, j: nat)
    requires 0 < |slots| && i <= j
    ensures EntriesIn(slots, seed, i) <= EntriesIn(slots, seed, j)
    decreases j
  {
    if i < j { EntriesGrow(slots, seed, i, j - 1); }
  }

  /** The last round has been made, or the last entry of a partial collection has been visited. */
  lemma CollectionEnds(c: Callbacks, before: seq<Slot>, after: seq<Slot>, cycles: nat, seed: nat, i: nat)
    requires Shape(|before|) && CollectedTo(c, before, after, cycles, seed, i)
    requires i == |before| || (0 < cycles && (after == before ==> cycles <= EntriesIn(before, seed, i)))
    ensures Collected(c, before, after, cycles, seed)
  {
    hide Keys;
    hide NoneLater;
    hide SomeEarlier;
    hide Visited;
    hide IsBehindTombstone;
    if after == before && SomeDue(c, before, cycles, seed)
       && (forall j: nat | j < i :: !DueAt(c, before, cycles, seed, j)) {
      var j: nat :| DueAt(c, before, cycles, seed, j);
      EntriesGrow(before, seed, i, j);
      assert false;
    }
  }

  lemma CollectedFalls(c: Callbacks, before: seq<Slot>, after: seq<Slot>, cycles: nat, seed: nat)
    requires Shape(|before|) && Collected(c, before, after, cycles, seed)
    ensures NoneLater(c, before, after, Keys(before))
    ensures if SomeDue(c, before, cycles, seed)
            then TotalPlaces(c, after, Keys(before)) < TotalPlaces(c, before, Keys(before)) else after == before
  {
    hide Place;
    hide Keys;
    hide SomeDue;
    TotalFalls(c, before, after, Keys(before));
  }

  // ----- the bounds that are gathered

  /** Key k needs at least n probes. */
  ghost predicate NeedsProbes(c: Callbacks, slots: seq<Slot>, k: Key, n: nat) {
    k in Keys(slots) && n <= Place(c, slots, k) + 1
  }

  /** Key k, whose home is slot o, needs a bound of at least n. */
  ghost predicate NeedsBound(c: Callbacks, slots: seq<Slot>, k: Key, o: nat, n: nat)
    requires 0 < |slots|
  {
    k in Keys(slots) && Home(|slots|, c.hf(k)) == o && n <= Capped(Place(c, slots, k) + 1)
  }

  /** Neither the maximum nor a bound is higher than some key needed in these slots. */
  ghost predicate NotTooHigh(c: Callbacks, slots: seq<Slot>, maximum: nat, bounds: seq<nat>)
    requires 0 < |slots|
  {
    && (maximum == 0 || exists k :: NeedsProbes(c, slots, k, maximum))
    && forall o: nat | o < |bounds| :: bounds[o] == 0 || exists k :: NeedsBound(c, slots, k, o, bounds[o])
  }

  lemma GatheredIsNotTooHigh(t: Table, slots: seq<Slot>, maximum: nat, bounds: seq<nat>, key: Key, probes: nat)
    requires 0 < |slots| == |t.slots| && (|bounds| == 0 || |bounds| == |t.slots|)
    requires NotTooHigh(t.cb, slots, maximum, bounds) && NeedsProbes(t.cb, slots, key, probes)
    ensures NotTooHigh(t.cb, slots, Larger(maximum, probes), Gathered(t, bounds, t.cb.hf(key), probes))
  {
    hide Place;
    hide Keys;
    var bounds' := Gathered(t, bounds, t.cb.hf(key), probes);
    forall o: nat | o < |bounds'| ensures bounds'[o] == 0 || exists k :: NeedsBound(t.cb, slots, k, o, bounds'[o]) {
      if bounds'[o] != bounds[o] { assert NeedsBound(t.cb, slots, key, o, bounds'[o]); }
    }
  }

  /** Every key is reached, with the probes that it needs and no more than the bounds allow. */
  ghost predicate HighEnough(c: Callbacks, slots: seq<Slot>, maximum: nat, bounds: seq<nat>)
    requires 0 < |slots| && (|bounds| == 0 || |bounds| == |slots|)
  {
    forall k | k in Keys(slots) ::
      && Place(c, slots, k) + 1 <= maximum
      && (|bounds| > 0 ==> Capped(Place(c, slots, k) + 1) <= bounds[Home(|slots|, c.hf(k))])
  }

  lemma GoodIsHighEnough(t: Table)
    requires Good(t, None)
    ensures HighEnough(t.cb, t.slots, t.maximum, t.bounds)
  {
    hide Place;
    hide Pos;
    forall k | k in Keys(t.slots)
      ensures Place(t.cb, t.slots, k) + 1 <= t.maximum
      ensures |t.bounds| > 0 ==> Capped(Place(t.cb, t.slots, k) + 1) <= t.bounds[Home(|t.slots|, t.cb.hf(k))]
    {
      PlaceIsCovered(t, k);
    }
  }

  /** The maximum is the largest number of probes that any key needs, and each bound the capped largest of the keys with
      this home; both are 0 where there is none. */
  ghost predicate Exact(c: Callbacks, slots: seq<Slot>, maximum: nat, bounds: seq<nat>)
    requires 0 < |slots| && (|bounds| == 0 || |bounds| == |slots|)
  {
    && HighEnough(c, slots, maximum, bounds)
    && (maximum == 0 || exists k :: k in Keys(slots) && Place(c, slots, k) + 1 == maximum)
    && forall o: nat | o < |bounds| ::
         bounds[o] == 0
         || exists k :: k in Keys(slots) && Home(|slots|, c.hf(k)) == o && Capped(Place(c, slots, k) + 1) == bounds[o]
  }

  lemma BothAreExact(c: Callbacks, slots: seq<Slot>, maximum: nat, bounds: seq<nat>)
    requires 0 < |slots| && (|bounds| == 0 || |bounds| == |slots|)
    requires HighEnough(c, slots, maximum, bounds) && NotTooHigh(c, slots, maximum, bounds)
    ensures Exact(c, slots, maximum, bounds)
  {
    hide Place;
    hide Keys;
    if maximum > 0 {
      var k :| NeedsProbes(c, slots, k, maximum);
      assert Place(c, slots, k) + 1 == maximum;
    }
    forall o: nat | o < |bounds|
      ensures bounds[o] == 0
           || exists k :: k in Keys(slots) && Home(|slots|, c.hf(k)) == o && Capped(Place(c, slots, k) + 1) == bounds[o]
    {
      if bounds[o] > 0 {
        var k :| NeedsBound(c, slots, k, o, bounds[o]);
        assert Capped(Place(c, slots, k) + 1) == bounds[o];
      }
    }
  }

  /** With exact bounds a lookup makes no probe more than some key of the same home needs, unless the bound is
      saturated; and none if there is no such key. */
  lemma LookupsAreShort(t: Table, h: nat)
    requires Formed(t) && Exact(t.cb, t.slots, t.maximum, t.bounds) && |t.bounds| > 0
    ensures var o := Home(|t.slots|, h);
            t.bounds[o] < WORD_MAX ==>
              if exists k :: k in Keys(t.slots) && Home(|t.slots|, t.cb.hf(k)) == o
              then exists k :: k in Keys(t.slots) && Home(|t.slots|, t.cb.hf(k)) == o
                               && Bound(t, h) == Place(t.cb, t.slots, k) + 1
              else Bound(t, h) == 0
  {
    hide Place;
    hide Pos;
    hide Keys;
    var o := Home(|t.slots|, h);
    if t.bounds[o] > 0 {
      var k :| k in Keys(t.slots) && Home(|t.slots|, t.cb.hf(k)) == o
               && Capped(Place(t.cb, t.slots, k) + 1) == t.bounds[o];
    }
  }

  /** In a set without keys there is nothing to move. */
  lemma EmptyIsCollected(t: Table, cycles: nat, seed: nat)
    requires Settled(t, 0)
    ensures Keys(t.slots) == {} && Shape(|t.slots|) && !SomeDue(t.cb, t.slots, cycles, seed)
  {
    hide Pos;
    hide Place;
    forall i: nat ensures !DueAt(t.cb, t.slots, cycles, seed, i) {
      if i < |t.slots| { KeyOfSlot(t.slots, Visited(|t.slots|, seed, i)); }
    }
  }

  lemma EmptyIsExact(t: Table, seed: nat)
    requires Settled(t, 0) && t.maximum == 0 && forall o | 0 <= o < |t.bounds| :: t.bounds[o] == 0
    ensures HighEnough(t.cb, t.slots, t.maximum, t.bounds) && NotTooHigh(t.cb, t.slots, t.maximum, t.bounds)
    ensures Exact(t.cb, t.slots, t.maximum, t.bounds)
  {
    hide Pos;
    hide Place;
    EmptyIsCollected(t, 0, seed);
  }
}
