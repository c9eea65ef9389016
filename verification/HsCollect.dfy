/** The bookkeeping of ck_hs_gc: which entries the lowered bounds already cover. */
module HsCollect {
  import opened Bits
  import opened Wrappers
  import opened MapSizes
  import opened HashKeys
  import opened HsTable
  import opened HsStores
  import opened HsMap

  /** The slot visited in round k. */
  function Visited(capacity: nat, seed: nat, k: nat): (x: nat)
    requires 0 < capacity
    ensures x < capacity
  {
    Home(capacity, k + seed)
  }

  /** Slot y will still be visited, in round i or later. */
  ghost predicate Pending(capacity: nat, seed: nat, i: nat, y: nat)
    requires 0 < capacity
  {
    exists k: nat :: i <= k < capacity && Visited(capacity, seed, k) == y
  }

  /** Going round from any seed reaches every residue. */
  lemma RoundFor(capacity: nat, seed: nat, y: nat) returns (k: nat)
    requires y < capacity
    ensures k < capacity && (k + seed) % capacity == y
  {
    var q, s := seed / capacity, seed % capacity;
    if s <= y {
      k := y - s;
      ModUnique(k + seed, capacity, q, y);
    } else {
      k := y + capacity - s;
      assert capacity * (q + 1) == capacity * q + capacity;
      ModUnique(k + seed, capacity, q + 1, y);
    }
  }

  lemma AllPending(capacity: nat, seed: nat, y: nat)
    requires IsPow2(capacity) && y < capacity
    ensures Pending(capacity, seed, 0, y)
  {
    hide And;
    hide Pow2;
    var e: nat :| capacity == Pow2(e);
    var k := RoundFor(capacity, seed, y);
    AndMask(k + seed, e);
    assert Visited(capacity, seed, k) == y;
  }

  /** The table with the bounds gathered so far. */
  ghost function Lowered(t: Table, maximum: nat, bounds: seq<nat>): Table {
    t.(maximum := maximum, bounds := bounds)
  }

  ghost predicate Below(t: Table, maximum: nat, bounds: seq<nat>) {
    && maximum <= t.maximum && |bounds| == |t.bounds|
    && forall o | 0 <= o < |bounds| :: bounds[o] <= t.bounds[o]
  }

  /** Every entry is still to be visited, or the gathered bounds reach it. */
  ghost predicate Scanned(t: Table, maximum: nat, bounds: seq<nat>, seed: nat, i: nat) {
    && Formed(t) && Below(t, maximum, bounds)
    && forall y: nat | y < |t.slots| && t.slots[y].Entry? ::
         Pending(|t.slots|, seed, i, y) || Reach(Lowered(t, maximum, bounds), y)
  }

  function Larger(a: nat, b: nat): nat {
    if a > b then a else b
  }

  ghost function Gathered(t: Table, bounds: seq<nat>, h: nat, n: nat): seq<nat>
    requires 0 < |t.slots| && (|bounds| == 0 || |bounds| == |t.slots|)
  {
    if |bounds| == 0 then bounds
    else bounds[Home(|t.slots|, h) := Larger(bounds[Home(|t.slots|, h)], Capped(n))]
  }

  lemma ScanStarts(t: Table, zeros: seq<nat>, seed: nat)
    requires Good(t, None) && |zeros| == |t.bounds| && forall o | 0 <= o < |zeros| :: zeros[o] == 0
    ensures Scanned(t, 0, zeros, seed, 0)
  {
    hide Pos;
    forall y: nat | y < |t.slots| && t.slots[y].Entry? ensures Pending(|t.slots|, seed, 0, y) {
      AllPending(|t.slots|, seed, y);
    }
  }

  lemma PendingStep(capacity: nat, seed: nat, i: nat, y: nat)
    requires 0 < capacity && Pending(capacity, seed, i, y) && y != Visited(capacity, seed, i)
    ensures Pending(capacity, seed, i + 1, y)
  {
    var k: nat :| i <= k < capacity && Visited(capacity, seed, k) == y;
    assert k != i;
  }

  lemma SkipSlot(t: Table, maximum: nat, bounds: seq<nat>, seed: nat, i: nat)
    requires Scanned(t, maximum, bounds, seed, i) && !t.slots[Visited(|t.slots|, seed, i)].Entry?
    ensures Scanned(t, maximum, bounds, seed, i + 1)
  {
    hide Pos;
    hide Visited;
    hide Pending;
    forall y: nat | y < |t.slots| && t.slots[y].Entry?
      ensures Pending(|t.slots|, seed, i + 1, y) || Reach(Lowered(t, maximum, bounds), y)
    {
      if Pending(|t.slots|, seed, i, y) { PendingStep(|t.slots|, seed, i, y); }
    }
  }

  /** What a probe for the entry of slot x itself reports. */
  lemma FindsItself(t: Table, x: nat, r: Probed, at: nat)
    requires Good(t, None) && Distinct(t) && x < |t.slots| && t.slots[x].Entry?
    requires Ended(t, t.slots[x].key, Default, Bound(t, Hash(t, x)), r, at)
    ensures r.slot == Some(x) && r.found == Some(t.slots[x].key)
    ensures 1 <= r.probes && Ready(t, r, t.slots[x].key, r.probes - 1)
  {
    hide Pos;
    var key := t.slots[x].key;
    assert Holds(t, x, key);
    if r.found.None? {
      EndedAbsent(t, key, Default, Bound(t, Hash(t, x)), r, at);
      assert false;
    }
    FoundFits(t, key, Bound(t, Hash(t, x)), r, at);
    assert !Twin(t, x, r.slot.value);
  }

  /** The entry of slot x, moved forward or not, is reached by the bounds that now count it. */
  lemma VisitReaches(t: Table, t': Table, maximum: nat, bounds: seq<nat>, key: Key, r: Probed)
    requires Formed(t) && Formed(t') && Below(t, maximum, bounds) && 1 <= r.probes
    requires Ready(t, r, key, r.probes - 1)
    requires t' == t.(slots := t'.slots, gen := t'.gen) && |t'.slots| == |t.slots|
    requires t'.slots[Target(r)] == Entry(key)
    requires forall y | 0 <= y < |t.slots| :: t'.slots[y] == Empty ==> t.slots[y] == Empty
    ensures var h := t.cb.hf(key);
            var m, bs := Larger(maximum, r.probes), Gathered(t, bounds, h, r.probes);
            Below(t', m, bs) && Formed(Lowered(t', m, bs)) && Reach(Lowered(t', m, bs), Target(r))
  {
    hide Pos;
    var h := t.cb.hf(key);
    var low := Lowered(t', Larger(maximum, r.probes), Gathered(t, bounds, h, r.probes));
    forall m: nat | m < r.probes - 1 ensures At(low, h, m) != Empty {
      assert At(t, h, m) != Empty;
    }
    assert ReachAt(low, Target(r), r.probes - 1);
  }

  lemma LoweredKeepsReach(t: Table, t': Table, maximum: nat, bounds: seq<nat>, maximum': nat, bounds': seq<nat>, y: nat)
    requires Formed(t) && Formed(t') && Below(t, maximum, bounds) && Below(t', maximum', bounds')
    requires t' == t.(slots := t'.slots, gen := t'.gen) && |t'.slots| == |t.slots|
    requires maximum <= maximum' && forall o | 0 <= o < |bounds| :: bounds[o] <= bounds'[o]
    requires forall i | 0 <= i < |t.slots| :: t'.slots[i] == Empty ==> t.slots[i] == Empty
    requires y < |t.slots| && t.slots[y].Entry? && t'.slots[y] == t.slots[y]
    requires Reach(Lowered(t, maximum, bounds), y)
    ensures Reach(Lowered(t', maximum', bounds'), y)
  {
    hide Pos;
    var low, low' := Lowered(t, maximum, bounds), Lowered(t', maximum', bounds');
    var n: nat :| ReachAt(low, y, n);
    forall m: nat | m < n ensures At(low', Hash(t, y), m) != Empty {
      assert At(low, Hash(t, y), m) != Empty;
    }
    assert Hash(low', y) == Hash(t, y);
    assert NoEmptyBefore(low', Hash(t, y), n);
    assert Covered(low', Hash(t, y), n);
    assert ReachAt(low', y, n);
  }

  /** One round: the entry of the visited slot x is kept, or moved to the first tombstone. */
  lemma VisitSlot(t: Table, t': Table, maximum: nat, bounds: seq<nat>, seed: nat, i: nat, r: Probed, x: nat)
    requires Good(t, None) && Good(t', None) && Scanned(t, maximum, bounds, seed, i)
    requires x == Visited(|t.slots|, seed, i) && t.slots[x].Entry? && r.slot == Some(x) && r.found.Some?
    requires 1 <= r.probes && Ready(t, r, t.slots[x].key, r.probes - 1)
    requires t' == t.(slots := t'.slots, gen := t'.gen)
    requires t'.slots == if r.first.Some? then t.slots[r.first.value := t.slots[x]][x := Tombstone] else t.slots
    ensures var h := Hash(t, x);
            Scanned(t', Larger(maximum, r.probes), Gathered(t, bounds, h, r.probes), seed, i + 1)
  {
    hide Pos;
    hide Visited;
    hide Pending;
    hide Reach;
    assert Formed(t');
    hide Good;
    var h := Hash(t, x);
    var m, bs := Larger(maximum, r.probes), Gathered(t, bounds, h, r.probes);
    VisitReaches(t, t', maximum, bounds, t.slots[x].key, r);
    forall y: nat | y < |t'.slots| && t'.slots[y].Entry?
      ensures Pending(|t'.slots|, seed, i + 1, y) || Reach(Lowered(t', m, bs), y)
    {
      if y != Target(r) {
        assert t'.slots[y] == t.slots[y] && y != x;
        if Pending(|t.slots|, seed, i, y) {
          PendingStep(|t.slots|, seed, i, y);
        } else {
          LoweredKeepsReach(t, t', maximum, bounds, m, bs, y);
        }
      }
    }
  }

  /** After a full scan the gathered bounds reach every entry. */
  lemma FullScan(t: Table, maximum: nat, bounds: seq<nat>, seed: nat)
    requires Good(t, None) && Scanned(t, maximum, bounds, seed, |t.slots|)
    ensures Good(Lowered(t, maximum, bounds), None) && Below(t, maximum, bounds)
  {
    hide Pos;
    hide Visited;
    hide Reach;
    forall y: nat | y < |t.slots| && t.slots[y].Entry? ensures Reach(Lowered(t, maximum, bounds), y) {
      assert !Pending(|t.slots|, seed, |t.slots|, y);
    }
  }

  /** Any table between the old bounds and the gathered ones is good. */
  lemma BetweenIsGood(t: Table, maximum: nat, bounds: seq<nat>, between: Table)
    requires Good(Lowered(t, maximum, bounds), None) && Formed(t)
    requires between == t.(maximum := between.maximum, bounds := between.bounds)
    requires maximum <= between.maximum && Below(t, between.maximum, between.bounds)
    requires |bounds| == |t.bounds| && forall o | 0 <= o < |bounds| :: bounds[o] <= between.bounds[o]
    ensures Good(between, None)
  {
    hide Pos;
    RaisedBoundsKeepGood(Lowered(t, maximum, bounds), between, None);
  }

  /** The lowered bounds are in place up to o. */
  ghost function Mixed(t: Table, maximum: nat, bounds: seq<nat>, o: nat): Table
    requires |bounds| == |t.bounds| && o <= |bounds|
  {
    t.(maximum := maximum, bounds := bounds[..o] + t.bounds[o..])
  }

  lemma MixedIsGood(t: Table, maximum: nat, bounds: seq<nat>, o: nat)
    requires Good(Lowered(t, maximum, bounds), None) && Formed(t) && Below(t, maximum, bounds) && o < |bounds|
    ensures Good(Mixed(t, maximum, bounds, o), None) && Good(Mixed(t, maximum, bounds, o + 1), None)
    ensures bounds[o] <= Mixed(t, maximum, bounds, o).limit && bounds[o] <= WORD_MAX
  {
    hide Pos;
    BetweenIsGood(t, maximum, bounds, Mixed(t, maximum, bounds, o));
    BetweenIsGood(t, maximum, bounds, Mixed(t, maximum, bounds, o + 1));
  }

  lemma MixedStep(t: Table, maximum: nat, bounds: seq<nat>, o: nat)
    requires |bounds| == |t.bounds| && o < |bounds|
    ensures var u := Mixed(t, maximum, bounds, o);
            |u.bounds| == |bounds| && Mixed(t, maximum, bounds, o + 1) == u.(bounds := u.bounds[o := bounds[o]])
  {
    assert bounds[..o + 1] + t.bounds[o + 1..] == (bounds[..o] + t.bounds[o..])[o := bounds[o]];
  }

  lemma MixedEnds(t: Table, maximum: nat, bounds: seq<nat>)
    requires |bounds| == |t.bounds|
    ensures Mixed(t, maximum, bounds, |bounds|) == Lowered(t, maximum, bounds)
  {
    assert bounds[..|bounds|] + t.bounds[|bounds|..] == bounds;
  }
}
