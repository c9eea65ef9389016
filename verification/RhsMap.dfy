/** `struct ck_rhs_map` in the build without pointer packing, and the displacing insertion of
    ck_rhs_grow. The fields `wanted` and `in_rh` are not part of it. */
module RhsMap {
  import opened Wrappers
  import opened MapSizes
  import opened HashKeys
  import opened RhsProbe

  /** `bounds` is empty in a read-mostly map. */
  datatype Table = Table(
    cb: Callbacks,
    group: nat,
    entries: seq<Option<Key>>,
    probes: seq<nat>,
    bounds: seq<nat>,
    maximum: nat,
    limit: nat)

  ghost predicate Formed(t: Table) {
    && Shape(|t.entries|) && (t.group == 4 || t.group == 8) && Grouped(|t.entries|, t.group)
    && |t.probes| == |t.entries| && (|t.bounds| == 0 || |t.bounds| == |t.entries|)
    && (forall i | 0 <= i < |t.probes| :: t.probes[i] <= t.limit)
    && (forall o | 0 <= o < |t.bounds| :: t.bounds[o] <= WORD_MAX)
  }

  function SlotOf(t: Table, h: nat, p: nat): (i: nat)
    requires Grouped(|t.entries|, t.group) && 1 <= p
    ensures i < |t.entries|
  {
    PosInRange(|t.entries|, t.group, h, p);
    Pos(|t.entries|, t.group, h, p)
  }

  ghost predicate NoEmptyBefore(t: Table, h: nat, p: nat)
    requires Grouped(|t.entries|, t.group)
  {
    forall q: nat | 1 <= q < p :: t.entries[SlotOf(t, h, q)].Some?
  }

  /** A lookup of h makes p probes, whichever of the two bounds it uses. */
  ghost predicate Covered(t: Table, h: nat, p: nat)
    requires Formed(t)
  {
    p <= t.maximum && (|t.bounds| > 0 ==> Capped(p) <= t.bounds[h % |t.entries|])
  }

  /** The recorded number of probes leads from the entry's home to its slot. */
  ghost predicate Placed(t: Table, i: nat)
    requires Formed(t) && i < |t.entries| && t.entries[i].Some?
  {
    var h, p := t.cb.hf(t.entries[i].value), t.probes[i];
    1 <= p && SlotOf(t, h, p) == i && Covered(t, h, p) && NoEmptyBefore(t, h, p)
  }

  ghost predicate Good(t: Table) {
    && Formed(t) && Proper(t.cb)
    && forall i: nat | i < |t.entries| && t.entries[i].Some? :: Placed(t, i)
  }

  /** Each of the first p - 1 slots of the probe sequence of h holds an entry that has made as many probes at least. */
  ghost predicate Outranked(t: Table, h: nat, p: nat)
    requires Formed(t)
  {
    forall q: nat | 1 <= q < p :: t.entries[SlotOf(t, h, q)].Some? && q <= t.probes[SlotOf(t, h, q)]
  }

  /** Robin Hood order: no entry stands in the way of one that has come further from its home. */
  ghost predicate Ordered(t: Table)
    requires Formed(t)
  {
    forall i: nat | i < |t.entries| && t.entries[i].Some? :: Outranked(t, t.cb.hf(t.entries[i].value), t.probes[i])
  }

  /** Some entry with home slot o has made so many probes that a bound of n is needed. */
  ghost predicate NeedsBound(t: Table, o: nat, n: nat)
    requires Formed(t)
  {
    exists i: nat :: i < |t.entries| && EntryNeeds(t, i, o, n)
  }

  ghost predicate EntryNeeds(t: Table, i: nat, o: nat, n: nat)
    requires Formed(t) && i < |t.entries|
  {
    t.entries[i].Some? && t.cb.hf(t.entries[i].value) % |t.entries| == o && n <= Capped(t.probes[i])
  }

  /** No bound is higher than some entry needs, or an object in hand, with hash h, that has made p probes. */
  ghost predicate Tight(t: Table, h: nat, p: nat)
    requires Formed(t)
  {
    && (t.maximum <= p || exists i: nat :: i < |t.entries| && t.entries[i].Some? && t.maximum <= t.probes[i])
    && forall o: nat | o < |t.bounds| ::
         t.bounds[o] == 0 || NeedsBound(t, o, t.bounds[o]) || (o == h % |t.entries| && t.bounds[o] <= Capped(p))
  }

  /** The stored objects, with multiplicity. */
  ghost function Bag(entries: seq<Option<Key>>): multiset<Option<Key>> {
    multiset(entries)[None := 0]
  }

  /** The effect of `ck_rhs_map_bound_set`. */
  ghost function Raised(t: Table, h: nat, n: nat): Table
    requires Formed(t)
  {
    var o := h % |t.entries|;
    t.(maximum := if n > t.maximum then n else t.maximum,
       bounds := if |t.bounds| > 0 && t.bounds[o] < n then t.bounds[o := Capped(n)] else t.bounds)
  }

  /** An object takes slot i, at the p-th position of its probe sequence. */
  ghost function Stored(t: Table, i: nat, key: Key, p: nat): Table
    requires Formed(t) && i < |t.entries|
  {
    Raised(t, t.cb.hf(key), p).(entries := t.entries[i := Some(key)], probes := t.probes[i := p])
  }

  /** More slots are filled, and the bounds are no lower. */
  ghost predicate Above(t': Table, t: Table) {
    && Formed(t) && Formed(t') && t'.group == t.group && t'.cb == t.cb && |t'.entries| == |t.entries|
    && (forall i | 0 <= i < |t.entries| :: t.entries[i].Some? ==> t'.entries[i].Some?)
    && t.maximum <= t'.maximum && |t'.bounds| == |t.bounds|
    && forall o | 0 <= o < |t.bounds| :: t.bounds[o] <= t'.bounds[o]
  }

  lemma AboveKeepsPath(t: Table, t': Table, h: nat, p: nat)
    requires Above(t', t) && NoEmptyBefore(t, h, p)
    ensures NoEmptyBefore(t', h, p)
    ensures Covered(t, h, p) ==> Covered(t', h, p)
  {
    hide Pos;
    forall q: nat | 1 <= q < p ensures t'.entries[SlotOf(t', h, q)].Some? {
      assert t.entries[SlotOf(t, h, q)].Some?;
      assert SlotOf(t', h, q) == SlotOf(t, h, q);
    }
  }

  lemma StoredIsAbove(t: Table, i: nat, key: Key, p: nat)
    requires Formed(t) && i < |t.entries| && p <= t.limit
    ensures Above(Stored(t, i, key, p), t)
    ensures Covered(Stored(t, i, key, p), t.cb.hf(key), p)
  {
    hide Pos;
  }

  lemma StoreKeepsGood(t: Table, i: nat, key: Key, p: nat)
    requires Good(t) && 1 <= p <= t.limit && SlotOf(t, t.cb.hf(key), p) == i && NoEmptyBefore(t, t.cb.hf(key), p)
    ensures Good(Stored(t, i, key, p))
    ensures var u := Stored(t, i, key, p);
            u.entries == t.entries[i := Some(key)] && u.probes == t.probes[i := p] && u.cb == t.cb && u.group == t.group
  {
    hide Pos;
    var t' := Stored(t, i, key, p);
    StoredIsAbove(t, i, key, p);
    AboveKeepsPath(t, t', t.cb.hf(key), p);
    assert Placed(t', i);
    forall j: nat | j < |t'.entries| && t'.entries[j].Some? && j != i ensures Placed(t', j) {
      assert Placed(t, j);
      AboveKeepsPath(t, t', t.cb.hf(t.entries[j].value), t.probes[j]);
    }
  }

  lemma StoreKeepsRank(t: Table, i: nat, key: Key, p: nat, h: nat, q: nat)
    requires Formed(t) && i < |t.entries| && p <= t.limit && (t.entries[i].Some? ==> t.probes[i] < p)
    requires Outranked(t, h, q)
    ensures Formed(Stored(t, i, key, p)) && Outranked(Stored(t, i, key, p), h, q)
  {
    hide Pos;
    StoredIsAbove(t, i, key, p);
    var t' := Stored(t, i, key, p);
    forall r: nat | 1 <= r < q ensures t'.entries[SlotOf(t', h, r)].Some? && r <= t'.probes[SlotOf(t', h, r)] {
      assert t.entries[SlotOf(t, h, r)].Some? && r <= t.probes[SlotOf(t, h, r)];
      assert SlotOf(t', h, r) == SlotOf(t, h, r);
    }
  }

  /** An object takes an empty slot, or that of an entry with fewer probes, at a place where its own rank is kept: the
      order stays. */
  lemma StoreKeepsOrder(t: Table, i: nat, key: Key, p: nat)
    requires Formed(t) && Ordered(t) && i < |t.entries| && p <= t.limit && Outranked(t, t.cb.hf(key), p)
    requires t.entries[i].Some? ==> t.probes[i] < p
    ensures Formed(Stored(t, i, key, p)) && Ordered(Stored(t, i, key, p))
  {
    hide Pos;
    hide Outranked;
    var t' := Stored(t, i, key, p);
    StoreKeepsRank(t, i, key, p, t.cb.hf(key), p);
    forall j: nat | j < |t'.entries| && t'.entries[j].Some?
      ensures Outranked(t', t'.cb.hf(t'.entries[j].value), t'.probes[j])
    {
      if j != i { StoreKeepsRank(t, i, key, p, t.cb.hf(t.entries[j].value), t.probes[j]); }
    }
  }

  lemma StillNeeded(t: Table, i: nat, key: Key, p: nat, j: nat, o: nat, n: nat)
    requires Formed(t) && i < |t.entries| && p <= t.limit && j < |t.entries| && j != i && EntryNeeds(t, j, o, n)
    ensures Formed(Stored(t, i, key, p)) && NeedsBound(Stored(t, i, key, p), o, n)
  {
    StoredIsAbove(t, i, key, p);
    assert EntryNeeds(Stored(t, i, key, p), j, o, n);
  }

  /** An object is stored: what it needs is needed by its slot, and what an entry that it displaces had needed is
      needed by that one, now in hand. */
  lemma StoreKeepsTight(t: Table, i: nat, key: Key, p: nat, h': nat, p': nat)
    requires Formed(t) && i < |t.entries| && p <= t.limit && Tight(t, t.cb.hf(key), p)
    requires t.entries[i].Some? ==> h' == t.cb.hf(t.entries[i].value) && p' == t.probes[i]
    ensures Formed(Stored(t, i, key, p)) && Tight(Stored(t, i, key, p), h', p')
  {
    StoredIsAbove(t, i, key, p);
    var t', h := Stored(t, i, key, p), t.cb.hf(key);
    assert t'.entries[i].Some? && t'.probes[i] == p;
    if t.maximum > p && t'.maximum > p' {
      var j: nat :| j < |t.entries| && t.entries[j].Some? && t.maximum <= t.probes[j];
      assert t'.entries[j].Some? && t'.maximum <= t'.probes[j];
    }
    forall o: nat | o < |t'.bounds|
      ensures t'.bounds[o] == 0 || NeedsBound(t', o, t'.bounds[o])
           || (o == h' % |t'.entries| && t'.bounds[o] <= Capped(p'))
    {
      if o == h % |t.entries| && t'.bounds[o] <= Capped(p) {
        assert EntryNeeds(t', i, o, t'.bounds[o]);
      } else if t.bounds[o] != 0 {
        assert t'.bounds[o] == t.bounds[o];
        var j: nat :| j < |t.entries| && EntryNeeds(t, j, o, t.bounds[o]);
        if j != i { StillNeeded(t, i, key, p, j, o, t.bounds[o]); }
      }
    }
  }

  lemma TightGoesOn(t: Table, h: nat, p: nat, p': nat)
    requires Formed(t) && Tight(t, h, p) && p <= p'
    ensures Tight(t, h, p')
  {}

  /** In a tight and good map the bound of a home slot is exactly the capped largest number of probes of its entries. */
  lemma BoundIsExact(t: Table, o: nat)
    requires Good(t) && Formed(t) && Tight(t, 0, 0) && o < |t.bounds|
    ensures forall i: nat | i < |t.entries| && t.entries[i].Some? && t.cb.hf(t.entries[i].value) % |t.entries| == o ::
              Capped(t.probes[i]) <= t.bounds[o]
    ensures t.bounds[o] > 0 ==> exists i: nat ::
              && i < |t.entries| && t.entries[i].Some? && t.cb.hf(t.entries[i].value) % |t.entries| == o
              && Capped(t.probes[i]) == t.bounds[o]
  {
    hide Pos;
    forall i: nat | i < |t.entries| && t.entries[i].Some? && t.cb.hf(t.entries[i].value) % |t.entries| == o
      ensures Capped(t.probes[i]) <= t.bounds[o]
    {
      assert Placed(t, i);
    }
    if t.bounds[o] > 0 {
      var i: nat :| i < |t.entries| && EntryNeeds(t, i, o, t.bounds[o]);
      assert Capped(t.probes[i]) == t.bounds[o];
    }
  }

  lemma RankGoesOn(t: Table, h: nat, n: nat)
    requires Formed(t) && 1 <= n && Outranked(t, h, n)
    requires t.entries[SlotOf(t, h, n)].Some? && n <= t.probes[SlotOf(t, h, n)]
    ensures Outranked(t, h, n + 1)
  {
    hide Pos;
    forall q: nat | 1 <= q < n + 1 ensures t.entries[SlotOf(t, h, q)].Some? && q <= t.probes[SlotOf(t, h, q)] {
      if q < n { assert t.entries[SlotOf(t, h, q)].Some?; }
    }
  }

  lemma BagAfterStore(entries: seq<Option<Key>>, i: nat, key: Key)
    requires i < |entries|
    ensures Bag(entries[i := Some(key)])
         == Bag(entries) - (if entries[i].Some? then multiset{entries[i]} else multiset{}) + multiset{Some(key)}
  {
    assert multiset(entries[i := Some(key)]) == multiset(entries) - multiset{entries[i]} + multiset{Some(key)};
    assert entries[i] in entries;
  }

  lemma BagSwap(before: multiset<Option<Key>>, after: multiset<Option<Key>>, x: Option<Key>, y: Option<Key>)
    requires x in before && after == before - multiset{x} + multiset{y}
    ensures after + multiset{x} == before + multiset{y} && |after| == |before|
  {}

  lemma BagHas(entries: seq<Option<Key>>, i: nat)
    requires i < |entries| && entries[i].Some?
    ensures entries[i] in Bag(entries)
  {
    assert entries[i] in entries;
  }

  lemma BagOfPrefix(entries: seq<Option<Key>>, k: nat)
    requires k < |entries|
    ensures Bag(entries[..k + 1])
         == Bag(entries[..k]) + (if entries[k].Some? then multiset{entries[k]} else multiset{})
  {
    assert entries[..k + 1] == entries[..k] + [entries[k]];
  }

  /** Filled slots hold an object each. */
  lemma {:induction false} FilledSlots(entries: seq<Option<Key>>, slots: set<nat>)
    requires forall i | i in slots :: i < |entries| && entries[i].Some?
    ensures |slots| <= |Bag(entries)|
  {
    if entries == [] {
      assert slots == {};
    } else {
      var last := |entries| - 1;
      assert entries[..last + 1] == entries;
      BagOfPrefix(entries, last);
      hide Bag;
      FilledSlots(entries[..last], slots - {last});
    }
  }

  /** The first p probes, of two groups at most, are at p different slots. */
  lemma {:induction false} FirstSlots(t: Table, h: nat, p: nat) returns (slots: set<nat>)
    requires Formed(t) && p <= 8
    ensures |slots| == p && forall i | i in slots :: exists q: nat :: 1 <= q <= p && SlotOf(t, h, q) == i
  {
    hide Pos;
    slots := {};
    if p > 0 {
      var before := FirstSlots(t, h, p - 1);
      forall i | i in before ensures i != SlotOf(t, h, p) {
        var q: nat :| 1 <= q <= p - 1 && SlotOf(t, h, q) == i;
        FirstProbesDiffer(|t.entries|, t.group, h, q, p);
      }
      slots := before + {SlotOf(t, h, p)};
    }
  }

  /** Where the first eight positions are taken the map holds eight objects. */
  lemma EightObjects(t: Table, h: nat, p: nat)
    requires Formed(t) && NoEmptyBefore(t, h, p) && 8 < p
    ensures |Bag(t.entries)| >= 8
  {
    hide Pos;
    hide Bag;
    var slots := FirstSlots(t, h, 8);
    hide Formed;
    forall i | i in slots ensures i < |t.entries| && t.entries[i].Some? {
      var q: nat :| 1 <= q <= 8 && SlotOf(t, h, q) == i;
    }
    FilledSlots(t.entries, slots);
  }

  // ----- walking along a probe sequence

  lemma GoodIsFormed(t: Table)
    requires Good(t)
    ensures Formed(t)
  {}

  lemma FirstSlot(t: Table, h: nat)
    requires Good(t)
    ensures Formed(t) && SlotOf(t, h, 1) == h % |t.entries| && NoEmptyBefore(t, h, 1)
  {}

  lemma NextSlot(t: Table, h: nat, n: nat)
    requires Formed(t) && 1 <= n
    ensures NoEmptyBefore(t, h, n) && t.entries[SlotOf(t, h, n)].Some? ==> NoEmptyBefore(t, h, n + 1)
    ensures SlotOf(t, h, n + 1) == Next(|t.entries|, t.group, SlotOf(t, h, n), n)
  {
    PosUnfolds(|t.entries|, t.group, h, n);
  }

  lemma TightFirst(t: Table, h: nat)
    requires Formed(t) && Tight(t, 0, 0)
    ensures Tight(t, h, 1)
  {}

  lemma FirstIsRanked(t: Table, h: nat)
    requires Formed(t)
    ensures Outranked(t, h, 1)
  {}

  /** A displaced entry is back where its own probe sequence had led it. */
  lemma DisplacedGoesOn(t: Table, i: nat, key: Key, p: nat)
    requires Good(t) && Formed(t) && i < |t.entries| && t.entries[i].Some? && t.probes[i] < p <= t.limit
    ensures var h, made := t.cb.hf(t.entries[i].value), t.probes[i];
            && 1 <= made && SlotOf(t, h, made) == i && Formed(Stored(t, i, key, p))
            && SlotOf(Stored(t, i, key, p), h, made) == i && NoEmptyBefore(Stored(t, i, key, p), h, made)
    ensures Total(t.probes) < Total(t.probes[i := p]) <= t.limit * |t.entries|
  {
    hide Pos;
    assert Placed(t, i);
    StoredIsAbove(t, i, key, p);
    AboveKeepsPath(t, Stored(t, i, key, p), t.cb.hf(t.entries[i].value), t.probes[i]);
    TotalAfter(t.probes, i, p);
    TotalAtMost(t.probes[i := p], t.limit);
  }

  lemma DisplacedIsRanked(t: Table, i: nat, key: Key, p: nat)
    requires Formed(t) && Ordered(t) && i < |t.entries| && p <= t.limit && Outranked(t, t.cb.hf(key), p)
    requires t.entries[i].Some? && t.probes[i] < p
    ensures Formed(Stored(t, i, key, p)) && Ordered(Stored(t, i, key, p))
    ensures Outranked(Stored(t, i, key, p), t.cb.hf(t.entries[i].value), t.probes[i])
  {
    hide Pos;
    hide Outranked;
    StoreKeepsOrder(t, i, key, p);
    StoreKeepsRank(t, i, key, p, t.cb.hf(t.entries[i].value), t.probes[i]);
  }

  /** `ck_rhs_map_bound_get`. */
  function Bound(t: Table, h: nat): nat
    requires 0 < |t.entries| && (|t.bounds| == 0 || |t.bounds| == |t.entries|)
  {
    if |t.bounds| > 0 && t.bounds[h % |t.entries|] < WORD_MAX then t.bounds[h % |t.entries|] else t.maximum
  }

  /** The probes before the p-th met other objects only. */
  ghost predicate Missed(t: Table, key: Key, p: nat)
    requires Grouped(|t.entries|, t.group)
  {
    forall q: nat | 1 <= q < p :: MissedAt(t, key, q)
  }

  ghost predicate MissedAt(t: Table, key: Key, q: nat)
    requires Grouped(|t.entries|, t.group) && 1 <= q
  {
    var e := t.entries[SlotOf(t, t.cb.hf(key), q)];
    e.Some? && !Same(t.cb, e.value, key)
  }

  lemma MissedIsAbsent(t: Table, key: Key, p: nat)
    requires Good(t) && Formed(t) && 1 <= p && Missed(t, key, p)
    requires Bound(t, t.cb.hf(key)) < p || t.entries[SlotOf(t, t.cb.hf(key), p)].None?
    ensures forall k :: Some(k) in t.entries ==> !Same(t.cb, k, key)
  {
    hide Pos;
    forall k: Key | Some(k) in t.entries ensures !Same(t.cb, k, key) {
      var i: nat :| i < |t.entries| && t.entries[i] == Some(k);
      assert Placed(t, i);
      var n := t.probes[i];
      assert Same(t.cb, k, key) ==> n < p;
      assert n < p ==> MissedAt(t, key, n);
    }
  }

  // ----- the measure of the displacement loop

  /** All recorded probes together. */
  ghost function Total(probes: seq<nat>): nat {
    if probes == [] then 0 else Total(probes[..|probes| - 1]) + probes[|probes| - 1]
  }

  lemma {:induction false} TotalAfter(probes: seq<nat>, i: nat, p: nat)
    requires i < |probes|
    ensures Total(probes[i := p]) == Total(probes) - probes[i] + p
  {
    var after, last := probes[i := p], |probes| - 1;
    if i < last {
      assert after[..last] == probes[..last][i := p];
      TotalAfter(probes[..last], i, p);
    } else {
      assert after[..last] == probes[..last];
    }
  }

  lemma {:induction false} TotalAtMost(probes: seq<nat>, limit: nat)
    requires forall i | 0 <= i < |probes| :: probes[i] <= limit
    ensures Total(probes) <= limit * |probes|
  {
    if probes != [] {
      TotalAtMost(probes[..|probes| - 1], limit);
      assert limit * |probes| == limit * (|probes| - 1) + limit;
    }
  }

  class Map {
    const cb: Callbacks
    const group: nat
    const capacity: nat
    const limit: nat
    const entries: array<Option<Key>>
    const probes: array<nat>
    const bounds: array<nat>
    var maximum: nat
    var count: nat

    ghost function Repr(): set<object> {
      {this, entries, probes, bounds}
    }

    ghost function View(): Table
      reads Repr()
    {
      Table(cb, group, entries[..], probes[..], bounds[..], maximum, limit)
    }

    ghost predicate Valid()
      reads Repr()
    {
      && probes != bounds && entries.Length == capacity
      && Good(View()) && count == |Bag(entries[..])|
    }

    /** `ck_rhs_map_create` after a successful malloc. */
    constructor (cb: Callbacks, capacity: nat, limit: nat, readMostly: bool)
      requires Proper(cb) && Shape(capacity)
      ensures Valid() && fresh(Repr()) && Bag(entries[..]) == multiset{} && InOrder() && IsTight(0, 0)
      ensures this.cb == cb && this.capacity == capacity && this.limit == limit
    {
      hide Good;
      hide Formed;
      hide Ordered;
      hide Tight;
      hide Bag;
      this.cb, this.capacity, this.limit := cb, capacity, limit;
      group := if readMostly then 8 else 4;
      entries := new Option<Key>[capacity](_ => None);
      probes := new nat[capacity](_ => 0);
      bounds := new nat[if readMostly then 0 else capacity](_ => 0);
      maximum, count := 0, 0;
      new;
      assert entries[..] == seq(capacity, _ => None);
      EmptyIsNeat(View());
    }

    /** `ck_rhs_map_bound_set`. */
    method BoundSet(h: nat, n: nat)
      requires probes != bounds && entries.Length == capacity && Formed(View())
      modifies this`maximum, bounds
      ensures View() == Raised(old(View()), h, n)
    {
      hide Pos;
      var offset := h % capacity;
      if n > maximum {
        maximum := n;
      }
      if bounds.Length > 0 && bounds[offset] < n {
        bounds[offset] := if n > WORD_MAX then WORD_MAX else n;
      }
    }

    /** Stores an object into a slot, with its bound and number of probes. */
    method Store(i: nat, key: Key, h: nat, n: nat)
      requires probes != bounds && entries.Length == capacity && Formed(View())
      requires i < capacity && h == cb.hf(key) && n <= limit
      modifies entries, probes, bounds, this`maximum
      ensures View() == Stored(old(View()), i, key, n)
    {
      hide Pos;
      entries[i] := Some(key);
      BoundSet(h, n);
      probes[i] := n;
    }

    ghost predicate Sound()
      reads Repr()
    {
      probes != bounds && entries.Length == capacity && Formed(View()) && Good(View())
    }

    /** Slot i is the place for `key` after n probes. */
    ghost predicate Fits(i: nat, h: nat, n: nat)
      requires Sound()
      reads Repr()
    {
      1 <= n && SlotOf(View(), h, n) == i && NoEmptyBefore(View(), h, n)
    }

    ghost predicate InOrder()
      reads Repr()
    {
      Formed(View()) && Ordered(View())
    }

    ghost predicate IsTight(h: nat, p: nat)
      reads Repr()
    {
      Formed(View()) && Tight(View(), h, p)
    }

    /** Entries are in Robin Hood order, and no bound is higher than they need. */
    ghost predicate Neat()
      reads Repr()
    {
      InOrder() && IsTight(0, 0)
    }

    /** The map is in order, and an object with hash h keeps it at its n-th position. */
    ghost predicate Ranked(h: nat, n: nat)
      reads Repr()
    {
      InOrder() && Outranked(View(), h, n)
    }

    /** An object takes an empty slot. */
    method Fill(i: nat, key: Key, h: nat, n: nat)
      requires Sound() && count == |Bag(entries[..])|
      requires i < capacity && entries[i].None? && h == cb.hf(key) && n <= limit && Fits(i, h, n)
      modifies entries, probes, bounds, this`maximum, this`count
      ensures Valid() && Bag(entries[..]) == old(Bag(entries[..])) + multiset{Some(key)}
      ensures old(Ranked(h, n)) ==> InOrder()
      ensures old(IsTight(h, n)) ==> IsTight(0, 0)
    {
      hide Pos;
      hide Good;
      if IsTight(h, n) { StoreKeepsTight(View(), i, key, n, 0, 0); }
      hide Ordered;
      hide Outranked;
      hide Tight;
      if Ranked(h, n) { StoreKeepsOrder(View(), i, key, n); }
      StoreKeepsGood(View(), i, key, n);
      BagAfterStore(View().entries, i, key);
      hide Stored;
      Store(i, key, h, n);
      count := count + 1;
    }

    /** An object takes the slot of an entry that has made fewer probes. */
    method Displace(i: nat, key: Key, h: nat, n: nat) returns (previous: Key, made: nat)
      requires Sound() && i < capacity && entries[i].Some? && probes[i] < n
      requires h == cb.hf(key) && n <= limit && Fits(i, h, n)
      modifies entries, probes, bounds, this`maximum
      ensures Sound() && entries[i] == Some(key) && probes[i] == n && made < n
      ensures 1 <= made && Fits(i, cb.hf(previous), made) && |Bag(entries[..])| == old(|Bag(entries[..])|)
      ensures Bag(entries[..]) + multiset{Some(previous)} == old(Bag(entries[..])) + multiset{Some(key)}
      ensures old(Total(probes[..])) < Total(probes[..]) <= limit * capacity
      ensures old(Ranked(h, n)) ==> Ranked(cb.hf(previous), made)
      ensures old(IsTight(h, n)) ==> IsTight(cb.hf(previous), made)
    {
      hide Pos;
      hide Good;
      hide NoEmptyBefore;
      previous, made := entries[i].value, probes[i];
      if Ranked(h, n) { DisplacedIsRanked(View(), i, key, n); }
      if IsTight(h, n) { StoreKeepsTight(View(), i, key, n, cb.hf(previous), made); }
      hide Tight;
      hide Ordered;
      hide Outranked;
      StoreKeepsGood(View(), i, key, n);
      DisplacedGoesOn(View(), i, key, n);
      BagAfterStore(View().entries, i, key);
      BagHas(View().entries, i);
      hide Stored;
      hide Total;
      Store(i, key, h, n);
      BagSwap(old(Bag(entries[..])), Bag(entries[..]), Some(previous), Some(key));
    }

    /** The inner loop of ck_rhs_grow: the object in hand takes the first slot that is empty or whose
        entry has made fewer probes; an entry displaced this way is in hand next, and goes on from
        the same slot. The map has to hold eight objects at least to have no room. */
    method Insert(key: Key, h0: nat) returns (fits: bool)
      requires Valid() && h0 == cb.hf(key)
      modifies entries, probes, bounds, this`maximum, this`count
      ensures fits ==> Valid() && Bag(entries[..]) == old(Bag(entries[..])) + multiset{Some(key)}
      ensures probes != bounds && entries.Length == capacity
      ensures fits && old(InOrder()) ==> InOrder()
      ensures fits && old(IsTight(0, 0)) ==> IsTight(0, 0)
      ensures !fits ==> Formed(View()) && Crowded(old(Bag(entries[..])) + multiset{Some(key)})
      ensures !fits && 8 <= limit ==> |old(Bag(entries[..]))| >= 8
    {
      hide Pos;
      hide Good;
      hide Ordered;
      hide Outranked;
      hide NoEmptyBefore;
      hide Total;
      hide Bag;
      hide Next;
      FirstSlot(View(), h0);
      assert View().entries == entries[..];
      var saved, h, offset: nat, n: nat := key, h0, h0 % capacity, 0;
      assert Sound() && entries.Length == probes.Length == capacity && 1 <= group && Fits(offset, h, n + 1);
      ghost var ordered := InOrder();
      assert ordered ==> Ranked(h, n + 1) by { FirstIsRanked(View(), h); }
      ghost var tight := IsTight(0, 0);
      if tight { TightFirst(View(), h); }
      hide Sound;
      hide Fits;
      hide Ranked;
      hide Tight;
      ghost var all := Bag(entries[..]) + multiset{Some(key)};
      while true
        invariant Sound() && count == old(count) == |Bag(entries[..])| && h == cb.hf(saved)
        invariant n <= limit && offset < capacity && Fits(offset, h, n + 1) && (ordered ==> Ranked(h, n + 1))
        invariant tight ==> IsTight(h, n + 1)
        invariant Bag(entries[..]) + multiset{Some(saved)} == all
        decreases limit * capacity - Total(probes[..]), limit - n
      {
        n := n + 1;
        if n - 1 == limit {
          OutOfProbes(offset, saved, h, n, all);
          return false;
        }
        if entries[offset].None? {
          Fill(offset, saved, h, n);
          return true;
        } else if probes[offset] < n {
          var previous, made := Displace(offset, saved, h, n);
          saved, h, n := previous, cb.hf(previous), made - 1;
        } else {
          FitsNext(offset, h, n);
          if ordered { RankedNext(offset, h, n); }
          if tight { TightGoesOn(View(), h, n, n + 1); }
          offset := Next(capacity, group, offset, n);
        }
      }
    }

    /** Every slot that one of the objects may take within the limit is taken. */
    ghost predicate Crowded(objects: multiset<Option<Key>>)
      requires Formed(View())
      reads Repr()
    {
      exists k: Key :: Some(k) in objects && NoEmptyBefore(View(), cb.hf(k), limit + 1)
    }

    lemma OutOfProbes(i: nat, saved: Key, h: nat, n: nat, all: multiset<Option<Key>>)
      requires Sound() && n == limit + 1 && Fits(i, h, n) && h == cb.hf(saved)
      requires Bag(entries[..]) + multiset{Some(saved)} == all
      ensures Formed(View()) && Crowded(all) && (8 <= limit ==> |Bag(entries[..])| >= 8)
    {
      hide Pos;
      hide Good;
      hide Bag;
      assert Some(saved) in all;
      if 8 <= limit { EightObjects(View(), h, n); }
    }

    lemma RankedNext(i: nat, h: nat, n: nat)
      requires Sound() && i < capacity && entries[i].Some? && n <= probes[i] && Fits(i, h, n) && Ranked(h, n)
      ensures Ranked(h, n + 1)
    {
      hide Pos;
      hide Good;
      hide Ordered;
      RankGoesOn(View(), h, n);
    }

    lemma FitsNext(i: nat, h: nat, n: nat)
      requires Sound() && i < capacity && entries[i].Some? && Fits(i, h, n)
      ensures Next(capacity, group, i, n) < capacity && Fits(Next(capacity, group, i, n), h, n + 1)
    {
      hide Pos;
      hide Good;
      NextSlot(View(), h, n);
    }

    /** `ck_rhs_map_probe` as ck_rhs_get calls it: no Robin Hood, up to the bound. */
    method Probe(h: nat, key: Key, bound: nat) returns (found: Option<Key>)
      requires Valid() && h == cb.hf(key) && bound == Bound(View(), h)
      ensures found.Some? ==> Some(found.value) in entries[..] && Same(cb, found.value, key)
      ensures found.None? ==> forall k :: Some(k) in entries[..] ==> !Same(cb, k, key)
    {
      hide Pos;
      hide Good;
      ghost var t := View();
      GoodIsFormed(t);
      FirstSlot(t, h);
      var offset, n := h % capacity, 0;
      while true
        invariant n <= bound && offset == SlotOf(t, h, n + 1) && Missed(t, key, n + 1)
        decreases bound - n
      {
        n := n + 1;
        if n - 1 == bound || entries[offset].None? {
          MissedIsAbsent(t, key, n);
          return None;
        }
        if Same(cb, entries[offset].value, key) {
          return entries[offset];
        }
        NextSlot(t, h, n);
        offset := Next(capacity, group, offset, n);
      }
    }

    /** `ck_rhs_map_bound_get`. */
    method BoundGet(h: nat) returns (r: nat)
      requires Valid()
      ensures r == Bound(View(), h)
    {
      hide Pos;
      if bounds.Length == 0 {
        return maximum;
      }
      r := bounds[h % capacity];
      if r == WORD_MAX {
        r := maximum;
      }
    }
  }

  lemma EmptyIsNeat(t: Table)
    requires Shape(|t.entries|) && (t.group == 4 || t.group == 8) && Proper(t.cb) && t.maximum == 0
    requires t.entries == seq(|t.entries|, _ => None) && t.probes == seq(|t.entries|, _ => 0)
    requires |t.bounds| == 0 || |t.bounds| == |t.entries|
    requires forall o | 0 <= o < |t.bounds| :: t.bounds[o] == 0
    ensures Good(t) && Formed(t) && Ordered(t) && Tight(t, 0, 0) && Bag(t.entries) == multiset{}
  {
    GroupsFit(|t.entries|);
    hide Pos;
    assert forall x: Option<Key> :: x in t.entries ==> x == None;
    assert Bag(t.entries) == multiset{};
  }

  lemma GroupsFit(capacity: nat)
    requires Shape(capacity)
    ensures Grouped(capacity, 4) && Grouped(capacity, 8)
  {
    ShapeIsLines(capacity);
  }
}
