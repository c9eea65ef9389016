/** `struct ck_hs_map` in place, with every store to a published map checked against what
    concurrent readers rely on. */
module HsMap {
  import opened Wrappers
  import opened MapSizes
  import opened HashKeys
  import opened HsTable
  import opened HsStores

  /** `enum ck_hs_probe_behavior`: CK_HS_PROBE, CK_HS_PROBE_TOMBSTONE and CK_HS_PROBE_INSERT. */
  datatype Behavior = Default | ShortCircuit | Insert

  /** The results of ck_hs_map_probe: the cursor, `*priority`, `*object` and `*n_probes`. */
  datatype Probed = Probed(slot: Option<nat>, first: Option<nat>, found: Option<Key>, probes: nat)

  // ----- what a probe finds

  ghost predicate Skipped(t: Table, key: Key, m: nat)
    requires Shape(|t.slots|)
  {
    var slot := At(t, t.cb.hf(key), m);
    slot == Tombstone || (slot.Entry? && !Same(t.cb, slot.key, key))
  }

  ghost predicate Passed(t: Table, key: Key, n: nat)
    requires Shape(|t.slots|)
  {
    forall m: nat | m < n :: Skipped(t, key, m)
  }

  ghost predicate NoTombstoneBefore(t: Table, h: nat, n: nat)
    requires Shape(|t.slots|)
  {
    forall m: nat | m < n :: At(t, h, m) != Tombstone
  }

  /** `first` is the first tombstone among the first n positions, and `probes` counts up to it. */
  ghost predicate FirstIn(t: Table, h: nat, n: nat, first: Option<nat>, probes: nat)
    requires Shape(|t.slots|)
  {
    if first.None? then NoTombstoneBefore(t, h, n)
    else
      && 1 <= probes <= n && Pos(|t.slots|, h, probes - 1) == first.value
      && At(t, h, probes - 1) == Tombstone && NoTombstoneBefore(t, h, probes - 1)
  }

  ghost predicate EndedOn(t: Table, key: Key, behavior: Behavior, slot: Slot, r: Probed, at: nat)
    requires Shape(|t.slots|)
  {
    var h := t.cb.hf(key);
    match slot
    case Empty => r.found == None && FirstIn(t, h, at, r.first, r.probes)
    case Tombstone =>
      && behavior.ShortCircuit? && r.found == None && r.first == r.slot
      && r.probes == at + 1 && NoTombstoneBefore(t, h, at)
    case Entry(k) => r.found == Some(k) && Same(t.cb, k, key) && FirstIn(t, h, at, r.first, r.probes)
  }

  /** The probe ended at position `at`: out of bounds, on an empty slot, on a match, or on the
      tombstone that was asked for. */
  ghost predicate Ended(t: Table, key: Key, behavior: Behavior, limit: nat, r: Probed, at: nat)
    requires Formed(t)
  {
    var h := t.cb.hf(key);
    && Passed(t, key, at) && at <= limit
    && (r.slot.None? ==>
          && r.found == None && FirstIn(t, h, at, r.first, r.probes)
          && (at == limit || (behavior.Insert? && r.first.Some? && at == Bound(t, h))))
    && (r.slot.Some? ==>
          && at < limit && r.slot.value == Pos(|t.slots|, h, at)
          && EndedOn(t, key, behavior, At(t, h, at), r, at))
    && (r.first.None? ==> r.probes == at + 1)
  }

  lemma PassedIsNotEmpty(t: Table, key: Key, n: nat, at: nat)
    requires Shape(|t.slots|) && Passed(t, key, at) && n <= at
    ensures NoEmptyBefore(t, t.cb.hf(key), n)
  {
    hide Pos;
    forall m: nat | m < n ensures At(t, t.cb.hf(key), m) != Empty {
      assert Skipped(t, key, m);
    }
  }

  /** A probe that gets as far as the bound, or to an empty slot, proves the key absent. */
  lemma PassedIsAbsent(t: Table, key: Key, at: nat)
    requires Good(t, None) && Passed(t, key, at)
    requires Bound(t, t.cb.hf(key)) <= at || At(t, t.cb.hf(key), at) == Empty
    ensures !Has(t, key)
  {
    hide Pos;
    forall i: nat ensures !Holds(t, i, key) {
      if i < |t.slots| && t.slots[i].Entry? {
        SameIsSameClass(t.cb, t.slots[i].key, key);
        assert Reach(t, i);
        var n: nat :| ReachAt(t, i, n);
        assert Same(t.cb, t.slots[i].key, key) ==> n < at;
        assert n < at ==> Skipped(t, key, n);
      }
    }
  }

  function Target(r: Probed): nat
    requires r.first.Some? || r.slot.Some?
  {
    if r.first.Some? then r.first.value else r.slot.value
  }

  /** The probe has found a covered place for the key, at position n: the first tombstone, an empty
      slot, or an equivalent entry. */
  ghost predicate Ready(t: Table, r: Probed, key: Key, n: nat) {
    && Good(t, None) && Distinct(t) && (r.first.Some? || r.slot.Some?) && FitsAt(t, key, Target(r), n)
    && (r.first.Some? ==> r.first.value < |t.slots| && t.slots[r.first.value] == Tombstone)
    && (r.slot.Some? ==> r.slot.value < |t.slots|)
    && (r.found.Some? ==> r.slot.Some? && t.slots[r.slot.value] == Entry(r.found.value) && Holds(t, r.slot.value, key))
    && (r.found.None? ==> !Has(t, key))
    && (r.first.None? && r.found.None? ==> t.slots[r.slot.value] == Empty)
  }

  /** The slots after the stores that put, set and fas share. */
  function Installed(slots: seq<Slot>, r: Probed, key: Key): seq<Slot>
    requires (r.first.Some? || r.slot.Some?) && Target(r) < |slots| && (r.slot.Some? ==> r.slot.value < |slots|)
  {
    if r.first.Some? && r.found.Some? && r.slot.Some? then slots[Target(r) := Entry(key)][r.slot.value := Tombstone]
    else slots[Target(r) := Entry(key)]
  }

  // ----- raising bounds

  /** The effect of `ck_hs_map_bound_set`. */
  ghost function Raised(t: Table, h: nat, n: nat): Table
    requires Formed(t)
  {
    var o := Home(|t.slots|, h);
    t.(maximum := if n > t.maximum then n else t.maximum,
       bounds := if |t.bounds| > 0 && t.bounds[o] < n then t.bounds[o := Capped(n)] else t.bounds)
  }

  lemma RaisedCovers(t: Table, h: nat, n: nat, doomed: Option<nat>)
    requires Good(t, doomed) && 1 <= n <= t.limit
    ensures Good(Raised(t, h, n), doomed) && Covered(Raised(t, h, n), h, n - 1)
  {
    hide Pos;
    RaisedBoundsKeepGood(t, Raised(t, h, n), doomed);
  }

  // ----- the log of a published map

  ghost predicate LegalLog(log: seq<Snapshot>) {
    forall i: nat | i + 1 < |log| :: Legal(log[i], log[i + 1])
  }

  lemma LogGrows(log: seq<Snapshot>, s: Snapshot)
    requires |log| > 0 && LegalLog(log) && Legal(log[|log| - 1], s)
    ensures LegalLog(log + [s])
  {
    hide Legal;
    var after := log + [s];
    forall i: nat | i + 1 < |after| ensures Legal(after[i], after[i + 1]) {
      if i + 1 < |log| { assert Legal(log[i], log[i + 1]); }
    }
  }

  class Map {
    const cb: Callbacks
    const capacity: nat
    const limit: nat
    const entries: array<Slot>
    const bounds: array<nat>
    const generation: array<nat>
    var maximum: nat
    var count: nat
    /** Readers can see the map. From then on `log` records its states. */
    ghost var published: bool
    ghost var doomed: Option<nat>
    ghost var log: seq<Snapshot>

    ghost function Repr(): set<object> {
      {this, entries, bounds, generation}
    }

    ghost function View(): Table
      reads Repr()
    {
      Table(cb, entries[..], bounds[..], maximum, limit, generation[..])
    }

    ghost predicate Tracks()
      reads Repr()
    {
      && bounds != generation && entries.Length == capacity && Formed(View())
      && (published ==> |log| > 0 && log[|log| - 1] == Snapshot(View(), doomed) && LegalLog(log))
    }

    /** A cleared map: ck_hs_map_create after a successful malloc. */
    constructor (cb: Callbacks, capacity: nat, limit: nat, deletes: bool)
      requires Shape(capacity)
      ensures Tracks() && fresh(Repr()) && !published && doomed == None && count == 0
      ensures View() == Table(cb, seq(capacity, _ => Empty), if deletes then seq(capacity, _ => 0) else [],
                              0, limit, [0, 0])
    {
      this.cb, this.capacity, this.limit := cb, capacity, limit;
      entries := new Slot[capacity](_ => Empty);
      bounds := new nat[if deletes then capacity else 0](_ => 0);
      generation := new nat[2](_ => 0);
      maximum, count := 0, 0;
      published, doomed, log := false, None, [];
      new;
      assert entries[..] == seq(capacity, _ => Empty);
      assert bounds[..] == if deletes then seq(capacity, _ => 0) else [];
      assert generation[..] == [0, 0];
    }

    // ----- the shared stores

    method StoreMaximum(n: nat)
      requires Tracks() && n <= limit
      requires published ==> Good(View(), doomed) && Good(View().(maximum := n), doomed)
      modifies this`maximum, this`log
      ensures Tracks() && old(log) <= log && View() == old(View()).(maximum := n)
    {
      hide Good;
      maximum := n;
      if published {
        assert StoresMaximum(old(Snapshot(View(), doomed)), Snapshot(View(), doomed), n);
        LogGrows(log, Snapshot(View(), doomed));
        log := log + [Snapshot(View(), doomed)];
      }
    }

    method StoreBound(o: nat, n: nat)
      requires Tracks() && o < bounds.Length && n <= limit && n <= WORD_MAX
      requires published ==> Good(View(), doomed) && Good(View().(bounds := View().bounds[o := n]), doomed)
      modifies bounds, this`log
      ensures Tracks() && old(log) <= log && View() == old(View()).(bounds := old(View()).bounds[o := n])
    {
      hide Good;
      bounds[o] := n;
      if published {
        assert StoresBound(old(Snapshot(View(), doomed)), Snapshot(View(), doomed), o, n);
        LogGrows(log, Snapshot(View(), doomed));
        log := log + [Snapshot(View(), doomed)];
      }
    }

    method StoreEntry(i: nat, key: Key)
      requires Tracks() && i < capacity
      requires published ==> Good(View(), doomed) && Good(View().(slots := View().slots[i := Entry(key)]), doomed)
      requires published ==> doomed == None && (entries[i].Entry? ==> Holds(View(), i, key))
      modifies entries, this`log
      ensures Tracks() && old(log) <= log && View() == old(View()).(slots := old(View()).slots[i := Entry(key)])
    {
      hide Good;
      entries[i] := Entry(key);
      if published {
        assert StoresEntry(old(Snapshot(View(), doomed)), Snapshot(View(), doomed), i, key);
        LogGrows(log, Snapshot(View(), doomed));
        log := log + [Snapshot(View(), doomed)];
      }
    }

    method StoreTombstone(i: nat)
      requires Tracks() && published && i < capacity && entries[i].Entry?
      requires Good(View(), doomed) && Good(View().(slots := View().slots[i := Tombstone]), None)
      requires doomed == Some(i) || (doomed == None && forall j: nat :: !Twin(View(), i, j))
      modifies entries, this`log, this`doomed
      ensures Tracks() && old(log) <= log && doomed == None
      ensures View() == old(View()).(slots := old(View()).slots[i := Tombstone])
    {
      hide Good;
      entries[i] := Tombstone;
      doomed := None;
      assert StoresTombstone(old(Snapshot(View(), doomed)), Snapshot(View(), doomed), i);
      LogGrows(log, Snapshot(View(), doomed));
      log := log + [Snapshot(View(), doomed)];
    }

    /** `ck_hs_map_signal`, for the sake of readers that look for the entry in slot i. */
    method Signal(h: nat, ghost i: nat, ghost j: nat)
      requires Tracks() && published && doomed == None && Good(View(), None)
      requires Twin(View(), i, j) && h == Hash(View(), i)
      modifies generation, this`log, this`doomed
      ensures Tracks() && old(log) <= log && doomed == Some(i) && Good(View(), doomed)
      ensures View() == old(View()).(gen := View().gen)
    {
      hide Pos;
      hide Good;
      var b := h % 2;
      generation[b] := generation[b] + 1;
      doomed := Some(i);
      assert View() == old(View()).(gen := old(View()).gen[b := old(View()).gen[b] + 1]);
      SignalKeepsGood(old(View()), View(), i, j);
      assert Signals(old(Snapshot(View(), doomed)), Snapshot(View(), doomed), i);
      LogGrows(log, Snapshot(View(), doomed));
      log := log + [Snapshot(View(), doomed)];
    }

    /** The map becomes the one that readers load, after the states in `past`. */
    ghost method Publish(past: seq<Snapshot>)
      requires Tracks() && doomed == None
      requires past == [] || (LegalLog(past) && Legal(past[|past| - 1], Snapshot(View(), None)))
      modifies this`published, this`log
      ensures Tracks() && published && log == past + [Snapshot(View(), None)]
    {
      hide Legal;
      if past != [] { LogGrows(past, Snapshot(View(), None)); }
      published := true;
      log := past + [Snapshot(View(), None)];
    }

    // ----- bounds

    /** `ck_hs_map_bound_get`. */
    method BoundGet(h: nat) returns (r: nat)
      requires Tracks()
      ensures r == Bound(View(), h)
    {
      r := WORD_MAX;
      if bounds.Length > 0 {
        r := bounds[Home(capacity, h)];
        if r == WORD_MAX {
          r := maximum;
        }
      } else {
        r := maximum;
      }
    }

    /** `ck_hs_map_bound_set`. */
    method BoundSet(h: nat, n: nat)
      requires Tracks() && 1 <= n <= limit
      requires published ==> Good(View(), doomed)
      modifies this`maximum, bounds, this`log
      ensures Tracks() && old(log) <= log && View() == Raised(old(View()), h, n)
    {
      var o := Home(capacity, h);
      if published { RaisedCovers(View(), h, n, doomed); }
      if n > maximum {
        if published { RaisedBoundsKeepGood(View(), View().(maximum := n), doomed); }
        StoreMaximum(n);
      }
      if bounds.Length > 0 && bounds[o] < n {
        var word := if n > WORD_MAX then WORD_MAX else n;
        StoreBound(o, word);
      }
    }

    // ----- ck_hs_map_probe

    method Probe(key: Key, h: nat, bound: nat, behavior: Behavior) returns (r: Probed, ghost at: nat)
      requires Tracks() && h == cb.hf(key)
      requires behavior.Insert? ==> Bound(View(), h) <= bound
      ensures Ended(View(), key, behavior, bound, r, at)
      ensures r.found.Some? ==> r.slot.Some? && Same(cb, r.found.value, key)
      ensures r.found.Some? ==> r.slot.value < capacity && entries[r.slot.value] == Entry(r.found.value)
    {
      hide Pos;
      hide Line;
      hide InLine;
      hide ProbeNext;
      ghost var t := View();
      LineStep(h, 0);
      var offset := Home(capacity, h);
      var first, n: nat := None, 0;
      var slot: Option<nat> := None;
      var k := Empty;
      var i, probes, limit: nat := 0, 0, bound;
      if behavior.Insert? {
        limit := BoundGet(h);
      }
      label search:
      while true
        invariant offset == Line(capacity, h, i) && probes == 8 * i <= limit
        invariant limit == bound || (behavior.Insert? && limit == Bound(t, h))
        invariant Passed(t, key, probes) && FirstIn(t, h, probes, first, n)
        decreases bound + 8 - probes
      {
        var j := 0;
        while j < 8
          invariant j <= 8 && probes == 8 * i + j <= limit
          invariant limit == bound || (behavior.Insert? && limit == Bound(t, h))
          invariant Passed(t, key, probes) && FirstIn(t, h, probes, first, n)
        {
          PosInLine(h, i, j);
          var cursor := InLine(capacity, offset, j);
          probes := probes + 1;
          at := probes - 1;
          if probes - 1 == limit {
            if limit == bound || first.Some? {
              break search;
            }
            limit := bound;
          }
          k := entries[cursor];
          slot := Some(cursor);
          if k == Empty {
            break search;
          }
          if k == Tombstone {
            if first.None? {
              first := Some(cursor);
              n := probes;
              if behavior.ShortCircuit? {
                k := Empty;
                break search;
              }
            }
          } else if Same(cb, k.key, key) {
            break search;
          }
          assert Skipped(t, key, probes - 1);
          j := j + 1;
        }
        LineStep(h, i);
        offset := ProbeNext(capacity, offset, h, i, probes);
        i := i + 1;
      }
      var found := None;
      if probes > limit {
        slot := None;
      } else {
        found := if k.Entry? then Some(k.key) else None;
      }
      if first.None? {
        n := probes;
      }
      r := Probed(slot, first, found, n);
    }

    lemma LineStep(h: nat, i: nat)
      requires Shape(capacity)
      ensures Line(capacity, h, 0) == Home(capacity, h)
      ensures Line(capacity, h, i + 1) == ProbeNext(capacity, Line(capacity, h, i), h, i, 8 * i + 8)
    {}

    lemma PosInLine(h: nat, i: nat, j: nat)
      requires Shape(capacity) && j < 8
      ensures Pos(capacity, h, 8 * i + j) == InLine(capacity, Line(capacity, h, i), j)
    {
      hide Line;
      hide InLine;
      assert (8 * i + j) / 8 == i && (8 * i + j) % 8 == j;
    }

    // ----- storing a key where a probe has found a place for it

    /** An entry is superseded in slot i by an equivalent key in the earlier slot f. */
    method Move(f: nat, i: nat, key: Key, h: nat, ghost n: nat)
      requires Tracks() && published && doomed == None && Good(View(), None) && Distinct(View())
      requires h == cb.hf(key) && FitsAt(View(), key, f, n) && Holds(View(), i, key)
      requires f < capacity && entries[f] == Tombstone
      modifies entries, generation, this`log, this`doomed
      ensures Tracks() && doomed == None && old(log) <= log && Good(View(), None) && Distinct(View())
      ensures View() == old(View()).(slots := View().slots, gen := View().gen)
      ensures View().slots == old(View()).slots[f := Entry(key)][i := Tombstone]
      ensures Keys(entries[..]) == old(Keys(entries[..])) - {old(entries[i].key)} + {key}
    {
      hide Pos;
      hide Good;
      hide Legal;
      hide FitsAt;
      ghost var t := View();
      EntryKeepsGood(t, t.(slots := t.slots[f := Entry(key)]), f, key, n);
      SameHash(t, i, key);
      StoreEntry(f, key);
      assert Twin(View(), i, f);
      Signal(h, i, f);
      TombstoneKeepsGood(View(), View().(slots := View().slots[i := Tombstone]), Some(i), i);
      StoreTombstone(i);
      MoveKeepsDistinct(t, View(), f, i, key);
    }

    /** The stores shared by put, set and fas: into the first tombstone if there is one, and then
        the equivalent entry found further on is buried; otherwise over the slot that was found. */
    method Install(r: Probed, key: Key, h: nat, ghost n: nat)
      requires Tracks() && published && doomed == None
      requires h == cb.hf(key) && Ready(View(), r, key, n)
      modifies entries, generation, this`log, this`doomed
      ensures Tracks() && doomed == None && old(log) <= log && Good(View(), None) && Distinct(View())
      ensures View() == old(View()).(slots := Installed(old(View()).slots, r, key), gen := View().gen)
      ensures r.first.None? || r.found.None? ==> View().gen == old(View()).gen
      ensures r.found.None? ==> Keys(entries[..]) == old(Keys(entries[..])) + {key} && key !in old(Keys(entries[..]))
      ensures r.found.Some? ==> Keys(entries[..]) == old(Keys(entries[..])) - {r.found.value} + {key}
    {
      hide Pos;
      hide Good;
      hide Legal;
      hide FitsAt;
      ghost var t := View();
      if r.first.Some? && r.found.Some? {
        Move(r.first.value, r.slot.value, key, h, n);
      } else {
        var i := Target(r);
        EntryKeepsGood(t, t.(slots := t.slots[i := Entry(key)]), i, key, n);
        StoreEntry(i, key);
        if r.found.Some? {
          ReplaceKeepsDistinct(t, View(), i, key);
        } else {
          AddKeepsDistinct(t, View(), i, key);
        }
      }
    }

    /** A new key goes into the EMPTY slot that ends its probe. */
    method StoreFresh(key: Key, h: nat, i: nat, probes: nat)
      requires Tracks() && !published && h == cb.hf(key) && 1 <= probes <= limit
      requires Good(View(), None) && Distinct(View()) && !Has(View(), key)
      requires i < capacity && entries[i] == Empty && i == Pos(capacity, h, probes - 1)
      requires NoEmptyBefore(View(), h, probes - 1)
      modifies entries, bounds, this`maximum, this`count, this`log
      ensures Tracks() && Good(View(), None) && Distinct(View()) && count == old(count) + 1
      ensures Keys(entries[..]) == old(Keys(entries[..])) + {key} && key !in old(Keys(entries[..]))
      ensures old(Unburied(View())) ==> Unburied(View())
    {
      hide Pos;
      hide Good;
      ghost var t := View();
      RaisedCovers(t, h, probes, None);
      RaisedFits(t, key, probes, i);
      ghost var u := Raised(t, h, probes);
      ghost var v := u.(slots := u.slots[i := Entry(key)]);
      EntryKeepsGood(u, v, i, key, probes - 1);
      AddKeepsDistinct(t, v, i, key);
      StoreEntry(i, key);
      count := count + 1;
      BoundSet(h, probes);
      assert View() == v;
    }

    /** The inner loops of ck_hs_grow: the first EMPTY slot within the probe limit takes the key. The map has to
        hold eight keys at least to have none. */
    method Rehash(key: Key, h: nat) returns (fits: bool)
      requires Tracks() && !published && h == cb.hf(key)
      requires Good(View(), None) && Distinct(View()) && !Has(View(), key)
      modifies entries, bounds, this`maximum, this`count, this`log
      ensures Tracks()
      ensures fits ==> Good(View(), None) && Distinct(View()) && count == old(count) + 1
      ensures fits ==> Keys(entries[..]) == old(Keys(entries[..])) + {key} && key !in old(Keys(entries[..]))
      ensures fits && old(Unburied(View())) ==> Unburied(View())
      ensures !fits && old(Unburied(View())) && 8 <= limit ==> |old(Keys(entries[..]))| >= 8
    {
      hide Pos;
      hide Line;
      hide InLine;
      hide ProbeNext;
      hide Good;
      ghost var t := View();
      LineStep(h, 0);
      var offset := Home(capacity, h);
      var i, probes, j: nat := 0, 0, 0;
      var cursor: nat := 0;
      while true
        invariant offset == Line(capacity, h, i) && probes == 8 * i <= limit
        invariant NoEmptyBefore(t, h, probes)
        modifies {}
        decreases limit + 8 - probes
      {
        j := 0;
        while j < 8
          invariant j <= 8 && probes == 8 * i + j <= limit
          invariant NoEmptyBefore(t, h, probes)
          modifies {}
        {
          PosInLine(h, i, j);
          cursor := InLine(capacity, offset, j);
          probes := probes + 1;
          assert At(t, h, probes - 1) == entries[cursor];
          if probes - 1 == limit || entries[cursor] == Empty {
            break;
          }
          j := j + 1;
        }
        if j < 8 {
          break;
        }
        LineStep(h, i);
        offset := ProbeNext(capacity, offset, h, i, probes);
        i := i + 1;
      }
      fits := probes <= limit;
      assert View() == t;
      if fits {
        StoreFresh(key, h, cursor, probes);
      } else if 8 <= limit && Unburied(t) {
        assert NoEmptyBefore(t, h, 8);
        FullLine(t, h);
      }
    }
  }

  lemma SameHash(t: Table, i: nat, key: Key)
    requires Good(t, None) && Holds(t, i, key)
    ensures Hash(t, i) == t.cb.hf(key)
  {
    SameIsSameClass(t.cb, t.slots[i].key, key);
  }

  /** After bound_set a position that no EMPTY slot precedes is a place for the key. */
  lemma RaisedFits(t: Table, key: Key, n: nat, i: nat)
    requires Good(t, None) && 1 <= n <= t.limit && NoEmptyBefore(t, t.cb.hf(key), n - 1)
    requires i == Pos(|t.slots|, t.cb.hf(key), n - 1)
    ensures Formed(Raised(t, t.cb.hf(key), n)) && FitsAt(Raised(t, t.cb.hf(key), n), key, i, n - 1)
  {
    hide Pos;
    var h := t.cb.hf(key);
    RaisedCovers(t, h, n, None);
    forall m: nat | m < n - 1 ensures At(Raised(t, h, n), h, m) != Empty {
      assert At(t, h, m) != Empty;
    }
  }

  // ----- what the writer concludes from a probe

  /** The bound, or the probe limit, has been searched. */
  ghost predicate Searched(t: Table, key: Key, behavior: Behavior, limit: nat)
    requires Formed(t)
  {
    !behavior.ShortCircuit? && Bound(t, t.cb.hf(key)) <= limit
  }

  lemma EndedAbsent(t: Table, key: Key, behavior: Behavior, limit: nat, r: Probed, at: nat)
    requires Good(t, None) && Ended(t, key, behavior, limit, r, at) && r.found.None?
    requires Searched(t, key, behavior, limit)
    ensures !Has(t, key)
  {
    hide Pos;
    PassedIsAbsent(t, key, at);
  }

  lemma EndedFound(t: Table, key: Key, behavior: Behavior, limit: nat, r: Probed, at: nat)
    requires Good(t, None) && Ended(t, key, behavior, limit, r, at) && r.found.Some?
    ensures r.slot.Some? && Holds(t, r.slot.value, key) && t.slots[r.slot.value] == Entry(r.found.value)
    ensures Same(t.cb, r.found.value, key)
  {
    hide Pos;
    SameIsSameClass(t.cb, r.found.value, key);
  }

  /** Where the probe found room, raising the bound makes a place for the key. */
  lemma EndedFits(t: Table, key: Key, behavior: Behavior, limit: nat, r: Probed, at: nat)
    requires Good(t, None) && Ended(t, key, behavior, limit, r, at) && limit <= t.limit
    requires r.first.Some? || r.slot.Some?
    ensures 1 <= r.probes <= t.limit
    ensures var u := Raised(t, t.cb.hf(key), r.probes);
            Good(u, None) && FitsAt(u, key, Target(r), r.probes - 1)
    ensures r.first.Some? ==> r.first.value < |t.slots| && t.slots[r.first.value] == Tombstone
    ensures r.slot.Some? ==> r.slot.value < |t.slots|
    ensures r.first.None? && r.found.None? ==> t.slots[r.slot.value] == Empty
  {
    hide Pos;
    var h := t.cb.hf(key);
    PassedIsNotEmpty(t, key, r.probes - 1, at);
    RaisedFits(t, key, r.probes, Target(r));
    RaisedCovers(t, h, r.probes, None);
  }

  /** Within the bound nothing needs raising: the place is covered already. */
  lemma FoundFits(t: Table, key: Key, limit: nat, r: Probed, at: nat)
    requires Good(t, None) && Distinct(t) && Ended(t, key, Default, limit, r, at) && r.found.Some?
    ensures 1 <= r.probes && Ready(t, r, key, r.probes - 1)
    ensures Has(t, key) && r.found.value in Keys(t.slots) && Same(t.cb, r.found.value, key)
    ensures |Keys(t.slots) - {r.found.value} + {key}| == |Keys(t.slots)|
  {
    hide Pos;
    EndedFound(t, key, Default, limit, r, at);
    ReplacementKeepsSize(t, r.slot.value, key);
    var i, h := r.slot.value, t.cb.hf(key);
    SameHash(t, i, key);
    assert Reach(t, i);
    var n: nat :| ReachAt(t, i, n);
    assert n < at ==> Skipped(t, key, n);
    PassedIsNotEmpty(t, key, r.probes - 1, at);
  }
}
