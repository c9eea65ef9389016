/** Where put and set of ck_hs.c find room, and where a new object goes. */
module HsRoom {
  import opened Wrappers
  import opened MapSizes
  import opened HashKeys
  import opened HsTable
  import opened HsStores
  import opened HsMap
  import opened HsPlaces

  /** Position n has no entry, or an equivalent one. */
  predicate RoomAt(t: Table, key: Key, n: nat)
    requires Shape(|t.slots|)
  {
    var slot := At(t, t.cb.hf(key), n);
    !slot.Entry? || Same(t.cb, slot.key, key)
  }

  /** Within the probe limit there is room for the key. */
  ghost predicate HasRoom(t: Table, key: Key)
    requires Shape(|t.slots|)
  {
    exists n: nat :: n < t.limit && RoomAt(t, key, n)
  }

  /** Position n is the first without an entry on the probe sequence of h. */
  ghost predicate IsFirstFree(t: Table, h: nat, n: nat)
    requires Shape(|t.slots|)
  {
    !At(t, h, n).Entry? && forall m: nat | m < n :: At(t, h, m).Entry?
  }

  /** The key has been put at the first free position, and the bounds reach it. */
  ghost predicate IsPut(t: Table, u: Table, key: Key)
    requires Formed(t)
  {
    exists n: nat :: IsFirstFree(t, t.cb.hf(key), n) && IsPutAt(t, u, key, n)
  }

  ghost predicate IsPutAt(t: Table, u: Table, key: Key, n: nat)
    requires Formed(t)
  {
    u == Raised(t, t.cb.hf(key), n + 1).(slots := t.slots[Pos(|t.slots|, t.cb.hf(key), n) := Entry(key)])
  }

  /** A probe that comes back with nothing has found no room. */
  lemma NothingMeansNoRoom(t: Table, key: Key, behavior: Behavior, r: Probed, at: nat)
    requires Formed(t) && Ended(t, key, behavior, t.limit, r, at) && r.slot.None? && r.first.None?
    ensures !HasRoom(t, key)
  {
    hide Pos;
    forall n: nat | n < t.limit ensures !RoomAt(t, key, n) {
      assert Skipped(t, key, n) && At(t, t.cb.hf(key), n) != Tombstone;
    }
  }

  /** A key that is there has room. */
  lemma PresentHasRoom(t: Table, key: Key)
    requires Good(t, None) && Has(t, key)
    ensures HasRoom(t, key)
  {
    hide Pos;
    var n := FindableTwin(t, None, key);
    SameIsSameClass(t.cb, At(t, t.cb.hf(key), n).key, key);
    assert RoomAt(t, key, n);
  }

  /** For an absent key the probe stops at the first position without an entry. */
  lemma FindsFirstFree(t: Table, key: Key, behavior: Behavior, r: Probed, at: nat)
    requires Formed(t) && Ended(t, key, behavior, t.limit, r, at) && r.found.None?
    requires r.first.Some? || r.slot.Some?
    ensures 1 <= r.probes && IsFirstFree(t, t.cb.hf(key), r.probes - 1)
    ensures Target(r) == Pos(|t.slots|, t.cb.hf(key), r.probes - 1)
  {
    hide Pos;
    var h := t.cb.hf(key);
    forall m: nat | m < r.probes - 1 ensures At(t, h, m).Entry? {
      assert Skipped(t, key, m) && At(t, h, m) != Tombstone;
    }
  }

  /** Bound and store put the absent key there. */
  lemma StoresPut(t: Table, key: Key, behavior: Behavior, r: Probed, at: nat)
    requires Formed(t) && Ended(t, key, behavior, t.limit, r, at) && r.found.None? && (r.first.Some? || r.slot.Some?)
    ensures Target(r) < |t.slots| && (r.slot.Some? ==> r.slot.value < |t.slots|)
    ensures IsPut(t, Raised(t, t.cb.hf(key), r.probes).(slots := Installed(t.slots, r, key)), key)
  {
    hide Pos;
    FindsFirstFree(t, key, behavior, r, at);
    var u := Raised(t, t.cb.hf(key), r.probes).(slots := Installed(t.slots, r, key));
    hide Ended;
    hide IsFirstFree;
    assert IsPutAt(t, u, key, r.probes - 1);
  }

  /** An object that replaces its equivalent takes an earlier tombstone if there is one. */
  lemma InstalledIsFirst(t: Table, key: Key, behavior: Behavior, limit: nat, r: Probed, at: nat)
    requires Formed(t) && Ended(t, key, behavior, limit, r, at) && r.found.Some? && r.slot.Some?
    ensures Target(r) < |t.slots| && r.slot.value < |t.slots|
    ensures !IsBehindTombstone(t.cb, Installed(t.slots, r, key), key)
  {
    hide Pos;
    var h, after := t.cb.hf(key), Installed(t.slots, r, key);
    assert forall m: nat :: At(t, h, m) == SlotAt(t.slots, h, m);
    var n := if r.first.Some? then r.probes - 1 else at;
    assert SlotAt(after, h, n) == Entry(key);
    var p := FirstPlace(t.cb, after, key, n);
    PlaceIs(t.cb, after, key, p);
    forall m: nat | m < p ensures SlotAt(after, h, m) != Tombstone {
      assert Skipped(t, key, m) && At(t, h, m) != Tombstone;
      assert Pos(|t.slots|, h, m) != r.slot.value;
    }
  }
}
