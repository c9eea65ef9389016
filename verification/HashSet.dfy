/** `struct ck_hs` with its writer's operations, in the build without pointer packing. */
module HashSet {
  import opened Bits
  import opened Wrappers
  import opened MapSizes
  import opened HashKeys
  import opened HsTable
  import opened HsStores
  import opened HsMap
  import opened HsCollect
  import opened HsPlaces
  import opened HsRoom

  lemma RaisedSame(t: Table, h: nat, n: nat, key: Key)
    requires Formed(t) && Distinct(t)
    ensures Distinct(Raised(t, h, n))
    ensures Has(Raised(t, h, n), key) <==> Has(t, key)
  {
    var u := Raised(t, h, n);
    forall x: nat, y: nat ensures !Twin(u, x, y) {
      assert !Twin(t, x, y);
    }
    SameKeysSameHas(t, u, key);
  }

  class HashSet {
    const cb: Callbacks
    /** CK_HS_MODE_DELETE. */
    const deletes: bool
    var current: Map
    /** What malloc will answer, call by call; after that it answers NULL. */
    var mallocs: seq<bool>
    /** How often malloc has answered NULL. */
    ghost var refusals: nat

    /** `ck_hs_init` with memory for the first map. */
    constructor (cb: Callbacks, deletes: bool, entries: nat, mallocs: seq<bool>)
      requires Proper(cb)
      ensures Valid() && fresh(Repr()) && this.cb == cb && this.deletes == deletes && Contents() == {}
      ensures current.capacity == MapCapacity(entries)
    {
      this.cb, this.deletes, this.mallocs, this.refusals := cb, deletes, mallocs, 0;
      var capacity := MapCapacity(entries);
      var map0 := new Map(cb, capacity, ProbeLimit(capacity), deletes);
      current := map0;
      new;
      assert Keys(map0.entries[..]) == {};
      assert forall i: nat, j: nat :: !Twin(map0.View(), i, j);
      map0.Publish([]);
    }

    ghost function Repr(): set<object>
      reads this
    {
      {this} + current.Repr()
    }

    ghost predicate Valid()
      reads this, current.Repr()
    {
      && current.cb == cb && current.Tracks() && current.published && current.doomed == None
      && Settled(current.View(), current.count) && current.capacity <= MAX_CAPACITY
    }

    /** The objects in the set. */
    ghost function Contents(): set<Key>
      reads this, current.Repr()
    {
      Keys(current.entries[..])
    }

    /** Some object in the set is equivalent to `key`. */
    ghost predicate Contains(key: Key)
      reads this, current.Repr()
    {
      Has(current.View(), key)
    }

    method Malloc() returns (granted: bool)
      modifies this`mallocs, this`refusals
      ensures refusals == old(refusals) + (if granted then 0 else 1) && |mallocs| <= |old(mallocs)|
      ensures granted == (|old(mallocs)| > 0 && old(mallocs)[0])
      ensures granted ==> |mallocs| < |old(mallocs)|
    {
      granted := |mallocs| > 0 && mallocs[0];
      mallocs := if |mallocs| > 0 then mallocs[1..] else [];
      refusals := refusals + if granted then 0 else 1;
    }

    /** `ck_hs_get` with no writer beside it. */
    method Get(h: nat, key: Key) returns (found: Option<Key>)
      requires Valid() && h == cb.hf(key)
      ensures found.Some? ==> found.value in Contents() && Same(cb, found.value, key)
      ensures found.None? ==> !Contains(key)
    {
      hide Pos;
      var bound := current.BoundGet(h);
      var r, at := current.Probe(key, h, bound, Default);
      found := r.found;
      if found.Some? {
        EndedFound(current.View(), key, Default, bound, r, at);
      } else {
        EndedAbsent(current.View(), key, Default, bound, r, at);
      }
    }

    /** `ck_hs_remove`. */
    method Remove(h: nat, key: Key) returns (found: Option<Key>)
      requires Valid() && h == cb.hf(key)
      modifies Repr()
      ensures Valid() && current == old(current) && old(current.log) <= current.log && mallocs == old(mallocs)
      ensures found.Some? ==> found.value in old(Contents()) && Same(cb, found.value, key)
                              && Contents() == old(Contents()) - {found.value}
      ensures found.None? ==> !old(Contains(key)) && Contents() == old(Contents())
    {
      hide Pos;
      hide Good;
      hide Ended;
      ghost var t := current.View();
      var bound := current.BoundGet(h);
      var r, at := current.Probe(key, h, bound, Default);
      found := r.found;
      if found.None? {
        EndedAbsent(t, key, Default, bound, r, at);
        return;
      }
      EndedFound(t, key, Default, bound, r, at);
      var i := r.slot.value;
      TombstoneKeepsGood(t, t.(slots := t.slots[i := Tombstone]), None, i);
      assert t.slots[i].key in Keys(t.slots);
      current.StoreTombstone(i);
      RemoveKeepsDistinct(t, current.View(), i);
      current.count := current.count - 1;
    }

    /** `ck_hs_fas`: replaces an equivalent object, if there is one. */
    method FetchAndStore(h: nat, key: Key) returns (r: bool, previous: Option<Key>)
      requires Valid() && h == cb.hf(key)
      modifies Repr()
      ensures Valid() && current == old(current) && old(current.log) <= current.log && mallocs == old(mallocs)
      ensures r == old(Contains(key)) == previous.Some?
      ensures r ==> previous.value in old(Contents()) && Same(cb, previous.value, key)
                    && Contents() == old(Contents()) - {previous.value} + {key}
      ensures r ==> Shape(|current.entries[..]|) && !IsBehindTombstone(cb, current.entries[..], key)
      ensures !r ==> current.View() == old(current.View())
    {
      hide Pos;
      hide Good;
      hide Ready;
      hide IsBehindTombstone;
      ghost var t := current.View();
      var bound := current.BoundGet(h);
      var p, at := current.Probe(key, h, bound, Default);
      if p.found.None? {
        EndedAbsent(t, key, Default, bound, p, at);
        return false, None;
      }
      FoundFits(t, key, bound, p, at);
      FoundSlot(t, key, Default, bound, p, at);
      hide Installed;
      current.Install(p, key, h, p.probes - 1);
      return true, p.found;
    }

    // ----- growing

    /** `ck_hs_grow`: a new map with the same objects, if malloc provides one with room for them. `k` is the
        number of maps that had no room; each of them doubled the capacity that is asked for. */
    method Grow(wanted: nat) returns (r: bool, ghost k: nat)
      requires Valid() && wanted < ULONGS
      modifies this
      ensures Valid() && fresh(Repr() - old(Repr())) && old(current.log) <= current.log
      ensures Contents() == old(Contents()) && |mallocs| + k <= |old(mallocs)|
      ensures r ==> |mallocs| < |old(mallocs)| && current.capacity == MapCapacity(Attempt(wanted, k))
      ensures r && (k == 0 || IsPow2(wanted) || wanted * Pow2(k) <= MAX_CAPACITY) ==>
                (wanted <= current.capacity <==> wanted <= MAX_CAPACITY)
      ensures !r ==> current == old(current)
      ensures if r || Attempt(wanted, k) < current.capacity then refusals == old(refusals) else refusals > old(refusals)
      ensures |old(Contents())| <= 8 && old(Grants()) && old(current.capacity) <= wanted ==> r && k == 0
    {
      hide Pos;
      hide Good;
      hide Settled;
      hide MapCapacity;
      hide Formed;
      hide Keys;
      hide Pow2;
      var capacity := wanted;
      k := 0;
      while true
        invariant current == old(current) && capacity == Attempt(wanted, k) < ULONGS
        invariant |mallocs| + k <= |old(mallocs)| && (k == 0 ==> mallocs == old(mallocs)) && refusals == old(refusals)
        invariant k > 0 ==> |Contents()| > 8
        decreases |mallocs|
      {
        if current.capacity > capacity {
          return false, k;
        }
        var granted := Malloc();
        if !granted {
          return false, k;
        }
        var n := MapCapacity(capacity);
        var update := new Map(cb, n, ProbeLimit(n), deletes);
        var fits := CopyInto(update);
        if fits {
          PublishGrown(update);
          ReachesWanted(wanted, k);
          return true, k;
        }
        capacity := capacity * 2 % ULONGS;
        k := k + 1;
      }
    }

    /** Malloc has answered NULL since it had done so `refused` times; or since it had `left` answers left it granted
        32 maps, and the capacity was shifted out of its word. */
    ghost predicate NoMemory(refused: nat, left: nat)
      reads this
    {
      refused < refusals || |mallocs| + 32 <= left
    }

    /** The growth that insertions ask for: twice the slots. */
    method Enlarge() returns (r: bool)
      requires Valid()
      modifies this
      ensures Valid() && fresh(Repr() - old(Repr())) && old(current.log) <= current.log
      ensures Contents() == old(Contents()) && |mallocs| <= |old(mallocs)| && old(refusals) <= refusals
      ensures r ==> |mallocs| < |old(mallocs)|
      ensures r ==> (2 * old(current.capacity) <= current.capacity <==> old(current.capacity) < MAX_CAPACITY)
      ensures r && old(current.capacity) == MAX_CAPACITY ==> |Contents()| <= 8
      ensures !r ==> current == old(current) && NoMemory(old(refusals), |old(mallocs)|)
    {
      hide Pos;
      hide Good;
      hide Settled;
      hide MapCapacity;
      hide Attempt;
      hide Keys;
      hide Pow2;
      ghost var capacity, k := current.capacity, 0;
      DoublePow2(capacity);
      if capacity < MAX_CAPACITY { BelowTop(capacity); }
      r, k := Grow(current.capacity * 2);
      if !r && Attempt(2 * capacity, k) < capacity { WrapsLate(capacity, k); }
      if r && capacity == MAX_CAPACITY {
        PastTheTop(k);
        KeysAtMost(current.entries[..]);
      }
    }

    /** Malloc will answer the next call with memory. */
    ghost predicate Grants()
      reads this
    {
      |mallocs| > 0 && mallocs[0]
    }

    /** More than eight objects are not in eight slots. */
    lemma ReachesWanted(wanted: nat, k: nat)
      requires Valid() && wanted < ULONGS && current.capacity == MapCapacity(Attempt(wanted, k))
      requires k > 0 ==> |Contents()| > 8
      ensures k == 0 || IsPow2(wanted) || wanted * Pow2(k) <= MAX_CAPACITY ==>
                (wanted <= current.capacity <==> wanted <= MAX_CAPACITY)
    {
      hide Pos;
      hide Good;
      hide Pow2;
      hide Keys;
      hide MapCapacity;
      KeysAtMost(current.entries[..]);
      if k == 0 || IsPow2(wanted) || wanted * Pow2(k) <= MAX_CAPACITY { RegularReaches(wanted, k); }
    }

    /** One slot of the old map. */
    method CopySlot(update: Map, k: nat) returns (fits: bool)
      requires Valid() && update.cb == cb && update.Tracks() && !update.published
      requires update !in Repr() && update.Repr() !! Repr() && k < current.capacity
      requires Settled(update.View(), update.count) && Keys(update.View().slots) == Keys(current.View().slots[..k])
      requires Unburied(update.View()) && 8 <= update.limit
      modifies update.Repr()
      ensures update.Tracks() && !update.published && update.doomed == old(update.doomed)
      ensures fits ==> Settled(update.View(), update.count)
      ensures fits ==> Keys(update.View().slots) == Keys(current.View().slots[..k + 1])
      ensures fits ==> Unburied(update.View())
      ensures !fits ==> |Contents()| > 8
    {
      hide Pos;
      hide Good;
      ghost var t, u := current.View(), update.View();
      var previous := current.entries[k];
      fits := true;
      KeysOfPrefix(t.slots, k);
      if previous.Entry? {
        NotInPrefix(t, update.View(), k);
        fits := update.Rehash(previous.key, cb.hf(previous.key));
        assert current.View() == t;
        if !fits { OneMoreKey(t, u, k); }
      }
    }

    /** The outer loop of one attempt of ck_hs_grow. */
    method CopyInto(update: Map) returns (fits: bool)
      requires Valid() && update.cb == cb && update.Tracks() && !update.published
      requires update !in Repr() && update.Repr() !! Repr()
      requires update.count == 0 && Cleared(update.View()) && 8 <= update.limit
      modifies update.Repr()
      ensures Valid() && Contents() == old(Contents()) && (!fits ==> |Contents()| > 8)
      ensures update.Tracks() && update.published == old(update.published) && update.doomed == old(update.doomed)
      ensures fits ==> Settled(update.View(), update.count) && Keys(update.entries[..]) == Contents()
    {
      hide Pos;
      hide Good;
      hide Formed;
      ghost var t := current.View();
      EmptyIsGood(t, update.View());
      assert Keys(t.slots[..0]) == {};
      assert Unburied(update.View());
      hide Settled;
      hide Distinct;
      hide Keys;
      hide Unburied;
      fits := true;
      var k := 0;
      while k < current.capacity && fits
        invariant k <= current.capacity && update.Tracks() && !update.published
        invariant update.doomed == old(update.doomed)
        invariant Valid() && current.View() == t
        invariant fits ==> Settled(update.View(), update.count) && Unburied(update.View())
        invariant if fits then Keys(update.View().slots) == Keys(t.slots[..k]) else |Contents()| > 8
        decreases current.capacity - k, fits
      {
        fits := CopySlot(update, k);
        assert current.View() == t;
        if fits {
          k := k + 1;
        }
      }
      assert t.slots[..current.capacity] == t.slots;
    }

    method PublishGrown(update: Map)
      requires Valid() && update.cb == cb && update.Tracks() && !update.published && update.doomed == None
      requires Settled(update.View(), update.count) && Keys(update.entries[..]) == Contents()
      requires update.capacity <= MAX_CAPACITY
      modifies this`current, update`published, update`log
      ensures Valid() && current == update && old(current.log) <= current.log
      ensures Contents() == old(Contents())
    {
      hide Pos;
      hide Good;
      ghost var t, u := current.View(), update.View();
      forall k ensures Has(t, k) <==> Has(u, k) {
        SameKeysSameHas(t, u, k);
      }
      update.Publish(current.log);
      current := update;
    }

    /** `ck_hs_map_postinsert`: past half of the capacity the map grows, if it can. */
    method PostInsert()
      requires current.cb == cb && current.Tracks() && current.published && current.doomed == None
      requires Settled(current.View(), current.count + 1) && current.capacity <= MAX_CAPACITY
      modifies this, current`count
      ensures Valid() && fresh(Repr() - old(Repr())) && old(current.log) <= current.log
      ensures Contents() == old(Contents()) && |mallocs| <= |old(mallocs)| && old(refusals) <= refusals
      ensures 2 * current.count <= current.capacity || NoMemory(old(refusals), |old(mallocs)|)
      ensures 2 * (old(current.count) + 1) <= old(current.capacity) ==>
                current == old(current) && mallocs == old(mallocs) && current.View() == old(current.View())
    {
      hide Pos;
      hide Good;
      current.count := current.count + 1;
      if current.count * 2 > current.capacity {
        KeysAtMost(current.entries[..]);
        hide Settled;
        hide Keys;
        var grown := Enlarge();
        SettledCount(current.View(), current.count);
      }
    }

    // ----- insertion

    /** The map and its table are these, and malloc has not been called. */
    ghost predicate Untouched(map0: Map, mallocs: seq<bool>, t: Table)
      reads this, current.Repr()
    {
      current == map0 && this.mallocs == mallocs && current.View() == t
    }

    /** The restart loop of put and set: the map grows until the probe finds the key or room for it. */
    method Locate(h: nat, key: Key, behavior: Behavior) returns (located: bool, r: Probed, ghost at: nat)
      requires Valid() && h == cb.hf(key) && !behavior.Default?
      modifies this
      ensures Valid() && fresh(Repr() - old(Repr())) && old(current.log) <= current.log
      ensures Contents() == old(Contents()) && |mallocs| <= |old(mallocs)| && old(refusals) <= refusals
      ensures located ==> Ended(current.View(), key, behavior, current.limit, r, at)
      ensures located ==> r.first.Some? || r.slot.Some?
      ensures !located ==> NoMemory(old(refusals), |old(mallocs)|)
      ensures old(HasRoom(current.View(), key)) ==>
                located && Untouched(old(current), old(mallocs), old(current.View()))
    {
      hide Pos;
      hide Good;
      hide Ended;
      hide Settled;
      hide HasRoom;
      while true
        invariant Valid() && fresh(Repr() - old(Repr())) && old(current.log) <= current.log
        invariant Contents() == old(Contents()) && |mallocs| <= |old(mallocs)| && old(refusals) <= refusals
        invariant old(HasRoom(current.View(), key)) ==> Untouched(old(current), old(mallocs), old(current.View()))
        decreases |mallocs|
      {
        SettledBounds(current.View(), current.count, h);
        r, at := current.Probe(key, h, current.limit, behavior);
        if r.slot.None? && r.first.None? {
          NothingMeansNoRoom(current.View(), key, behavior, r, at);
          var grown := Enlarge();
          if !grown {
            return false, r, at;
          }
        } else {
          return true, r, at;
        }
      }
    }

    /** Bound, store and, over an equivalent object, signal and bury. */
    method Store(h: nat, key: Key, behavior: Behavior, r: Probed, ghost at: nat)
      requires Valid() && h == cb.hf(key) && !behavior.Default?
      requires Ended(current.View(), key, behavior, current.limit, r, at) && (r.first.Some? || r.slot.Some?)
      requires behavior.ShortCircuit? && r.found.None? ==> !Contains(key)
      modifies Repr() - {this}
      ensures current.cb == cb && current.Tracks() && current.published && current.doomed == None
      ensures old(current.log) <= current.log
      ensures r.found.None? ==> !old(Contains(key)) && Settled(current.View(), current.count + 1)
      ensures r.found.None? ==> Contents() == old(Contents()) + {key}
      ensures r.found.Some? ==> old(Contains(key)) && Settled(current.View(), current.count)
      ensures r.found.Some? ==> r.found.value in old(Contents()) && Same(cb, r.found.value, key)
                                && Contents() == old(Contents()) - {r.found.value} + {key}
      ensures r.found.None? ==> IsPut(old(current.View()), current.View(), key)
      ensures r.found.Some? ==> Shape(|current.entries[..]|) && !IsBehindTombstone(cb, current.entries[..], key)
      ensures current.count == old(current.count)
    {
      hide Pos;
      hide Good;
      hide Ended;
      hide IsPut;
      hide Ready;
      hide Has;
      hide Keys;
      ghost var t := current.View();
      ReadyToStore(t, current.count, key, behavior, r, at);
      if r.found.None? {
        StoresPut(t, key, behavior, r, at);
      } else {
        FoundSlot(t, key, behavior, current.limit, r, at);
      }
      hide IsBehindTombstone;
      hide Installed;
      current.BoundSet(h, r.probes);
      assert current.View().slots == t.slots;
      current.Install(r, key, h, r.probes - 1);
    }

    /** How a new object has been added, where before the map was `map0` with table t, and malloc had these
        answers left. The map is no more than half full, unless there is no memory. If there was room for the
        object, and no need to grow afterwards, malloc has not been called, and the object is at the first free
        position. */
    ghost predicate IsAdded(map0: Map, mallocs: seq<bool>, refused: nat, t: Table, count: nat, key: Key)
      reads this, current.Repr()
    {
      && (2 * current.count <= current.capacity || NoMemory(refused, |mallocs|))
      && (Formed(t) && HasRoom(t, key) && 2 * (count + 1) <= |t.slots| ==>
            current == map0 && this.mallocs == mallocs && IsPut(t, current.View(), key))
    }

    lemma AddedSince(map0: Map, mallocs: seq<bool>, refused: nat, t: Table, count: nat, key: Key,
                     map1: Map, mallocs1: seq<bool>, refused1: nat, t1: Table, count1: nat)
      requires IsAdded(map1, mallocs1, refused1, t1, count1, key) && refused <= refused1 && |mallocs1| <= |mallocs|
      requires Formed(t) && HasRoom(t, key) ==> map1 == map0 && mallocs1 == mallocs && t1 == t && count1 == count
      ensures IsAdded(map0, mallocs, refused, t, count, key)
    {
      hide HasRoom;
      hide IsPut;
      hide Formed;
    }

    /** The end of put and set for a new object. */
    method Add(h: nat, key: Key, behavior: Behavior, p: Probed, ghost at: nat)
      requires Valid() && h == cb.hf(key) && !behavior.Default?
      requires Ended(current.View(), key, behavior, current.limit, p, at) && (p.first.Some? || p.slot.Some?)
      requires p.found.None? && (behavior.ShortCircuit? ==> !Contains(key))
      modifies Repr()
      ensures Valid() && fresh(Repr() - old(Repr())) && old(current.log) <= current.log
      ensures !old(Contains(key)) && Contents() == old(Contents()) + {key}
      ensures IsAdded(old(current), old(mallocs), old(refusals), old(current.View()), old(current.count), key)
    {
      hide Pos;
      hide Good;
      hide Ended;
      hide Settled;
      hide Keys;
      hide Has;
      hide HasRoom;
      hide IsPut;
      Store(h, key, behavior, p, at);
      PostInsert();
    }

    /** `ck_hs_put_internal`. */
    method PutInternal(h: nat, key: Key, behavior: Behavior) returns (r: bool)
      requires Valid() && h == cb.hf(key) && !behavior.Default?
      requires behavior.ShortCircuit? ==> !Contains(key)
      modifies Repr()
      ensures Valid() && fresh(Repr() - old(Repr())) && old(current.log) <= current.log
      ensures r ==> !old(Contains(key)) && Contents() == old(Contents()) + {key}
      ensures !r ==> Contents() == old(Contents()) && (old(Contains(key)) || NoMemory(old(refusals), |old(mallocs)|))
      ensures old(Contains(key)) ==> Untouched(old(current), old(mallocs), old(current.View()))
      ensures old(HasRoom(current.View(), key)) ==> r == !old(Contains(key))
      ensures r ==> IsAdded(old(current), old(mallocs), old(refusals), old(current.View()), old(current.count), key)
    {
      hide Pos;
      hide Good;
      hide Ended;
      hide Settled;
      hide Keys;
      hide Has;
      hide HasRoom;
      hide IsPut;
      hide IsAdded;
      ghost var t, before, refused, left, n := current.View(), current, refusals, mallocs, current.count;
      if Contains(key) { SettledHasRoom(t, n, key); }
      var located, p, at := Locate(h, key, behavior);
      if !located {
        return false;
      }
      SameKeysSameHas(t, current.View(), key);
      if p.found.Some? {
        SettledFound(current.View(), current.count, key, behavior, current.limit, p, at);
        return false;
      }
      ghost var t', before', refused', left', n' := current.View(), current, refusals, mallocs, current.count;
      Add(h, key, behavior, p, at);
      AddedSince(before, left, refused, t, n, key, before', left', refused', t', n');
      return true;
    }

    /** `ck_hs_put`: adds the object unless an equivalent one is there. */
    method Put(h: nat, key: Key) returns (r: bool)
      requires Valid() && h == cb.hf(key)
      modifies Repr()
      ensures Valid() && fresh(Repr() - old(Repr())) && old(current.log) <= current.log
      ensures r ==> !old(Contains(key)) && Contents() == old(Contents()) + {key}
      ensures !r ==> Contents() == old(Contents()) && (old(Contains(key)) || NoMemory(old(refusals), |old(mallocs)|))
      ensures old(Contains(key)) ==> Untouched(old(current), old(mallocs), old(current.View()))
      ensures old(HasRoom(current.View(), key)) ==> r == !old(Contains(key))
      ensures r ==> IsAdded(old(current), old(mallocs), old(refusals), old(current.View()), old(current.count), key)
    {
      r := PutInternal(h, key, Insert);
    }

    /** `ck_hs_put_unique`, for objects that have no equivalent in the set. */
    method PutUnique(h: nat, key: Key) returns (r: bool)
      requires Valid() && h == cb.hf(key) && !Contains(key)
      modifies Repr()
      ensures Valid() && fresh(Repr() - old(Repr())) && old(current.log) <= current.log
      ensures r ==> Contents() == old(Contents()) + {key}
      ensures !r ==> Contents() == old(Contents()) && NoMemory(old(refusals), |old(mallocs)|)
      ensures old(HasRoom(current.View(), key)) ==> r
      ensures r ==> IsAdded(old(current), old(mallocs), old(refusals), old(current.View()), old(current.count), key)
    {
      r := PutInternal(h, key, ShortCircuit);
    }

    /** `ck_hs_set`: adds the object or replaces its equivalent. */
    method Set(h: nat, key: Key) returns (r: bool, previous: Option<Key>)
      requires Valid() && h == cb.hf(key)
      modifies Repr()
      ensures Valid() && fresh(Repr() - old(Repr())) && old(current.log) <= current.log
      ensures r ==> previous.Some? == old(Contains(key))
      ensures r && previous.Some? ==> previous.value in old(Contents()) && Same(cb, previous.value, key)
                                      && Contents() == old(Contents()) - {previous.value} + {key}
      ensures r && previous.None? ==> Contents() == old(Contents()) + {key}
      ensures !r ==> Contents() == old(Contents()) && NoMemory(old(refusals), |old(mallocs)|)
      ensures old(Contains(key)) ==> r && current == old(current) && mallocs == old(mallocs)
      ensures r && previous.Some? ==> Shape(|current.entries[..]|) && !IsBehindTombstone(cb, current.entries[..], key)
      ensures old(HasRoom(current.View(), key)) ==> r
      ensures r && previous.None? ==>
                IsAdded(old(current), old(mallocs), old(refusals), old(current.View()), old(current.count), key)
    {
      hide Pos;
      hide Good;
      hide Ended;
      hide Settled;
      hide Keys;
      hide Has;
      hide HasRoom;
      hide IsPut;
      hide IsAdded;
      hide IsBehindTombstone;
      ghost var t, before, refused, left, n := current.View(), current, refusals, mallocs, current.count;
      if Contains(key) { SettledHasRoom(t, n, key); }
      var located, p, at := Locate(h, key, Insert);
      if !located {
        return false, None;
      }
      SameKeysSameHas(t, current.View(), key);
      if p.found.Some? {
        Store(h, key, Insert, p, at);
      } else {
        ghost var t', before', refused', left', n' := current.View(), current, refusals, mallocs, current.count;
        Add(h, key, Insert, p, at);
        AddedSince(before, left, refused, t, n, key, before', left', refused', t', n');
      }
      return true, p.found;
    }

    // ----- garbage collection

    /** `ck_hs_gc` on an empty set: the bounds are cleared. */
    method ClearBounds()
      requires Valid() && current.count == 0
      modifies Repr() - {this}
      ensures Valid() && old(current.log) <= current.log && current.entries[..] == old(current.entries[..])
      ensures current.maximum == 0 && forall o | 0 <= o < current.bounds.Length :: current.bounds[o] == 0
    {
      hide Pos;
      hide Good;
      NothingToReach(current.View(), current.View().(maximum := 0));
      current.StoreMaximum(0);
      for o := 0 to current.bounds.Length
        invariant current.Tracks() && current.published && current.doomed == None && current.count == 0
        invariant old(current.log) <= current.log && Settled(current.View(), 0)
        invariant current.View().slots == old(current.View()).slots
        invariant current.maximum == 0 && forall j | 0 <= j < o :: current.bounds[j] == 0
      {
        NothingToReach(current.View(), current.View().(bounds := current.View().bounds[o := 0]));
        current.StoreBound(o, 0);
      }
    }

    /** One round of ck_hs_gc: the entry of slot x moves to the first tombstone of its probe sequence. */
    method Advance(x: nat, key: Key, h: nat) returns (r: Probed)
      requires Valid() && x < current.capacity && current.entries[x] == Entry(key) && h == cb.hf(key)
      modifies Repr() - {this}
      ensures Valid() && old(current.log) <= current.log && Contents() == old(Contents())
      ensures current.View() == old(current.View()).(slots := current.View().slots, gen := current.View().gen)
      ensures 1 <= r.probes && Ready(old(current.View()), r, key, r.probes - 1) && r.slot == Some(x) && r.found.Some?
      ensures current.View().slots == if r.first.Some?
                                      then old(current.View()).slots[r.first.value := Entry(key)][x := Tombstone]
                                      else old(current.View()).slots
      ensures Advanced(cb, old(current.entries[..]), current.entries[..], key, r.probes)
    {
      hide Pos;
      hide Good;
      hide Ended;
      hide Ready;
      hide FitsAt;
      hide Keys;
      hide Advanced;
      ghost var t := current.View();
      var bound := current.BoundGet(h);
      ghost var at: nat;
      r, at := current.Probe(key, h, bound, Default);
      ProbeOfEntry(t, key, x, r, at);
      if r.first.Some? {
        current.Move(r.first.value, x, key, h, r.probes - 1);
      }
    }

    /** What the rounds before round i have done to the slots `before`, and what they have gathered. */
    ghost predicate ScannedTo(before: seq<Slot>, cycles: nat, seed: nat, maximum: nat, bounds: seq<nat>, i: nat)
      requires Valid()
      reads this, current.Repr()
    {
      && Shape(|before|) && |before| == current.capacity && (|bounds| == 0 || |bounds| == current.capacity)
      && Keys(before) == Contents() && CollectedTo(cb, before, current.entries[..], cycles, seed, i)
      && (cycles == 0 ==> Scanned(current.View(), maximum, bounds, seed, i) && NotTooHigh(cb, before, maximum, bounds))
    }

    /** A round on an entry. */
    method VisitEntry(x: nat, i: nat, cycles: nat, seed: nat, max: nat, bounds: array<nat>, ghost before: seq<Slot>)
      returns (maximum: nat)
      requires Valid() && bounds !in Repr() && i < current.capacity && x == Visited(current.capacity, seed, i)
      requires current.entries[x].Entry? && ScannedTo(before, cycles, seed, max, bounds[..], i)
      requires current.entries[..] == before ==> cycles == 0 || EntriesIn(before, seed, i) < cycles
      modifies Repr() - {this}, bounds
      ensures Valid() && old(current.log) <= current.log && Contents() == old(Contents())
      ensures current.maximum == old(current.maximum) && current.bounds[..] == old(current.bounds[..])
      ensures ScannedTo(before, cycles, seed, maximum, bounds[..], i + 1) && (cycles > 0 ==> maximum == max)
      ensures current.entries[..] == before ==>
                old(current.entries[..]) == before && EntriesIn(before, seed, i + 1) == EntriesIn(before, seed, i) + 1
    {
      hide Pos;
      hide Good;
      hide Scanned;
      hide Ready;
      hide Visited;
      hide CollectedTo;
      hide NotTooHigh;
      hide Advanced;
      hide NeedsProbes;
      hide EntriesIn;
      var key := current.entries[x].key;
      var h := cb.hf(key);
      ghost var t := current.View();
      var r := Advance(x, key, h);
      RoundCollects(cb, before, t.slots, current.entries[..], cycles, seed, i, key, r.probes);
      maximum := max;
      if cycles == 0 {
        VisitSlot(t, current.View(), max, bounds[..], seed, i, r, x);
        GatheredIsNotTooHigh(t, before, max, bounds[..], key, r.probes);
        Gather(bounds, h, r.probes);
        maximum := if r.probes > max then r.probes else max;
      }
    }

    /** The scan of ck_hs_gc. A full one (`cycles` is 0) visits every slot and gathers the bounds
        that its entries need; otherwise it stops after `cycles` entries. */
    method Scan(cycles: nat, seed: nat, bounds: array<nat>) returns (maximum: nat)
      requires Valid() && bounds !in Repr() && (bounds.Length == 0 || bounds.Length == current.capacity)
      requires cycles == 0 ==> bounds.Length == current.bounds.Length
      requires forall o | 0 <= o < bounds.Length :: bounds[o] == 0
      modifies Repr() - {this}, bounds
      ensures Valid() && old(current.log) <= current.log && Contents() == old(Contents())
      ensures current.maximum == old(current.maximum) && current.bounds[..] == old(current.bounds[..])
      ensures Collected(cb, old(current.entries[..]), current.entries[..], cycles, seed)
      ensures cycles == 0 ==> Scanned(current.View(), maximum, bounds[..], seed, current.capacity)
                              && NotTooHigh(cb, old(current.entries[..]), maximum, bounds[..])
      ensures cycles > 0 ==> maximum == current.maximum
    {
      hide Pos;
      hide Good;
      hide Scanned;
      hide Visited;
      hide CollectedTo;
      ghost var before := current.entries[..];
      maximum := if cycles == 0 then 0 else current.maximum;
      if cycles == 0 { ScanStarts(current.View(), bounds[..], seed); }
      NothingCollected(cb, before, cycles, seed);
      var left: int := cycles;
      var i := 0;
      while i < current.capacity
        invariant Valid() && old(current.log) <= current.log && Contents() == old(Contents()) && i <= current.capacity
        invariant current.maximum == old(current.maximum) && current.bounds[..] == old(current.bounds[..])
        invariant ScannedTo(before, cycles, seed, maximum, bounds[..], i)
        invariant cycles > 0 ==> maximum == current.maximum && left > 0
        invariant cycles > 0 && current.entries[..] == before ==> left == cycles - EntriesIn(before, seed, i)
      {
        hide NotTooHigh;
        hide EntriesIn;
        var x := Visited(current.capacity, seed, i);
        if current.entries[x].Entry? {
          maximum := VisitEntry(x, i, cycles, seed, maximum, bounds, before);
          i := i + 1;
          if cycles > 0 {
            left := left - 1;
            if left == 0 {
              break;
            }
          }
        } else {
          RoundSkips(cb, before, current.entries[..], cycles, seed, i);
          if cycles == 0 { SkipSlot(current.View(), maximum, bounds[..], seed, i); }
          i := i + 1;
        }
      }
      CollectionEnds(cb, before, current.entries[..], cycles, seed, i);
    }

    method Gather(bounds: array<nat>, h: nat, probes: nat)
      requires current.Tracks() && (bounds.Length == 0 || bounds.Length == current.capacity)
      modifies bounds
      ensures bounds[..] == Gathered(current.View(), old(bounds[..]), h, probes)
    {
      hide Pos;
      var offset := Home(current.capacity, h);
      var n := if probes > WORD_MAX then WORD_MAX else probes;
      if bounds.Length > 0 && n > bounds[offset] {
        bounds[offset] := n;
      }
    }

    /** The end of ck_hs_gc: the gathered bounds replace the old ones, one by one. */
    method StoreBounds(bounds: array<nat>, ghost t: Table)
      requires current.Tracks() && current.published && current.doomed == None && bounds !in Repr()
      requires Formed(t) && bounds.Length == current.bounds.Length == |t.bounds|
      requires Below(t, current.maximum, bounds[..]) && Good(Lowered(t, current.maximum, bounds[..]), None)
      requires current.View() == Mixed(t, current.maximum, bounds[..], 0)
      modifies current.bounds, current`log
      ensures current.Tracks() && old(current.log) <= current.log
      ensures current.View() == Lowered(t, current.maximum, bounds[..])
    {
      hide Pos;
      hide Good;
      hide Mixed;
      hide Formed;
      ghost var maximum, wanted := current.maximum, bounds[..];
      for o := 0 to bounds.Length
        invariant current.Tracks() && old(current.log) <= current.log && bounds[..] == wanted
        invariant current.View() == Mixed(t, maximum, wanted, o)
      {
        MixedIsGood(t, maximum, wanted, o);
        MixedStep(t, maximum, wanted, o);
        current.StoreBound(o, bounds[o]);
      }
      MixedEnds(t, maximum, wanted);
    }

    /** First the maximum, then the bounds. */
    method Lower(maximum: nat, bounds: array<nat>)
      requires Valid() && bounds !in Repr() && bounds.Length == current.bounds.Length
      requires Below(current.View(), maximum, bounds[..]) && Good(Lowered(current.View(), maximum, bounds[..]), None)
      modifies Repr() - {this}
      ensures Valid() && old(current.log) <= current.log && Contents() == old(Contents())
      ensures current.View() == Lowered(old(current.View()), maximum, bounds[..])
    {
      hide Pos;
      hide Good;
      ghost var t := current.View();
      if maximum != current.maximum {
        BetweenIsGood(t, maximum, bounds[..], t.(maximum := maximum));
        current.StoreMaximum(maximum);
      }
      assert current.View() == Mixed(t, maximum, bounds[..], 0);
      StoreBounds(bounds, t);
      SameEntries(t, current.View());
    }

    /** The maximum and the bounds are no higher than `maximum` and `bounds`. */
    ghost predicate NoHigher(maximum: nat, bounds: seq<nat>)
      reads this, current.Repr()
    {
      && current.maximum <= maximum && current.bounds.Length == |bounds|
      && forall o | 0 <= o < |bounds| :: current.bounds[o] <= bounds[o]
    }

    /** What a collection does to a map with these slots and bounds. No key comes later on its probe sequence
        and no bound rises. If a tombstone precedes an entry, among the first `cycles` entries from `seed` on in a
        partial collection, the places of the keys fall in total; if not, they stay, and after a full collection
        the maximum and the bounds are exactly what the keys need. */
    ghost predicate Tidied(slots: seq<Slot>, maximum: nat, bounds: seq<nat>, cycles: nat, seed: nat)
      reads this, current.Repr()
    {
      && Shape(|slots|) && current.entries.Length == |slots| && NoneLater(cb, slots, current.entries[..], Keys(slots))
      && NoHigher(maximum, bounds) && (|bounds| == 0 || |bounds| == |slots|)
      && (if SomeDue(cb, slots, cycles, seed)
          then TotalPlaces(cb, current.entries[..], Keys(slots)) < TotalPlaces(cb, slots, Keys(slots))
          else current.entries[..] == slots)
      && (cycles == 0 ==>
            && HighEnough(cb, current.entries[..], current.maximum, current.bounds[..])
            && NotTooHigh(cb, slots, current.maximum, current.bounds[..])
            && (!SomeDue(cb, slots, 0, seed) ==>
                  Exact(cb, current.entries[..], current.maximum, current.bounds[..])))
    }

    /** The bounds are lowered after a full scan. */
    method LowerScanned(maximum: nat, bounds: array<nat>, seed: nat, ghost slots: seq<Slot>)
      requires Valid() && bounds !in Repr() && bounds.Length == current.bounds.Length && Shape(|slots|)
      requires Scanned(current.View(), maximum, bounds[..], seed, current.capacity)
      requires |slots| == current.capacity && NotTooHigh(cb, slots, maximum, bounds[..])
      modifies Repr() - {this}
      ensures Valid() && old(current.log) <= current.log && current.entries[..] == old(current.entries[..])
      ensures NoHigher(old(current.maximum), old(current.bounds[..]))
      ensures HighEnough(cb, current.entries[..], current.maximum, current.bounds[..])
      ensures NotTooHigh(cb, slots, current.maximum, current.bounds[..])
    {
      hide Pos;
      hide Good;
      hide Place;
      hide Scanned;
      hide NotTooHigh;
      hide HighEnough;
      FullScan(current.View(), maximum, bounds[..], seed);
      Lower(maximum, bounds);
      GoodIsHighEnough(current.View());
    }

    /** `ck_hs_gc`. It fails only if a full collection gets no memory for its bounds. */
    method Collect(cycles: nat, seed: nat) returns (r: bool)
      requires Valid()
      modifies Repr()
      ensures Valid() && current == old(current) && old(current.log) <= current.log && Contents() == old(Contents())
      ensures r == (old(current.count) == 0 || cycles > 0 || current.bounds.Length == 0 || old(Grants()))
      ensures !r ==> refusals > old(refusals) && current.View() == old(current.View())
      ensures r ==> Tidied(old(current.entries[..]), old(current.maximum), old(current.bounds[..]), cycles, seed)
      ensures old(current.count) == 0 ==>
                current.maximum == 0 && forall o | 0 <= o < current.bounds.Length :: current.bounds[o] == 0
    {
      hide Pos;
      hide Good;
      hide Place;
      hide Scanned;
      hide Collected;
      hide SomeDue;
      hide NotTooHigh;
      hide HighEnough;
      hide Exact;
      ghost var t := current.View();
      if current.count == 0 {
        EmptyIsCollected(t, cycles, seed);
        ClearBounds();
        EmptyIsExact(current.View(), seed);
        return true;
      }
      var bounds := new nat[0];
      if cycles == 0 && current.bounds.Length > 0 {
        var granted := Malloc();
        if !granted {
          return false;
        }
        bounds := new nat[current.bounds.Length](_ => 0);
      }
      var maximum := Scan(cycles, seed, bounds);
      CollectedFalls(cb, t.slots, current.entries[..], cycles, seed);
      if cycles == 0 {
        LowerScanned(maximum, bounds, seed, t.slots);
        if current.entries[..] == t.slots {
          BothAreExact(cb, t.slots, current.maximum, current.bounds[..]);
        }
      }
      return true;
    }
  }

  lemma SameEntries(t: Table, t': Table)
    requires Distinct(t) && t'.slots == t.slots && t'.cb == t.cb
    ensures Distinct(t')
  {
    forall x: nat, y: nat ensures !Twin(t', x, y) {
      assert !Twin(t, x, y);
    }
  }

  lemma NothingToReach(t: Table, t': Table)
    requires Settled(t, 0) && Formed(t') && t' == t.(maximum := t'.maximum, bounds := t'.bounds)
    ensures Settled(t', 0)
  {
    hide Pos;
    forall i: nat | i < |t.slots| ensures !t.slots[i].Entry? {
      KeyOfSlot(t.slots, i);
    }
  }

  lemma SettledBounds(t: Table, count: nat, h: nat)
    requires Settled(t, count)
    ensures Bound(t, h) <= t.limit
  {}

  lemma FoundSlot(t: Table, key: Key, behavior: Behavior, limit: nat, r: Probed, at: nat)
    requires Good(t, None) && Ended(t, key, behavior, limit, r, at) && r.found.Some?
    ensures r.slot.Some? && Target(r) < |t.slots| && r.slot.value < |t.slots| && Shape(|t.slots|)
    ensures !IsBehindTombstone(t.cb, Installed(t.slots, r, key), key)
  {
    EndedFound(t, key, behavior, limit, r, at);
    InstalledIsFirst(t, key, behavior, limit, r, at);
  }

  lemma SettledCount(t: Table, count: nat)
    requires Settled(t, count)
    ensures count <= |t.slots|
  {
    KeysAtMost(t.slots);
  }

  lemma SettledHasRoom(t: Table, count: nat, key: Key)
    requires Settled(t, count) && Has(t, key)
    ensures HasRoom(t, key)
  {
    PresentHasRoom(t, key);
  }

  lemma ReadyToStore(t: Table, count: nat, key: Key, behavior: Behavior, r: Probed, at: nat)
    requires Settled(t, count) && Ended(t, key, behavior, t.limit, r, at) && !behavior.Default?
    requires r.first.Some? || r.slot.Some?
    requires behavior.ShortCircuit? && r.found.None? ==> !Has(t, key)
    ensures 1 <= r.probes <= t.limit && Ready(Raised(t, t.cb.hf(key), r.probes), r, key, r.probes - 1)
    ensures r.found.None? ==> !Has(t, key) && (key !in Keys(t.slots) ==> |Keys(t.slots) + {key}| == |Keys(t.slots)| + 1)
    ensures r.found.Some? ==> Has(t, key) && r.found.value in Keys(t.slots) && Same(t.cb, r.found.value, key)
    ensures r.found.Some? ==> |Keys(t.slots) - {r.found.value} + {key}| == |Keys(t.slots)|
  {
    hide Pos;
    SettledBounds(t, count, t.cb.hf(key));
    EndedFits(t, key, behavior, t.limit, r, at);
    if r.found.Some? {
      EndedFound(t, key, behavior, t.limit, r, at);
      ReplacementKeepsSize(t, r.slot.value, key);
    } else if behavior.Insert? {
      EndedAbsent(t, key, behavior, t.limit, r, at);
    }
    hide Ended;
    RaisedSame(t, t.cb.hf(key), r.probes, key);
  }

  /** A new map that has no room for the next object holds eight others. */
  lemma OneMoreKey(t: Table, u: Table, k: nat)
    requires k < |t.slots| && t.slots[k].Entry? && u.cb == t.cb && !Has(u, t.slots[k].key)
    requires Keys(u.slots) == Keys(t.slots[..k]) && |Keys(u.slots)| >= 8
    ensures |Keys(t.slots)| > 8
  {
    KeysHas(u, t.slots[k].key);
    hide Keys;
    KeysOfPrefix(t.slots, k);
    KeysOfPart(t.slots, 0, k + 1);
    assert t.slots[0..k + 1] == t.slots[..k + 1];
    KeysOfSmaller(Keys(t.slots[..k + 1]), Keys(t.slots));
  }

  lemma SettledFound(t: Table, count: nat, key: Key, behavior: Behavior, limit: nat, r: Probed, at: nat)
    requires Settled(t, count) && Ended(t, key, behavior, limit, r, at) && r.found.Some?
    ensures Has(t, key)
  {
    EndedFound(t, key, behavior, limit, r, at);
  }

  ghost predicate Cleared(t: Table) {
    forall i | 0 <= i < |t.slots| :: t.slots[i] == Empty
  }

  lemma EmptyIsGood(t: Table, u: Table)
    requires Good(t, None) && Formed(u) && u.cb == t.cb && Cleared(u)
    ensures Settled(u, 0) && Keys(u.slots) == {}
  {}
}
