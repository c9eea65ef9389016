/** `struct ck_rhs`: growth and lookup. */
module RobinHood {
  import opened Bits
  import opened Wrappers
  import opened MapSizes
  import opened HashKeys
  import opened RhsMap

  lemma {:induction false} BagAtMost(entries: seq<Option<Key>>)
    ensures |Bag(entries)| <= |entries|
  {
    if entries != [] {
      var last := |entries| - 1;
      assert entries[..last + 1] == entries;
      BagOfPrefix(entries, last);
      BagAtMost(entries[..last]);
    }
  }

  lemma BagOfPart(entries: seq<Option<Key>>, k: nat)
    requires k <= |entries|
    ensures |Bag(entries[..k])| <= |Bag(entries)|
  {
    assert entries == entries[..k] + entries[k..];
    assert Bag(entries) == Bag(entries[..k]) + Bag(entries[k..]);
  }

  lemma BagMembers(entries: seq<Option<Key>>, k: Key)
    ensures Some(k) in Bag(entries) <==> Some(k) in entries
  {}

  class RobinHood {
    const cb: Callbacks
    /** CK_RHS_MODE_READ_MOSTLY. */
    const readMostly: bool
    var current: Map
    /** What malloc will answer, call by call; after that it answers NULL. */
    var mallocs: seq<bool>
    /** How often malloc has answered NULL. */
    ghost var refusals: nat

    constructor (cb: Callbacks, readMostly: bool, entries: nat, mallocs: seq<bool>)
      requires Proper(cb)
      ensures Valid() && fresh(Repr()) && this.cb == cb && Contents() == multiset{}
      ensures current.capacity == MapCapacity(entries)
    {
      this.cb, this.readMostly, this.mallocs, this.refusals := cb, readMostly, mallocs, 0;
      var n := MapCapacity(entries);
      current := new Map(cb, n, ProbeLimit(n), readMostly);
    }

    ghost function Repr(): set<object>
      reads this
    {
      {this} + current.Repr()
    }

    ghost predicate Valid()
      reads this, current.Repr()
    {
      current.cb == cb && Proper(cb) && current.Valid() && current.capacity <= MAX_CAPACITY
    }

    /** The stored objects, with multiplicity. */
    ghost function Contents(): multiset<Option<Key>>
      reads this, current.Repr()
    {
      Bag(current.entries[..])
    }

    method Malloc() returns (granted: bool)
      modifies this`mallocs, this`refusals
      ensures refusals == old(refusals) + (if granted then 0 else 1) && |mallocs| <= |old(mallocs)|
      ensures granted == (|old(mallocs)| > 0 && old(mallocs)[0])
      ensures granted ==> |mallocs| < |old(mallocs)|
    {
      granted := |mallocs| > 0 && mallocs[0];
      mallocs := if |mallocs| > 0 then mallocs[1..] else [];
      refusals := refusals + if granted then 0 else 1;
    }

    /** `ck_rhs_get` with no writer beside it. */
    method Get(h: nat, key: Key) returns (found: Option<Key>)
      requires Valid() && h == cb.hf(key)
      ensures found.Some? ==> found in Contents() && Same(cb, found.value, key)
      ensures found.None? ==> forall k: Key :: Some(k) in Contents() ==> !Same(cb, k, key)
    {
      hide Good;
      var bound := current.BoundGet(h);
      found := current.Probe(h, key, bound);
      forall k: Key ensures Some(k) in Contents() <==> Some(k) in current.entries[..] {
        BagMembers(current.entries[..], k);
      }
    }

    /** One slot of the old map. */
    method CopySlot(update: Map, k: nat) returns (fits: bool)
      requires Valid() && update.cb == cb && update.Valid() && k < current.capacity
      requires update !in Repr() && update.Repr() !! Repr() && 8 <= update.limit && update.Neat()
      requires Bag(update.entries[..]) == Bag(current.entries[..k])
      modifies update.Repr()
      ensures fits ==> update.Valid() && update.Neat() && Bag(update.entries[..]) == Bag(current.entries[..k + 1])
      ensures !fits ==> |Contents()| > 8
    {
      hide Good;
      hide Map.InOrder;
      hide Map.IsTight;
      BagOfPrefix(current.entries[..], k);
      assert current.entries[..][..k] == current.entries[..k];
      assert current.entries[..][..k + 1] == current.entries[..k + 1];
      BagOfPart(current.entries[..], k + 1);
      hide Bag;
      var saved := current.entries[k];
      fits := true;
      if saved.Some? {
        fits := update.Insert(saved.value, cb.hf(saved.value));
      }
    }

    /** The outer loop of one attempt of ck_rhs_grow. */
    method CopyInto(update: Map) returns (fits: bool)
      requires Valid() && update.cb == cb && update.Valid() && Bag(update.entries[..]) == multiset{}
      requires update !in Repr() && update.Repr() !! Repr() && 8 <= update.limit && update.Neat()
      modifies update.Repr()
      ensures Valid() && Contents() == old(Contents())
      ensures if fits then update.Valid() && Bag(update.entries[..]) == Contents() else |Contents()| > 8
      ensures fits ==> update.Neat()
    {
      hide Good;
      hide Map.InOrder;
      hide Map.IsTight;
      ghost var all := current.entries[..];
      assert Bag(all[..0]) == multiset{};
      hide Bag;
      for k := 0 to current.capacity
        invariant current.entries[..] == all && update.Valid() && update.Neat()
        invariant Bag(update.entries[..]) == Bag(all[..k])
      {
        assert current.entries[..k] == all[..k] && current.entries[..k + 1] == all[..k + 1];
        fits := CopySlot(update, k);
        if !fits {
          return;
        }
      }
      assert all[..current.capacity] == all;
      fits := true;
    }

    /** `ck_rhs_grow`: a published map holds exactly the objects of the old one. `k` is the number of maps that
        had no room for them; each of them doubled the capacity that is asked for. */
    method Grow(wanted: nat) returns (r: bool, ghost k: nat)
      requires Valid() && wanted < ULONGS
      modifies this
      ensures Valid() && fresh(Repr() - old(Repr())) && Contents() == old(Contents())
      ensures |mallocs| + k <= |old(mallocs)| && (r ==> current.Neat())
      ensures r ==> current.capacity == MapCapacity(Attempt(wanted, k))
      ensures r && (k == 0 || IsPow2(wanted) || wanted * Pow2(k) <= MAX_CAPACITY) ==>
                (wanted <= current.capacity <==> wanted <= MAX_CAPACITY)
      ensures !r ==> current == old(current)
      ensures if r || Attempt(wanted, k) < current.capacity then refusals == old(refusals) else refusals > old(refusals)
      ensures |old(Contents())| <= 8 && old(Grants()) && old(current.capacity) <= wanted ==> r && k == 0
    {
      hide Good;
      hide Map.InOrder;
      hide Map.IsTight;
      hide MapCapacity;
      hide Bag;
      hide Pow2;
      var capacity := wanted;
      k := 0;
      while true
        invariant current == old(current) && capacity == Attempt(wanted, k) < ULONGS
        invariant |mallocs| + k <= |old(mallocs)| && (k == 0 ==> mallocs == old(mallocs)) && refusals == old(refusals)
        invariant k > 0 ==> |Contents()| > 8
        decreases |mallocs|
      {
        if current.capacity > capacity {
          return false, k;
        }
        var granted := Malloc();
        if !granted {
          return false, k;
        }
        var n := MapCapacity(capacity);
        var update := new Map(cb, n, ProbeLimit(n), readMostly);
        var fits := CopyInto(update);
        if fits {
          current := update;
          ReachesWanted(wanted, k);
          return true, k;
        }
        capacity := capacity * 2 % ULONGS;
        k := k + 1;
      }
    }

    /** Malloc will answer the next call with memory. */
    ghost predicate Grants()
      reads this
    {
      |mallocs| > 0 && mallocs[0]
    }

    /** More than eight objects are not in eight slots. */
    lemma ReachesWanted(wanted: nat, k: nat)
      requires Valid() && wanted < ULONGS && current.capacity == MapCapacity(Attempt(wanted, k))
      requires k > 0 ==> |Contents()| > 8
      ensures k == 0 || IsPow2(wanted) || wanted * Pow2(k) <= MAX_CAPACITY ==>
                (wanted <= current.capacity <==> wanted <= MAX_CAPACITY)
    {
      hide Good;
      hide Pow2;
      hide Bag;
      hide MapCapacity;
      BagAtMost(current.entries[..]);
      if k == 0 || IsPow2(wanted) || wanted * Pow2(k) <= MAX_CAPACITY { RegularReaches(wanted, k); }
    }
  }
}
