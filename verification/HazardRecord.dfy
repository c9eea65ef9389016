/** `ck_hp_record` and ck_hp_reclaim in place: the cache of hazards, and the pending list from which
    reclaimed entries are unlinked. The library's qsort and bsearch are a membership test here. */
module HazardRecord {
  import opened Wrappers

  type Pointer = nat

  /** `ck_hp_hazard`: one retired object. */
  class Hazard {
    var next: Hazard?
    const pointer: Pointer

    constructor (pointer: Pointer)
      ensures this.pointer == pointer && next == null
    {
      this.pointer, next := pointer, null;
    }
  }

  /** What a subscriber shows to the others: its state and its hazard pointers. */
  datatype Subscriber = Subscriber(used: bool, pointers: seq<Option<Pointer>>)

  /** The hazards of the first k subscribers and of the first i pointers of the next, in scanning order. */
  ghost function Hazards(subscribers: seq<Subscriber>, k: nat, i: nat): seq<Pointer>
    requires k <= |subscribers| && (i > 0 ==> k < |subscribers| && i <= |subscribers[k].pointers|)
    decreases k, i
  {
    if i > 0 then Hazards(subscribers, k, i - 1) + Values(subscribers[k].pointers[i - 1])
    else if k == 0 then []
    else Hazards(subscribers, k - 1, if subscribers[k - 1].used then |subscribers[k - 1].pointers| else 0)
  }

  ghost function Values(p: Option<Pointer>): seq<Pointer> {
    if p.Some? then [p.value] else []
  }

  ghost function AllHazards(subscribers: seq<Subscriber>): seq<Pointer> {
    Hazards(subscribers, |subscribers|, 0)
  }

  lemma HazardsStep(subscribers: seq<Subscriber>, k: nat, i: nat)
    ensures Hazards(subscribers, 0, 0) == []
    ensures k < |subscribers| ==>
              Hazards(subscribers, k + 1, 0)
                == Hazards(subscribers, k, if subscribers[k].used then |subscribers[k].pointers| else 0)
    ensures k < |subscribers| && i < |subscribers[k].pointers| ==>
              Hazards(subscribers, k, i + 1) == Hazards(subscribers, k, i) + Values(subscribers[k].pointers[i])
  {}

  /** What of the hazards h reaches a cache of n entries: one more than it has room for. */
  ghost function Caught(h: seq<Pointer>, n: nat): seq<Pointer> {
    if |h| <= n + 1 then h else h[..n + 1]
  }

  /** Later in the same record, more hazards behind the ones so far. */
  lemma {:induction false} HazardsGrow(subscribers: seq<Subscriber>, k: nat, i: nat, j: nat)
    requires k < |subscribers| && i <= j <= |subscribers[k].pointers|
    ensures Hazards(subscribers, k, i) <= Hazards(subscribers, k, j)
    decreases j - i
  {
    if i < j { HazardsGrow(subscribers, k, i + 1, j); }
  }

  /** Once the cache has run over, nothing more is caught. */
  lemma CaughtAll(a: seq<Pointer>, b: seq<Pointer>, n: nat)
    requires a <= b && |a| > n
    ensures Caught(a, n) == Caught(b, n)
  {}

  /** Until then, every hazard is. */
  lemma CaughtOneMore(h: seq<Pointer>, p: Option<Pointer>, n: nat)
    requires |Caught(h, n)| <= n
    ensures Caught(h + Values(p), n) == Caught(h, n) + Values(p)
    ensures |h| <= n
  {}

  lemma CaughtSize(h: seq<Pointer>, n: nat)
    ensures |Caught(h, n)| <= n + 1 && (|Caught(h, n)| > n <==> |h| > n) && Caught([], n) == []
  {}

  lemma {:induction false} PublishedIsFound(subscribers: seq<Subscriber>, k: nat, i: nat, j: nat, l: nat, p: Pointer)
    requires k <= |subscribers| && (i > 0 ==> k < |subscribers| && i <= |subscribers[k].pointers|)
    requires j < |subscribers| && subscribers[j].used && l < |subscribers[j].pointers|
    requires subscribers[j].pointers[l] == Some(p) && (j < k || (j == k && l < i))
    ensures p in Hazards(subscribers, k, i)
    decreases k, i
  {
    if i > 0 {
      if j < k || l < i - 1 { PublishedIsFound(subscribers, k, i - 1, j, l, p); }
    } else {
      var last := subscribers[k - 1];
      PublishedIsFound(subscribers, k - 1, if last.used then |last.pointers| else 0, j, l, p);
    }
  }

  // ----- what is published, without an order

  /** Pointer l of subscriber j is a hazard. */
  predicate IsHazard(subscribers: seq<Subscriber>, j: nat, l: nat) {
    && j < |subscribers| && subscribers[j].used
    && l < |subscribers[j].pointers| && subscribers[j].pointers[l].Some?
  }

  /** Some used subscriber shows p. */
  ghost predicate Publishes(subscribers: seq<Subscriber>, p: Pointer) {
    exists j: nat, l: nat :: IsHazard(subscribers, j, l) && subscribers[j].pointers[l] == Some(p)
  }

  predicate Before(j: nat, l: nat, k: nat, i: nat) {
    j < k || (j == k && l < i)
  }

  /** The places of the hazards before place (k, i). */
  ghost function Places(subscribers: seq<Subscriber>, k: nat, i: nat): set<(nat, nat)> {
    set place | place in Published(subscribers) && Before(place.0, place.1, k, i)
  }

  /** The places of all published hazard pointers. */
  ghost function Published(subscribers: seq<Subscriber>): set<(nat, nat)> {
    set j: nat, l: nat | j < |subscribers| && l < |subscribers[j].pointers| && IsHazard(subscribers, j, l) :: (j, l)
  }

  lemma InPublished(subscribers: seq<Subscriber>, j: nat, l: nat)
    ensures (j, l) in Published(subscribers) <==> IsHazard(subscribers, j, l)
  {}

  lemma PlacesStep(subscribers: seq<Subscriber>, k: nat, i: nat)
    requires k < |subscribers| && subscribers[k].used && i < |subscribers[k].pointers|
    ensures |Places(subscribers, k, i + 1)|
         == |Places(subscribers, k, i)| + (if subscribers[k].pointers[i].Some? then 1 else 0)
  {
    hide Published;
    InPublished(subscribers, k, i);
    var before, after := Places(subscribers, k, i), Places(subscribers, k, i + 1);
    assert (k, i) !in before;
    assert after == before + if subscribers[k].pointers[i].Some? then {(k, i)} else {};
  }

  lemma PlacesOfRecord(subscribers: seq<Subscriber>, k: nat)
    requires k < |subscribers|
    ensures Places(subscribers, k + 1, 0)
         == Places(subscribers, k, if subscribers[k].used then |subscribers[k].pointers| else 0)
  {
    hide Published;
    forall place | place in Published(subscribers)
      ensures Before(place.0, place.1, k + 1, 0)
         <==> Before(place.0, place.1, k, if subscribers[k].used then |subscribers[k].pointers| else 0)
    {
      InPublished(subscribers, place.0, place.1);
    }
  }

  /** The hazards collected are as many as are published, and nothing else. */
  lemma {:induction false} HazardsArePublished(subscribers: seq<Subscriber>, k: nat, i: nat)
    requires k <= |subscribers|
    requires i > 0 ==> k < |subscribers| && subscribers[k].used && i <= |subscribers[k].pointers|
    ensures |Hazards(subscribers, k, i)| == |Places(subscribers, k, i)|
    ensures forall p | p in Hazards(subscribers, k, i) :: Publishes(subscribers, p)
    decreases k, i
  {
    hide Places;
    if i > 0 {
      HazardsArePublished(subscribers, k, i - 1);
      PlacesStep(subscribers, k, i - 1);
      HazardsStep(subscribers, k, i - 1);
      assert subscribers[k].pointers[i - 1].Some? ==> IsHazard(subscribers, k, i - 1);
    } else if k > 0 {
      HazardsArePublished(subscribers, k - 1, if subscribers[k - 1].used then |subscribers[k - 1].pointers| else 0);
      PlacesOfRecord(subscribers, k - 1);
      HazardsStep(subscribers, k - 1, 0);
    } else {
      NoPlaces(subscribers);
    }
  }

  lemma NoPlaces(subscribers: seq<Subscriber>)
    ensures Places(subscribers, 0, 0) == {}
  {}

  /** What the scan collects are the published pointers, one for every place. */
  lemma AllHazardsAreThePublished(subscribers: seq<Subscriber>)
    ensures |AllHazards(subscribers)| == |Published(subscribers)|
    ensures forall p :: p in AllHazards(subscribers) <==> Publishes(subscribers, p)
  {
    HazardsArePublished(subscribers, |subscribers|, 0);
    forall place | place in Published(subscribers) ensures place in Places(subscribers, |subscribers|, 0) {
      InPublished(subscribers, place.0, place.1);
    }
    assert Places(subscribers, |subscribers|, 0) == Published(subscribers);
    hide Published;
    forall p | Publishes(subscribers, p) ensures p in AllHazards(subscribers) {
      var j: nat, l: nat :| IsHazard(subscribers, j, l) && subscribers[j].pointers[l] == Some(p);
      PublishedIsFound(subscribers, |subscribers|, 0, j, l, p);
    }
  }

  // ----- the pending list

  /** `first` is the head of a list that runs through exactly these entries. */
  ghost predicate Chain(first: Hazard?, list: seq<Hazard>)
    reads list
  {
    && first == Nth(list, 0)
    && (forall i | 0 <= i < |list| :: list[i].next == Nth(list, i + 1))
    && (forall i, j | 0 <= i < j < |list| :: list[i] != list[j])
  }

  /** The i-th entry, or null behind the end. */
  function Nth(list: seq<Hazard>, i: nat): Hazard? {
    if i < |list| then list[i] else null
  }

  ghost function Kept(list: seq<Hazard>, hazards: seq<Pointer>): seq<Hazard> {
    if list == [] then [] else
      Kept(list[..|list| - 1], hazards) + (if list[|list| - 1].pointer in hazards then [list[|list| - 1]] else [])
  }

  ghost function Freed(list: seq<Hazard>, hazards: seq<Pointer>): seq<Pointer> {
    if list == [] then [] else
      Freed(list[..|list| - 1], hazards)
      + (if list[|list| - 1].pointer in hazards then [] else [list[|list| - 1].pointer])
  }

  lemma {:induction false} KeptOrFreed(list: seq<Hazard>, hazards: seq<Pointer>, e: Hazard)
    requires e in list
    ensures if e.pointer in hazards then e in Kept(list, hazards) && e.pointer !in Freed(list, hazards)
            else e !in Kept(list, hazards) && e.pointer in Freed(list, hazards)
  {
    FreedIsFree(list, hazards);
    var last := |list| - 1;
    if e in list[..last] {
      KeptOrFreed(list[..last], hazards, e);
    } else {
      assert e == list[last];
      KeptIsKept(list, hazards);
    }
  }

  /** What becomes of a retired entry: destroyed if nobody publishes it, kept if somebody does, unless the cache
      has run over. */
  lemma ReclaimSparesPublished(list: seq<Hazard>, subscribers: seq<Subscriber>, n: nat, e: Hazard)
    requires e in list
    ensures var h := Caught(AllHazards(subscribers), n);
            && (!Publishes(subscribers, e.pointer) ==> e !in Kept(list, h) && e.pointer in Freed(list, h))
            && (Publishes(subscribers, e.pointer) && |Published(subscribers)| <= n + 1 ==>
                  e in Kept(list, h) && e.pointer !in Freed(list, h))
  {
    AllHazardsAreThePublished(subscribers);
    KeptOrFreed(list, Caught(AllHazards(subscribers), n), e);
  }

  lemma {:induction false} NothingLost(list: seq<Hazard>, hazards: seq<Pointer>)
    ensures |Kept(list, hazards)| + |Freed(list, hazards)| == |list|
  {
    if list != [] { NothingLost(list[..|list| - 1], hazards); }
  }

  lemma {:induction false} FreedIsFree(list: seq<Hazard>, hazards: seq<Pointer>)
    ensures forall p | p in Freed(list, hazards) :: p !in hazards
  {
    if list != [] { FreedIsFree(list[..|list| - 1], hazards); }
  }

  lemma {:induction false} KeptIsKept(list: seq<Hazard>, hazards: seq<Pointer>)
    ensures forall e | e in Kept(list, hazards) :: e.pointer in hazards && e in list
  {
    if list != [] { KeptIsKept(list[..|list| - 1], hazards); }
  }

  class Record {
    const cacheSize: nat
    /** The cache, and the word behind it: the field `global` of the record. */
    const cache: array<Pointer>
    /** A hazard has been stored over `global`. */
    var overwritten: bool
    var first: Hazard?
    var count: nat
    /** The pending entries, newest first. */
    ghost var pending: seq<Hazard>
    /** What `destroy` has been called with, in order. */
    var destroyed: seq<Pointer>

    /** Every entry that has been in the list. */
    ghost var entries: set<Hazard>

    ghost predicate Valid()
      reads this, entries
    {
      && cache.Length == cacheSize + 1 && (forall e | e in pending :: e in entries)
      && Chain(first, pending) && count == |pending|
    }

    constructor (cacheSize: nat)
      ensures Valid() && fresh(cache) && this.cacheSize == cacheSize && !overwritten
      ensures pending == [] && destroyed == [] && entries == {}
    {
      this.cacheSize, overwritten := cacheSize, false;
      cache := new Pointer[cacheSize + 1](_ => 0);
      first, count, pending, destroyed, entries := null, 0, [], [], {};
    }

    /** `ck_hp_retire`. */
    method Retire(hazard: Hazard)
      requires Valid() && hazard !in pending
      modifies this, hazard
      ensures Valid() && pending == [hazard] + old(pending) && destroyed == old(destroyed)
      ensures entries == old(entries) + {hazard} && overwritten == old(overwritten)
    {
      hazard.next := first;
      first := hazard;
      pending := [hazard] + pending;
      entries := entries + {hazard};
      count := count + 1;
      assert forall i | 0 < i < |pending| :: pending[i] == old(pending)[i - 1];
    }

    /** What of the hazards h is in the cache. */
    ghost predicate Caches(hazards: nat, h: seq<Pointer>, before: bool)
      reads this, cache
    {
      && cache.Length == cacheSize + 1 && hazards <= cache.Length && cache[..hazards] == Caught(h, cacheSize)
      && overwritten == (before || hazards > cacheSize)
    }

    /** The next pointer of a subscriber, while the cache has not run over. */
    method CachePointer(hazards: nat, p: Option<Pointer>, ghost h: seq<Pointer>, ghost before: bool)
      returns (more: nat)
      requires Caches(hazards, h, before) && hazards <= cacheSize
      modifies cache, this`overwritten
      ensures Caches(more, h + Values(p), before)
    {
      more := hazards;
      if p.Some? {
        cache[hazards] := p.value;
        overwritten := overwritten || hazards == cacheSize;
        more := hazards + 1;
        assert cache[..more] == cache[..hazards] + [p.value];
      }
      CaughtOneMore(h, p, cacheSize);
    }

    /** `ck_hp_member_cache`: the first hazards, one more than the cache has entries. That one goes over
        `global`, whose old value the caller has loaded before. */
    method MemberCache(subscribers: seq<Subscriber>) returns (hazards: nat)
      requires cache.Length == cacheSize + 1
      modifies cache, this`overwritten
      ensures hazards <= cache.Length && cache[..hazards] == Caught(AllHazards(subscribers), cacheSize)
      ensures forall p | p in cache[..hazards] :: Publishes(subscribers, p)
      ensures hazards == if |Published(subscribers)| <= cacheSize then |Published(subscribers)| else cacheSize + 1
      ensures overwritten == (old(overwritten) || |Published(subscribers)| > cacheSize)
    {
      hide Published;
      hide Publishes;
      hazards := 0;
      HazardsStep(subscribers, 0, 0);
      AllHazardsAreThePublished(subscribers);
      CaughtSize(AllHazards(subscribers), cacheSize);
      ghost var before := overwritten;
      assert Caches(0, [], before);
      for k := 0 to |subscribers|
        invariant Caches(hazards, Hazards(subscribers, k, 0), before)
      {
        hide Hazards;
        hide Caught;
        var pointers := subscribers[k].pointers;
        if subscribers[k].used {
          var i := 0;
          while i < |pointers|
            invariant i <= |pointers| && Caches(hazards, Hazards(subscribers, k, i), before)
          {
            if hazards > cacheSize {
              CaughtSize(Hazards(subscribers, k, i), cacheSize);
              HazardsGrow(subscribers, k, i, |pointers|);
              CaughtAll(Hazards(subscribers, k, i), Hazards(subscribers, k, |pointers|), cacheSize);
              break;
            }
            HazardsStep(subscribers, k, i);
            hazards := CachePointer(hazards, pointers[i], Hazards(subscribers, k, i), before);
            i := i + 1;
          }
        }
        HazardsStep(subscribers, k, 0);
      }
    }

    /** Removes an entry from the list; `previous` is the one before it, if any. */
    method Unlink(previous: Hazard?, entry: Hazard, next: Hazard?, ghost kept: seq<Hazard>, ghost rest: seq<Hazard>)
      requires Valid() && pending == kept + [entry] + rest && previous == Last(kept) && next == Nth(rest, 0)
      modifies this, entries
      ensures Valid() && pending == kept + rest && entries == old(entries)
      ensures destroyed == old(destroyed) && overwritten == old(overwritten)
    {
      ghost var before, after := pending, kept + rest;
      assert forall i | 0 <= i < |before| :: before[i].next == Nth(before, i + 1);
      assert before[|kept|] == entry && (kept != [] ==> before[|kept| - 1] == previous);
      GapClosed(kept, entry, rest);
      count := count - 1;
      if previous != null {
        previous.next := next;
      } else {
        first := next;
      }
      pending := after;
      assert forall e: Hazard | e != previous :: e.next == old(e.next);
      forall i: nat | i < |after| ensures after[i].next == Nth(after, i + 1) {
        var j := if i < |kept| then i else i + 1;
        Shifted(kept, entry, rest, i);
        assert old(before[j].next) == Nth(before, j + 1);
        if i + 1 != |kept| { assert before[j] != previous; }
      }
    }

    lemma FirstInChain()
      requires Valid()
      ensures first == Nth(pending, 0)
    {}

    lemma NextInChain(kept: seq<Hazard>, entry: Hazard, rest: seq<Hazard>)
      requires Valid() && pending == kept + [entry] + rest
      ensures entry.next == Nth(rest, 0)
    {
      assert pending[|kept|] == entry;
    }

    /** One entry of the pending list, with n hazards in the cache. */
    method Visit(n: nat, e: Hazard, previous: Hazard?, ghost kept: seq<Hazard>, ghost rest: seq<Hazard>)
      returns (last: Hazard?, next: Hazard?)
      requires Valid() && n <= cache.Length && pending == kept + [e] + rest && previous == Last(kept)
      modifies this, entries
      ensures Valid() && entries == old(entries) && next == Nth(rest, 0)
      ensures var kept' := kept + (if e.pointer in cache[..n] then [e] else []);
              last == Last(kept') && pending == kept' + rest
      ensures destroyed == old(destroyed) + if e.pointer in cache[..n] then [] else [e.pointer]
      ensures overwritten == old(overwritten)
    {
      hide Chain;
      NextInChain(kept, e, rest);
      next := e.next;
      if e.pointer in cache[..n] {
        last := e;
      } else {
        last := previous;
        Unlink(previous, e, next, kept, rest);
        destroyed := destroyed + [e.pointer];
        assert kept + [] == kept;
      }
    }

    /** The second half of ck_hp_reclaim. */
    method SweepPending(n: nat)
      requires Valid() && n <= cache.Length
      modifies this, entries
      ensures Valid() && pending == Kept(old(pending), cache[..n]) && entries == old(entries)
      ensures destroyed == old(destroyed) + Freed(old(pending), cache[..n]) && overwritten == old(overwritten)
    {
      hide Swept;
      hide Kept;
      hide Freed;
      hide Valid;
      hide Chain;
      ghost var hazards, list, done, k := cache[..n], pending, destroyed, 0;
      var previous: Hazard? := null;
      var entry := first;
      NoneYet(list, hazards, done);
      FirstInChain();
      while entry != null
        invariant Valid() && entries == old(entries) && cache[..n] == hazards && overwritten == old(overwritten)
        invariant k <= |list| && entry == Nth(list, k)
        invariant Swept(list, k, hazards, previous, pending, done, destroyed)
        decreases |list| - k
      {
        OneMore(list, k, hazards, previous, pending, done, destroyed);
        previous, entry := Visit(n, entry, previous, Kept(list[..k], hazards), list[k + 1..]);
        k := k + 1;
      }
      AtTheEnd(list, k, hazards, previous, pending, done, destroyed);
    }

    /** Without more published pointers than the cache has entries and one: an entry is destroyed if and only if
        no used subscriber publishes its pointer. An entry that nobody publishes is destroyed in any case. */
    ghost predicate Reclaimed(before: seq<Hazard>, freed: seq<Pointer>, subscribers: seq<Subscriber>)
      reads this
    {
      && |pending| + |freed| == |before| && (forall e | e in pending :: e in before)
      && (forall e | e in before && !Publishes(subscribers, e.pointer) :: e !in pending && e.pointer in freed)
      && (|Published(subscribers)| <= cacheSize + 1 ==>
            forall e | e in before && Publishes(subscribers, e.pointer) :: e in pending && e.pointer !in freed)
    }

    /** `ck_hp_reclaim`. The entries that are destroyed are destroyed newest first, and the others stay in the
        list, in order. It finds the subscribers through `global`. */
    method Reclaim(subscribers: seq<Subscriber>)
      requires Valid() && !overwritten
      modifies this, cache, entries
      ensures Valid() && entries == old(entries) && old(destroyed) <= destroyed
      ensures Reclaimed(old(pending), destroyed[|old(destroyed)|..], subscribers)
      ensures var h := Caught(AllHazards(subscribers), cacheSize);
              pending == Kept(old(pending), h) && destroyed == old(destroyed) + Freed(old(pending), h)
      ensures overwritten <==> |Published(subscribers)| > cacheSize
    {
      hide Hazards;
      hide Publishes;
      hide Published;
      var n := MemberCache(subscribers);
      SweepPending(n);
      hide Kept;
      hide Freed;
      hide Caught;
      assert destroyed[|old(destroyed)|..] == Freed(old(pending), Caught(AllHazards(subscribers), cacheSize));
      SweepReclaims(old(pending), subscribers);
    }

    lemma SweepReclaims(list: seq<Hazard>, subscribers: seq<Subscriber>)
      requires pending == Kept(list, Caught(AllHazards(subscribers), cacheSize))
      ensures Reclaimed(list, Freed(list, Caught(AllHazards(subscribers), cacheSize)), subscribers)
    {
      hide Hazards;
      hide Publishes;
      hide Published;
      hide Caught;
      var h := Caught(AllHazards(subscribers), cacheSize);
      NothingLost(list, h);
      KeptIsKept(list, h);
      hide Kept;
      hide Freed;
      forall e | e in list
        ensures !Publishes(subscribers, e.pointer) ==> e !in Kept(list, h) && e.pointer in Freed(list, h)
        ensures Publishes(subscribers, e.pointer) && |Published(subscribers)| <= cacheSize + 1 ==>
                  e in Kept(list, h) && e.pointer !in Freed(list, h)
      {
        ReclaimSparesPublished(list, subscribers, cacheSize, e);
      }
    }
  }

  /** The first k entries have been visited; `previous` is the last one kept. */
  ghost predicate Swept(list: seq<Hazard>, k: nat, hazards: seq<Pointer>, previous: Hazard?, pending: seq<Hazard>,
                        done: seq<Pointer>, destroyed: seq<Pointer>)
    requires k <= |list|
  {
    && previous == Last(Kept(list[..k], hazards)) && pending == Kept(list[..k], hazards) + list[k..]
    && destroyed == done + Freed(list[..k], hazards)
  }

  lemma NoneYet(list: seq<Hazard>, hazards: seq<Pointer>, done: seq<Pointer>)
    ensures Swept(list, 0, hazards, null, list, done, done)
  {
    assert list[..0] == [] && list[0..] == list;
  }

  lemma AtTheEnd(list: seq<Hazard>, k: nat, hazards: seq<Pointer>, previous: Hazard?, pending: seq<Hazard>,
                 done: seq<Pointer>, destroyed: seq<Pointer>)
    requires k <= |list| && Nth(list, k) == null && Swept(list, k, hazards, previous, pending, done, destroyed)
    ensures pending == Kept(list, hazards) && destroyed == done + Freed(list, hazards)
  {
    assert list[..k] == list && list[k..] == [];
  }

  lemma Shifted(kept: seq<Hazard>, entry: Hazard, rest: seq<Hazard>, i: nat)
    requires i < |kept| + |rest|
    ensures var before, after := kept + [entry] + rest, kept + rest;
            var j := if i < |kept| then i else i + 1;
            after[i] == before[j] && (if i + 1 == |kept| then Nth(after, i + 1) == Nth(rest, 0)
                                      else Nth(after, i + 1) == Nth(before, j + 1))
  {}

  lemma GapClosed(kept: seq<Hazard>, entry: Hazard, rest: seq<Hazard>)
    requires var before := kept + [entry] + rest; forall i, j | 0 <= i < j < |before| :: before[i] != before[j]
    ensures var after := kept + rest; forall i, j | 0 <= i < j < |after| :: after[i] != after[j]
    ensures forall e | e in kept + rest :: e in kept + [entry] + rest
  {
    var before, after := kept + [entry] + rest, kept + rest;
    forall i, j | 0 <= i < j < |after| ensures after[i] != after[j] {
      assert after[i] == before[if i < |kept| then i else i + 1] && after[j] == before[if j < |kept| then j else j + 1];
    }
  }

  /** Visiting one more entry keeps it or frees it. */
  lemma OneMore(list: seq<Hazard>, k: nat, hazards: seq<Pointer>, previous: Hazard?, pending: seq<Hazard>,
                done: seq<Pointer>, destroyed: seq<Pointer>)
    requires k < |list| && Swept(list, k, hazards, previous, pending, done, destroyed)
    ensures var e, kept, rest := list[k], Kept(list[..k], hazards), list[k + 1..];
            && pending == kept + [e] + rest && previous == Last(kept) && Nth(rest, 0) == Nth(list, k + 1)
            && var kept' := kept + if e.pointer in hazards then [e] else [];
               Swept(list, k + 1, hazards, Last(kept'), kept' + rest, done,
                     destroyed + if e.pointer in hazards then [] else [e.pointer])
  {
    var e := list[k];
    assert list[..k + 1][..k] == list[..k] && list[k..] == [e] + list[k + 1..];
    Reassociate(Kept(list[..k], hazards), [e], list[k + 1..]);
    Reassociate(done, Freed(list[..k], hazards), if e.pointer in hazards then [] else [e.pointer]);
  }

  function Last(list: seq<Hazard>): Hazard? {
    if list == [] then null else list[|list| - 1]
  }
}
