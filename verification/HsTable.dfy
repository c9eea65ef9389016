/** The open-addressed table of ck_hs.c as a value, and the stores a writer may make to it
    while readers are looking. */
module HsTable {
  import opened Bits
  import opened Wrappers
  import opened MapSizes
  import opened HashKeys

  datatype Slot = Empty | Tombstone | Entry(key: Key)

  // ----- the probe sequence

  lemma {:induction false} AndAtMost(x: nat, y: nat)
    ensures And(x, y) <= y
  {
    if x != 0 && y != 0 { AndAtMost(x / 2, y / 2); }
  }

  function Home(capacity: nat, h: nat): (o: nat)
    requires 0 < capacity
    ensures o < capacity
  {
    AndAtMost(h, capacity - 1);
    And(h, capacity - 1)
  }

  /** A right shift by the exponent of d. */
  function Shifted(h: nat, d: nat): nat
    requires 0 < d
  {
    h / d
  }

  /** `stride | 8`: bit 3 of the stride is always clear, so the union is a sum. */
  function Stride(capacity: nat, h: nat, level: nat): nat
    requires 0 < capacity
  {
    var r := Shifted(Shifted(h, 2 * capacity), Pow2(level));
    r / 8 * 16 + r % 8 + 8
  }

  /** `ck_hs_map_probe_next`. */
  function ProbeNext(capacity: nat, offset: nat, h: nat, level: nat, probes: nat): (o: nat)
    requires 0 < capacity
    ensures o < capacity
  {
    Home(capacity, offset + probes / 8 + Stride(capacity, h, level))
  }

  /** Where the probe sequence of h enters its i-th cache line. */
  function Line(capacity: nat, h: nat, i: nat): (o: nat)
    requires 0 < capacity
    ensures o < capacity
  {
    if i == 0 then Home(capacity, h) else ProbeNext(capacity, Line(capacity, h, i - 1), h, i - 1, 8 * i)
  }

  /** The j-th slot of the line that contains `offset`, starting from `offset` and wrapping around. */
  function InLine(capacity: nat, offset: nat, j: nat): (p: nat)
    requires Shape(capacity) && offset < capacity
    ensures p < capacity
  {
    ShapeIsLines(capacity);
    offset - offset % 8 + (j + offset) % 8
  }

  /** The slot at position n of the probe sequence of h. */
  function Pos(capacity: nat, h: nat, n: nat): (p: nat)
    requires Shape(capacity)
    ensures p < capacity
  {
    InLine(capacity, Line(capacity, h, n / 8), n % 8)
  }

  // ----- tables

  /** `ck_hs_map`: `bounds` is empty where probe_bound is NULL. */
  datatype Table = Table(
    cb: Callbacks,
    slots: seq<Slot>,
    bounds: seq<nat>,
    maximum: nat,
    limit: nat,
    gen: seq<nat>)

  ghost predicate Formed(t: Table) {
    && Shape(|t.slots|) && (|t.bounds| == 0 || |t.bounds| == |t.slots|) && |t.gen| == 2
    && t.maximum <= t.limit
    && forall o | 0 <= o < |t.bounds| :: t.bounds[o] <= t.limit && t.bounds[o] <= WORD_MAX
  }

  function At(t: Table, h: nat, n: nat): Slot
    requires Shape(|t.slots|)
  {
    t.slots[Pos(|t.slots|, h, n)]
  }

  /** `ck_hs_map_bound_get`. */
  function Bound(t: Table, h: nat): nat
    requires 0 < |t.slots| && (|t.bounds| == 0 || |t.bounds| == |t.slots|)
  {
    if |t.bounds| > 0 && t.bounds[Home(|t.slots|, h)] < WORD_MAX
    then t.bounds[Home(|t.slots|, h)]
    else t.maximum
  }

  /** A lookup of h gets past position n, whichever of the two bounds it ends up using. */
  ghost predicate Covered(t: Table, h: nat, n: nat)
    requires Formed(t)
  {
    n < t.maximum && (|t.bounds| > 0 ==> Capped(n + 1) <= t.bounds[Home(|t.slots|, h)])
  }

  ghost predicate NoEmptyBefore(t: Table, h: nat, n: nat)
    requires Shape(|t.slots|)
  {
    forall m: nat | m < n :: At(t, h, m) != Empty
  }

  function Hash(t: Table, i: nat): nat
    requires i < |t.slots| && t.slots[i].Entry?
  {
    t.cb.hf(t.slots[i].key)
  }

  ghost predicate ReachAt(t: Table, i: nat, n: nat)
    requires Formed(t) && i < |t.slots| && t.slots[i].Entry?
  {
    Pos(|t.slots|, Hash(t, i), n) == i && Covered(t, Hash(t, i), n) && NoEmptyBefore(t, Hash(t, i), n)
  }

  /** Some position of the entry's own probe sequence leads to it. */
  ghost predicate Reach(t: Table, i: nat)
    requires Formed(t) && i < |t.slots| && t.slots[i].Entry?
  {
    exists n: nat :: ReachAt(t, i, n)
  }

  /** Slot i holds an entry of the class of `key`. */
  ghost predicate Holds(t: Table, i: nat, key: Key) {
    i < |t.slots| && t.slots[i].Entry? && Class(t.cb, t.slots[i].key) == Class(t.cb, key)
  }

  ghost predicate Has(t: Table, key: Key) {
    exists i: nat :: Holds(t, i, key)
  }

  /** Slots i and j hold equivalent keys. */
  ghost predicate Twin(t: Table, i: nat, j: nat) {
    i != j && i < |t.slots| && t.slots[i].Entry? && Holds(t, j, t.slots[i].key)
  }

  /** Every entry can be reached. The doomed one, about to be buried, has a twin. */
  ghost predicate Good(t: Table, doomed: Option<nat>) {
    && Formed(t) && Proper(t.cb)
    && (forall i: nat | i < |t.slots| && t.slots[i].Entry? :: Reach(t, i))
    && (doomed.Some? ==> exists j: nat :: Twin(t, doomed.value, j))
  }

  // ----- a writer's stores

  /** What readers share with the writer. `doomed` is the slot the writer has signalled for. */
  datatype Snapshot = Snapshot(table: Table, doomed: Option<nat>)

  ghost predicate StoresMaximum(s: Snapshot, s': Snapshot, n: nat) {
    s' == s.(table := s.table.(maximum := n))
  }

  ghost predicate StoresBound(s: Snapshot, s': Snapshot, o: nat, n: nat) {
    o < |s.table.bounds| && s' == s.(table := s.table.(bounds := s.table.bounds[o := n]))
  }

  /** An entry may overwrite EMPTY, TOMBSTONE or an equivalent entry. */
  ghost predicate StoresEntry(s: Snapshot, s': Snapshot, i: nat, key: Key) {
    && s.doomed == None && i < |s.table.slots|
    && (s.table.slots[i].Entry? ==> Holds(s.table, i, key))
    && s' == s.(table := s.table.(slots := s.table.slots[i := Entry(key)]))
  }

  /** An entry is buried when readers have been signalled, or when it has no twin. */
  ghost predicate StoresTombstone(s: Snapshot, s': Snapshot, i: nat) {
    && i < |s.table.slots| && s.table.slots[i].Entry?
    && (s.doomed == Some(i) || (s.doomed == None && forall j: nat :: !Twin(s.table, i, j)))
    && s' == Snapshot(s.table.(slots := s.table.slots[i := Tombstone]), None)
  }

  /** `ck_hs_map_signal` on the generation of the entry in slot i. */
  ghost predicate Signals(s: Snapshot, s': Snapshot, i: nat) {
    && s.doomed == None && i < |s.table.slots| && s.table.slots[i].Entry? && |s.table.gen| == 2
    && var b := Hash(s.table, i) % 2;
       s' == Snapshot(s.table.(gen := s.table.gen[b := s.table.gen[b] + 1]), Some(i))
  }

  ghost predicate Publishes(s: Snapshot, s': Snapshot) {
    && s.doomed == None == s'.doomed && s'.table.cb == s.table.cb
    && forall k :: Has(s.table, k) <==> Has(s'.table, k)
  }

  ghost predicate InPlace(s: Snapshot, s': Snapshot) {
    || (exists n :: StoresMaximum(s, s', n))
    || (exists o, n :: StoresBound(s, s', o, n))
    || (exists i, key :: StoresEntry(s, s', i, key))
    || (exists i :: StoresTombstone(s, s', i))
    || (exists i :: Signals(s, s', i))
  }

  ghost predicate Legal(s: Snapshot, s': Snapshot) {
    Good(s.table, s.doomed) && Good(s'.table, s'.doomed) && (InPlace(s, s') || Publishes(s, s'))
  }

  // ----- consequences

  /** A key of the table can be found at a covered position that is not about to be buried. */
  lemma FindableTwin(t: Table, doomed: Option<nat>, key: Key) returns (n: nat)
    requires Good(t, doomed) && Has(t, key)
    ensures Covered(t, t.cb.hf(key), n) && NoEmptyBefore(t, t.cb.hf(key), n)
    ensures Holds(t, Pos(|t.slots|, t.cb.hf(key), n), key)
    ensures doomed != Some(Pos(|t.slots|, t.cb.hf(key), n))
  {
    var i: nat :| Holds(t, i, key);
    if doomed == Some(i) {
      i :| Twin(t, doomed.value, i);
    }
    SameIsSameClass(t.cb, t.slots[i].key, key);
    assert Reach(t, i);
    n :| ReachAt(t, i, n);
  }
}
