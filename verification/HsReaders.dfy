/** Lock-free lookups of ck_hs.c beside a single writer: one shared load or store per step. */
module HsReaders {
  import opened Wrappers
  import opened MapSizes
  import opened HashKeys
  import opened HsTable

  /** Where a thread stands in ck_hs_get. `table` is the index of the map it has loaded, `g` the
      generation, `limit` the probe bound, `p` the next probe position. */
  datatype Pc =
    | Idle
    | LoadMap(key: Key)
    | LoadGeneration(key: Key, table: nat)
    | LoadBound(key: Key, table: nat, g: nat)
    | LoadMaximum(key: Key, table: nat, g: nat)
    | Probing(key: Key, table: nat, g: nat, limit: nat, p: nat)
    | Reload(key: Key, table: nat, g: nat, found: Option<Key>)
    | Done(key: Key, found: Option<Key>)

  /** Every map ever published, oldest first; the last one is current, the others are never
      written again. */
  datatype State = State(tables: seq<Table>, doomed: Option<nat>, readers: seq<Pc>)

  function Current(s: State): Table
    requires |s.tables| > 0
  {
    s.tables[|s.tables| - 1]
  }

  function Doomed(s: State, j: nat): Option<nat> {
    if j + 1 == |s.tables| then s.doomed else None
  }

  ghost predicate Inv(s: State) {
    && |s.tables| > 0
    && (forall j: nat | j < |s.tables| :: Good(s.tables[j], Doomed(s, j)))
    && (forall j: nat | j < |s.tables| :: s.tables[j].cb == s.tables[0].cb)
    && (forall t | 0 <= t < |s.readers| :: MapExists(s, s.readers[t]))
  }

  predicate HasMap(pc: Pc) {
    !pc.Idle? && !pc.LoadMap? && !pc.Done?
  }

  ghost predicate MapExists(s: State, pc: Pc) {
    HasMap(pc) ==> pc.table < |s.tables|
  }

  ghost predicate Init(s: State) {
    && |s.tables| == 1 && s.doomed == None && Good(s.tables[0], None)
    && forall t | 0 <= t < |s.readers| :: s.readers[t] == Idle
  }

  // ----- steps

  ghost predicate Call(s: State, s': State, t: nat, key: Key) {
    t < |s.readers| && s.readers[t].Idle? && s' == s.(readers := s.readers[t := LoadMap(key)])
  }

  ghost predicate Return(s: State, s': State, t: nat) {
    t < |s.readers| && s.readers[t].Done? && s' == s.(readers := s.readers[t := Idle])
  }

  function Hashed(s: State, pc: Pc): nat
    requires HasMap(pc) && pc.table < |s.tables|
  {
    s.tables[pc.table].cb.hf(pc.key)
  }

  function Generation(s: State, pc: Pc): nat
    requires HasMap(pc) && pc.table < |s.tables| && |s.tables[pc.table].gen| == 2
  {
    s.tables[pc.table].gen[Hashed(s, pc) % 2]
  }

  /** The bound of the home slot, or the map's maximum if there is no bound or it is saturated. */
  function AfterBound(s: State, pc: Pc): Pc
    requires pc.LoadBound? && pc.table < |s.tables|
    requires var t := s.tables[pc.table]; 0 < |t.slots| && (|t.bounds| == 0 || |t.bounds| == |t.slots|)
  {
    var t, o := s.tables[pc.table], Home(|s.tables[pc.table].slots|, Hashed(s, pc));
    if |t.bounds| == 0 || t.bounds[o] == WORD_MAX
    then LoadMaximum(pc.key, pc.table, pc.g)
    else Probing(pc.key, pc.table, pc.g, t.bounds[o], 0)
  }

  ghost function AfterProbe(s: State, pc: Pc): Pc
    requires pc.Probing? && pc.table < |s.tables| && Shape(|s.tables[pc.table].slots|)
  {
    if pc.p == pc.limit then Reload(pc.key, pc.table, pc.g, None)
    else
      var slot := At(s.tables[pc.table], Hashed(s, pc), pc.p);
      if slot.Empty? then Reload(pc.key, pc.table, pc.g, None)
      else if slot.Entry? && Same(s.tables[pc.table].cb, slot.key, pc.key)
      then Reload(pc.key, pc.table, pc.g, Some(slot.key))
      else Probing(pc.key, pc.table, pc.g, pc.limit, pc.p + 1)
  }

  /** The next pc of a lookup in progress. */
  ghost function Advance(s: State, pc: Pc): Pc
    requires Inv(s) && MapExists(s, pc) && !pc.Idle? && !pc.Done?
  {
    match pc
    case LoadMap(key) => LoadGeneration(key, |s.tables| - 1)
    case LoadGeneration(key, table) => LoadBound(key, table, Generation(s, pc))
    case LoadBound(_, _, _) => AfterBound(s, pc)
    case LoadMaximum(key, table, g) => Probing(key, table, g, s.tables[table].maximum, 0)
    case Probing(_, _, _, _, _) => AfterProbe(s, pc)
    case Reload(key, table, g, found) => if g == Generation(s, pc) then Done(key, found) else LoadMap(key)
  }

  ghost predicate ReaderStep(s: State, s': State, t: nat) {
    && Inv(s) && t < |s.readers| && !s.readers[t].Idle? && !s.readers[t].Done?
    && s' == s.(readers := s.readers[t := Advance(s, s.readers[t])])
  }

  /** The writer stores into the current map, or publishes a new one. */
  ghost predicate WriterStep(s: State, s': State) {
    && Inv(s) && s'.readers == s.readers
    && ( || ( && |s'.tables| == |s.tables| && s'.tables[..|s.tables| - 1] == s.tables[..|s.tables| - 1]
              && InPlaceStep(s, s'))
         || ( && |s'.tables| == |s.tables| + 1 && s'.tables[..|s.tables|] == s.tables
              && PublishStep(s, s')))
  }

  ghost predicate InPlaceStep(s: State, s': State) {
    && |s.tables| > 0 && |s'.tables| > 0
    && Good(Current(s'), s'.doomed)
    && InPlace(Snapshot(Current(s), s.doomed), Snapshot(Current(s'), s'.doomed))
  }

  ghost predicate PublishStep(s: State, s': State) {
    && |s.tables| > 0 && |s'.tables| > 0
    && Good(Current(s'), s'.doomed)
    && Publishes(Snapshot(Current(s), s.doomed), Snapshot(Current(s'), s'.doomed))
  }

  ghost predicate Next(s: State, s': State) {
    || (exists t, key :: Call(s, s', t, key))
    || (exists t :: Return(s, s', t))
    || (exists t :: ReaderStep(s, s', t))
    || WriterStep(s, s')
  }

  ghost predicate StepAt(run: seq<State>, i: nat) {
    i + 1 < |run| && Next(run[i], run[i + 1])
  }

  ghost predicate IsRun(run: seq<State>) {
    |run| > 0 && Init(run[0]) && forall i: nat | i + 1 < |run| :: StepAt(run, i)
  }

  // ----- the state invariant

  lemma InPlaceKeepsCallbacks(s: Snapshot, s': Snapshot)
    requires InPlace(s, s')
    ensures s'.table.cb == s.table.cb && |s'.table.slots| == |s.table.slots|
  {}

  lemma WriterKeeps(s: State, s': State)
    requires Inv(s) && WriterStep(s, s')
    ensures Inv(s')
    ensures forall j: nat | j + 1 < |s.tables| :: s'.tables[j] == s.tables[j]
  {
    assert forall j: nat | j + 1 < |s.tables| :: s'.tables[j] == s'.tables[..|s.tables| - 1][j];
    if |s'.tables| == |s.tables| {
      InPlaceKeepsCallbacks(Snapshot(Current(s), s.doomed), Snapshot(Current(s'), s'.doomed));
    } else {
      assert forall j: nat | j < |s.tables| :: s'.tables[j] == s'.tables[..|s.tables|][j];
    }
    forall j: nat | j < |s'.tables| ensures Good(s'.tables[j], Doomed(s', j)) {
      if j < |s.tables| { assert Good(s.tables[j], Doomed(s, j)); }
    }
    forall t | 0 <= t < |s'.readers| ensures MapExists(s', s'.readers[t]) {
      assert MapExists(s, s.readers[t]);
    }
  }

  lemma NextKeeps(s: State, s': State)
    requires Inv(s) && Next(s, s')
    ensures Inv(s')
  {
    if WriterStep(s, s') {
      WriterKeeps(s, s');
    } else {
      assert forall j: nat | j < |s.tables| :: Doomed(s', j) == Doomed(s, j);
      forall t | 0 <= t < |s'.readers| ensures MapExists(s', s'.readers[t]) {
        assert MapExists(s, s.readers[t]);
      }
    }
  }

  lemma {:induction false} RunKeeps(run: seq<State>, i: nat)
    requires IsRun(run) && i < |run|
    ensures Inv(run[i])
  {
    if i > 0 {
      RunKeeps(run, i - 1);
      assert StepAt(run, i - 1);
      NextKeeps(run[i - 1], run[i]);
    } else {
      assert Doomed(run[0], 0) == None;
    }
  }

  /** The state in which the writer's next store has been made. */
  ghost function AfterStore(s: State, sn': Snapshot): State
    requires |s.tables| > 0
  {
    if InPlace(Snapshot(Current(s), s.doomed), sn')
    then State(s.tables[|s.tables| - 1 := sn'.table], sn'.doomed, s.readers)
    else State(s.tables + [sn'.table], sn'.doomed, s.readers)
  }

  /** Every store in the log of a published map is a writer's step here. */
  lemma LegalStoreIsWriterStep(s: State, sn': Snapshot)
    requires Inv(s) && Legal(Snapshot(Current(s), s.doomed), sn')
    ensures WriterStep(s, AfterStore(s, sn'))
    ensures Current(AfterStore(s, sn')) == sn'.table && AfterStore(s, sn').doomed == sn'.doomed
  {
    hide Pos;
    hide Good;
    hide InPlace;
    var s' := AfterStore(s, sn');
    if InPlace(Snapshot(Current(s), s.doomed), sn') {
      assert s'.tables[..|s.tables| - 1] == s.tables[..|s.tables| - 1];
    } else {
      assert s'.tables[..|s.tables|] == s.tables;
    }
  }

  // ----- one lookup while its key stays in the set

  /** Some key equivalent to `key` is in the current map. */
  ghost predicate Present(s: State, key: Key) {
    |s.tables| > 0 && Has(Current(s), key)
  }

  ghost predicate AheadAt(sn: Snapshot, key: Key, p: nat, limit: nat, n: nat) {
    && Formed(sn.table) && p <= n < limit && NoEmptyBefore(sn.table, sn.table.cb.hf(key), n)
    && var i := Pos(|sn.table.slots|, sn.table.cb.hf(key), n);
       Holds(sn.table, i, key) && sn.doomed != Some(i)
  }

  function View(s: State, j: nat): Snapshot
    requires j < |s.tables|
  {
    Snapshot(s.tables[j], Doomed(s, j))
  }

  /** Nobody has signalled the reader's generation since it was loaded. */
  ghost predicate Undisturbed(s: State, pc: Pc, g: nat)
    requires Inv(s) && HasMap(pc) && MapExists(s, pc)
  {
    g == Generation(s, pc)
  }

  ghost predicate Ahead(s: State, pc: Pc)
    requires pc.Probing? && pc.table < |s.tables|
  {
    exists n: nat :: AheadAt(View(s, pc.table), pc.key, pc.p, pc.limit, n)
  }

  ghost predicate Matches(c: Callbacks, key: Key, found: Option<Key>) {
    found.Some? && Same(c, found.value, key)
  }

  /** Unless the reader is going to start over, its key is still ahead of it, or already found. */
  ghost predicate ReaderInv(s: State, pc: Pc)
    requires Inv(s) && MapExists(s, pc)
  {
    match pc
    case Idle => false
    case LoadMap(_) => true
    case LoadGeneration(key, table) => Has(s.tables[table], key)
    case LoadBound(key, table, g) => Has(s.tables[table], key) && g <= Generation(s, pc)
    case LoadMaximum(key, table, g) => Has(s.tables[table], key) && g <= Generation(s, pc)
    case Probing(_, _, g, _, _) => g <= Generation(s, pc) && (Undisturbed(s, pc, g) ==> Ahead(s, pc))
    case Reload(key, _, g, found) =>
      g <= Generation(s, pc) && (Undisturbed(s, pc, g) ==> Matches(s.tables[0].cb, key, found))
    case Done(key, found) => Matches(s.tables[0].cb, key, found)
  }

  lemma StartsAhead(s: State, key: Key, table: nat, g: nat, limit: nat)
    requires Inv(s) && table < |s.tables| && Has(s.tables[table], key)
    requires limit == Bound(s.tables[table], s.tables[table].cb.hf(key))
          || limit == s.tables[table].maximum
    ensures Ahead(s, Probing(key, table, g, limit, 0))
  {
    hide Pos;
    assert Good(s.tables[table], Doomed(s, table));
    var n := FindableTwin(s.tables[table], Doomed(s, table), key);
    assert AheadAt(View(s, table), key, 0, limit, n);
  }

  lemma ProbeGoesOn(s: State, pc: Pc)
    requires Inv(s) && pc.Probing? && MapExists(s, pc) && Ahead(s, pc) && Shape(|s.tables[pc.table].slots|)
    ensures var pc' := AfterProbe(s, pc);
            if pc'.Probing? then Ahead(s, pc') else pc'.Reload? && Matches(s.tables[0].cb, pc.key, pc'.found)
  {
    hide Pos;
    var n: nat :| AheadAt(View(s, pc.table), pc.key, pc.p, pc.limit, n);
    var t := s.tables[pc.table];
    assert Good(t, Doomed(s, pc.table));
    assert At(t, t.cb.hf(pc.key), pc.p) != Empty;
    var slot := At(t, t.cb.hf(pc.key), pc.p);
    if slot.Entry? { SameIsSameClass(t.cb, slot.key, pc.key); }
    if pc.p < n {
      assert AheadAt(View(s, pc.table), pc.key, pc.p + 1, pc.limit, n);
    }
  }

  lemma ReaderKeeps(s: State, pc: Pc)
    requires Inv(s) && MapExists(s, pc) && !pc.Idle? && !pc.Done? && ReaderInv(s, pc) && Present(s, pc.key)
    ensures MapExists(s, Advance(s, pc)) && ReaderInv(s, Advance(s, pc))
  {
    hide Pos;
    match pc
    case LoadBound(key, table, g) =>
      StartsAhead(s, key, table, g, Bound(s.tables[table], s.tables[table].cb.hf(key)));
    case LoadMaximum(key, table, g) => StartsAhead(s, key, table, g, s.tables[table].maximum);
    case Probing(_, _, g, _, _) => if Undisturbed(s, pc, g) { ProbeGoesOn(s, pc); }
    case _ =>
  }

  /** A store leaves the key ahead of a reader, unless it signals the reader's generation. */
  lemma StoreKeepsAhead(sn: Snapshot, sn': Snapshot, key: Key, p: nat, limit: nat, n: nat)
    requires Good(sn.table, sn.doomed) && Good(sn'.table, sn'.doomed) && InPlace(sn, sn')
    requires AheadAt(sn, key, p, limit, n) && Has(sn'.table, key)
    ensures var b := sn.table.cb.hf(key) % 2;
            sn'.table.gen[b] > sn.table.gen[b] || AheadAt(sn', key, p, limit, n)
  {
    hide Pos;
    var h := sn.table.cb.hf(key);
    var at := Pos(|sn.table.slots|, h, n);
    SameIsSameClass(sn.table.cb, sn.table.slots[at].key, key);
    if i :| StoresTombstone(sn, sn', i) {
      StillNotEmpty(sn, sn', h, n, i, Tombstone);
      var j: nat :| Holds(sn'.table, j, key);
      assert i == at ==> Twin(sn.table, i, j);
    } else if i, k :| StoresEntry(sn, sn', i, k) {
      StillNotEmpty(sn, sn', h, n, i, Entry(k));
    } else {
      assert forall m: nat | m < n :: At(sn'.table, h, m) == At(sn.table, h, m);
    }
  }

  lemma StillNotEmpty(sn: Snapshot, sn': Snapshot, h: nat, n: nat, i: nat, v: Slot)
    requires Formed(sn.table) && NoEmptyBefore(sn.table, h, n) && i < |sn.table.slots| && v != Empty
    requires sn'.table.slots == sn.table.slots[i := v]
    ensures NoEmptyBefore(sn'.table, h, n)
  {
    hide Pos;
    forall m: nat | m < n ensures At(sn'.table, h, m) != Empty {
      assert At(sn.table, h, m) != Empty;
    }
  }

  lemma StoreKeepsGenerations(sn: Snapshot, sn': Snapshot, b: nat)
    requires Formed(sn.table) && Formed(sn'.table) && InPlace(sn, sn') && b < 2
    ensures sn.table.gen[b] <= sn'.table.gen[b]
  {
    hide Pos;
  }

  lemma OtherMapsKeepReader(s: State, s': State, pc: Pc)
    requires Inv(s) && Inv(s') && MapExists(s, pc) && MapExists(s', pc) && ReaderInv(s, pc)
    requires s'.tables[0].cb == s.tables[0].cb
    requires HasMap(pc) ==> View(s', pc.table) == View(s, pc.table)
    ensures ReaderInv(s', pc)
  {
    hide Pos;
    hide Good;
  }

  lemma StoreKeepsReader(s: State, s': State, pc: Pc)
    requires Inv(s) && Inv(s') && HasMap(pc) && pc.table + 1 == |s.tables| == |s'.tables| && ReaderInv(s, pc)
    requires s'.tables[0].cb == s.tables[0].cb && InPlaceStep(s, s') && Present(s', pc.key)
    ensures ReaderInv(s', pc)
  {
    hide Pos;
    var sn, sn' := View(s, pc.table), View(s', pc.table);
    assert Good(sn.table, sn.doomed) && Good(sn'.table, sn'.doomed);
    InPlaceKeepsCallbacks(sn, sn');
    StoreKeepsGenerations(sn, sn', Hashed(s, pc) % 2);
    if pc.Probing? && Undisturbed(s, pc, pc.g) {
      var n: nat :| AheadAt(sn, pc.key, pc.p, pc.limit, n);
      StoreKeepsAhead(sn, sn', pc.key, pc.p, pc.limit, n);
    }
  }

  lemma WriterKeepsReader(s: State, s': State, pc: Pc)
    requires Inv(s) && WriterStep(s, s') && MapExists(s, pc) && ReaderInv(s, pc)
    requires !pc.Idle? && Present(s', pc.key)
    ensures Inv(s') && MapExists(s', pc) && ReaderInv(s', pc)
  {
    hide Pos;
    hide Good;
    WriterKeeps(s, s');
    if HasMap(pc) && pc.table + 1 == |s'.tables| {
      StoreKeepsReader(s, s', pc);
    } else {
      OtherMapsKeepReader(s, s', pc);
    }
  }

  lemma NextKeepsReader(s: State, s': State, t: nat)
    requires Inv(s) && Next(s, s') && Inv(s') && t < |s.readers| && t < |s'.readers|
    requires !s.readers[t].Idle? && !s'.readers[t].Idle?
    requires ReaderInv(s, s.readers[t]) && Present(s, s.readers[t].key) && Present(s', s.readers[t].key)
    ensures s'.readers[t].key == s.readers[t].key && ReaderInv(s', s'.readers[t])
  {
    hide Pos;
    hide Good;
    if WriterStep(s, s') {
      WriterKeepsReader(s, s', s.readers[t]);
    } else if ReaderStep(s, s', t) {
      ReaderKeeps(s, s.readers[t]);
      OtherMapsKeepReader(s, s', s'.readers[t]);
    } else {
      OtherMapsKeepReader(s, s', s.readers[t]);
    }
  }

  // ----- whole calls

  /** Thread t calls get(key) at instant a and has not returned by instant b. */
  ghost predicate InCall(run: seq<State>, a: nat, b: nat, t: nat, key: Key) {
    && a <= b < |run|
    && (forall i: nat | a <= i <= b :: t < |run[i].readers| && !run[i].readers[t].Idle?)
    && run[a].readers[t] == LoadMap(key)
  }

  ghost predicate PresentAt(run: seq<State>, i: nat, key: Key) {
    i < |run| && Present(run[i], key)
  }

  lemma {:induction false} CallInv(run: seq<State>, a: nat, b: nat, t: nat, key: Key)
    requires IsRun(run) && InCall(run, a, b, t, key)
    requires forall i: nat | a <= i <= b :: PresentAt(run, i, key)
    ensures Inv(run[b]) && MapExists(run[b], run[b].readers[t])
    ensures run[b].readers[t].key == key && ReaderInv(run[b], run[b].readers[t])
    decreases b
  {
    hide Good;
    RunKeeps(run, b);
    if a < b {
      CallInv(run, a, b - 1, t, key);
      assert StepAt(run, b - 1) && PresentAt(run, b - 1, key) && PresentAt(run, b, key);
      NextKeepsReader(run[b - 1], run[b], t);
    }
  }

  /** A lookup never misses a key that stays in the set for the whole call, though the writer may
      move it to another slot, lower its bounds or publish a larger map meanwhile. */
  lemma GetNeverMisses(run: seq<State>, a: nat, b: nat, t: nat, key: Key)
    requires IsRun(run) && InCall(run, a, b, t, key) && run[b].readers[t].Done?
    requires forall i: nat | a <= i <= b :: PresentAt(run, i, key)
    ensures |run[b].tables| > 0 && Matches(Current(run[b]).cb, key, run[b].readers[t].found)
  {
    CallInv(run, a, b, t, key);
  }

  /** The table of map j, as it is at instant b, was current at an instant of the call. */
  ghost predicate WasCurrentAt(run: seq<State>, a: nat, b: nat, j: nat, i: nat) {
    && a <= i <= b < |run| && |run[i].tables| == j + 1 && j < |run[b].tables|
    && run[b].tables[j] == Current(run[i])
  }

  ghost predicate WasCurrent(run: seq<State>, a: nat, b: nat, j: nat) {
    exists i: nat :: WasCurrentAt(run, a, b, j, i)
  }

  ghost predicate InTable(t: Table, key: Key) {
    Entry(key) in t.slots
  }

  /** `k` is equivalent to `key` and was in the current map at instant i. */
  ghost predicate SeenAt(run: seq<State>, a: nat, b: nat, key: Key, k: Key, i: nat) {
    && a <= i <= b < |run| && |run[i].tables| > 0
    && InTable(Current(run[i]), k) && Same(Current(run[i]).cb, k, key)
  }

  ghost predicate Seen(run: seq<State>, a: nat, b: nat, key: Key, k: Key) {
    exists i: nat :: SeenAt(run, a, b, key, k, i)
  }

  /** What the lookup has loaded was current, and what it has found was stored, during the call. */
  ghost predicate Genuine(run: seq<State>, a: nat, b: nat, pc: Pc) {
    && (HasMap(pc) ==> WasCurrent(run, a, b, pc.table))
    && (pc.Reload? && pc.found.Some? ==> Seen(run, a, b, pc.key, pc.found.value))
    && (pc.Done? && pc.found.Some? ==> Seen(run, a, b, pc.key, pc.found.value))
  }

  lemma StaysWasCurrent(run: seq<State>, a: nat, b: nat, j: nat)
    requires a <= b < |run| - 1 && Inv(run[b]) && Next(run[b], run[b + 1]) && WasCurrent(run, a, b, j)
    ensures WasCurrent(run, a, b + 1, j)
  {
    hide Pos;
    hide Good;
    var i: nat :| WasCurrentAt(run, a, b, j, i);
    var s, s' := run[b], run[b + 1];
    if WriterStep(s, s') { WriterKeeps(s, s'); }
    if j + 1 == |s'.tables| {
      assert WasCurrentAt(run, a, b + 1, j, b + 1);
    } else {
      assert s'.tables[j] == s.tables[j] by {
        if |s'.tables| == |s.tables| + 1 { assert s'.tables[..|s.tables|][j] == s.tables[j]; }
      }
      assert WasCurrentAt(run, a, b + 1, j, i);
    }
  }

  lemma StaysSeen(run: seq<State>, a: nat, b: nat, key: Key, k: Key)
    requires b + 1 < |run| && Seen(run, a, b, key, k)
    ensures Seen(run, a, b + 1, key, k)
  {
    var i: nat :| SeenAt(run, a, b, key, k, i);
    assert SeenAt(run, a, b + 1, key, k, i);
  }

  /** An own step: the map loaded is the current one, the key found comes from the map's table. */
  lemma AdvanceIsGenuine(run: seq<State>, a: nat, b: nat, pc: Pc)
    requires a <= b < |run| - 1 && Inv(run[b]) && run[b + 1].tables == run[b].tables
    requires MapExists(run[b], pc) && !pc.Idle? && !pc.Done? && Genuine(run, a, b, pc)
    requires HasMap(pc) ==> WasCurrent(run, a, b + 1, pc.table)
    ensures Genuine(run, a, b + 1, Advance(run[b], pc))
  {
    hide Pos;
    var s, pc' := run[b], Advance(run[b], pc);
    if HasMap(pc) { assert Good(s.tables[pc.table], Doomed(s, pc.table)); }
    if pc.LoadMap? {
      assert WasCurrentAt(run, a, b + 1, |s.tables| - 1, b + 1);
    } else if pc.Probing? && pc'.Reload? && pc'.found.Some? {
      var i: nat :| WasCurrentAt(run, a, b, pc.table, i);
      assert s.tables[pc.table].slots[Pos(|s.tables[pc.table].slots|, Hashed(s, pc), pc.p)] == Entry(pc'.found.value);
      assert SeenAt(run, a, b + 1, pc.key, pc'.found.value, i);
    } else if pc.Reload? && pc.found.Some? {
      StaysSeen(run, a, b, pc.key, pc.found.value);
    }
  }

  lemma {:induction false} CallIsGenuine(run: seq<State>, a: nat, b: nat, t: nat, key: Key)
    requires IsRun(run) && InCall(run, a, b, t, key)
    ensures run[b].readers[t].key == key && Genuine(run, a, b, run[b].readers[t])
    decreases b
  {
    hide Pos;
    hide Good;
    if a < b {
      CallIsGenuine(run, a, b - 1, t, key);
      RunKeeps(run, b - 1);
      assert StepAt(run, b - 1);
      var s, s', pc := run[b - 1], run[b], run[b - 1].readers[t];
      assert MapExists(s, pc);
      if HasMap(pc) { StaysWasCurrent(run, a, b - 1, pc.table); }
      if ReaderStep(s, s', t) {
        AdvanceIsGenuine(run, a, b - 1, pc);
      } else {
        assert s'.readers[t] == pc;
        if (pc.Reload? || pc.Done?) && pc.found.Some? { StaysSeen(run, a, b - 1, key, pc.found.value); }
      }
    }
  }

  /** At instant i the set has the answer of the lookup: an equivalent key it stored, or none. */
  ghost predicate Answers(run: seq<State>, i: nat, key: Key, found: Option<Key>) {
    && i < |run| && |run[i].tables| > 0
    && if found.Some? then InTable(Current(run[i]), found.value) && Same(Current(run[i]).cb, found.value, key)
       else !Present(run[i], key)
  }

  /** Every lookup is atomic: its answer is right at some instant of the call. */
  lemma GetIsAtomic(run: seq<State>, a: nat, b: nat, t: nat, key: Key)
    requires IsRun(run) && InCall(run, a, b, t, key) && run[b].readers[t].Done?
    ensures exists i: nat :: a <= i <= b && Answers(run, i, key, run[b].readers[t].found)
  {
    hide Pos;
    hide Good;
    var found := run[b].readers[t].found;
    if found.Some? {
      CallIsGenuine(run, a, b, t, key);
      var i: nat :| SeenAt(run, a, b, key, found.value, i);
      assert Answers(run, i, key, found);
    } else {
      if forall i: nat | a <= i <= b :: PresentAt(run, i, key) {
        GetNeverMisses(run, a, b, t, key);
        assert false;
      }
      var i: nat :| a <= i <= b && !PresentAt(run, i, key);
      RunKeeps(run, i);
      assert Answers(run, i, key, found);
    }
  }
}
