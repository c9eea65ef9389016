/** Every step of the epoch protocol keeps the invariant. */
module EpochSteps {
  import opened Epoch
  import opened EpochInvariant

  /** A step of t that changes no object and no list is harmless once it keeps t's record and evolves. */
  lemma Assemble(s: State, s': State, t: nat)
    requires Inv(s) && Evolves(s, s', t) && t < |s.recs| == |s'.recs|
    requires RecordInv(s', t) && ListsInv(s', t) && ThreadInv(s', t)
    requires forall u: nat | u < |s.recs| && u != t ::
               Published(s.recs[u], s.pcs[u]) ==> s'.global <= Held(s.recs[u], s.pcs[u]) + 1
    requires forall o | o in s'.objs :: ObjectInv(s', o)
    ensures Inv(s')
  {
    forall u: nat | u < |s'.recs|
      ensures RecordInv(s', u) && ListsInv(s', u) && ThreadInv(s', u)
    {
      if u != t {
        assert RecordInv(s, u) && ListsInv(s, u);
        OthersKeepRecord(s, s', t, u);
        OthersKeepLists(s, s', t, u);
        OthersKeepThread(s, s', t, u);
      }
    }
  }

  lemma ObjectsKept(s: State, s': State, t: nat)
    requires Inv(s) && Evolves(s, s', t) && s'.objs == s.objs
    ensures forall o | o in s'.objs :: ObjectInv(s', o)
  {
    forall o | o in s'.objs ensures ObjectInv(s', o) {
      assert ObjectInv(s, o);
    }
  }

  lemma ListsKept(s: State, s': State, t: nat)
    requires Inv(s) && Evolves(s, s', t) && s'.objs == s.objs && t < |s.recs| && s'.recs[t].pending == s.recs[t].pending
    ensures ListsInv(s', t)
  {
    assert ListsInv(s, t);
    forall k, o | 0 <= k < |s'.recs[t].pending| && o in s'.recs[t].pending[k]
      ensures PendingInv(s', t, k, o)
    {
      assert PendingInv(s, t, k, o);
    }
  }

  /** A step inside the section operations of record t: what it must establish, and nothing else. */
  lemma SectionStepKept(s: State, s': State, t: nat)
    requires Inv(s) && Live(s, t) && |s'.recs| == |s'.pcs| == |s.recs| && s'.global == s.global && s'.objs == s.objs
    requires s.sections <= s'.sections
    requires forall u: nat | u < |s.recs| && u != t :: s'.recs[u] == s.recs[u] && s'.pcs[u] == s.pcs[u]
    requires s'.recs[t].pending == s.recs[t].pending
    requires !(s'.pcs[t].CallPush? || s'.pcs[t].PollPop? || s'.pcs[t].Scan? || s'.pcs[t].Reload?)
    requires !(s'.pcs[t].Advance? || s'.pcs[t].PollLast? || s'.pcs[t].Drain?)
    requires RecordInv(s', t)
    requires forall sid: SectionId | sid < |s.sections| && OpenIn(s'.recs[t], sid) :: OpenIn(s.recs[t], sid)
    requires Published(s'.recs[t], s'.pcs[t]) ==>
               if Published(s.recs[t], s.pcs[t]) then Held(s.recs[t], s.pcs[t]) <= Held(s'.recs[t], s'.pcs[t])
               else s.global <= Held(s'.recs[t], s'.pcs[t])
    ensures Inv(s')
  {
    assert Evolves(s, s', t);
    ListsKept(s, s', t);
    ObjectsKept(s, s', t);
    forall u: nat | u < |s.recs| && u != t && Published(s.recs[u], s.pcs[u])
      ensures s'.global <= Held(s.recs[u], s.pcs[u]) + 1
    {
      assert RecordInv(s, u);
    }
    Assemble(s, s', t);
  }

  lemma BeginOuterKeeps(s: State, s': State, t: nat)
    requires Inv(s) && BeginOuter(s, s', t)
    ensures Inv(s')
  {
    assert RecordInv(s, t);
    SectionStepKept(s, s', t);
  }

  lemma BeginLoadsKeeps(s: State, s': State, t: nat)
    requires Inv(s) && BeginLoads(s, s', t)
    ensures Inv(s')
  {
    assert RecordInv(s, t);
    SectionStepKept(s, s', t);
  }

  lemma BeginStoresKeeps(s: State, s': State, t: nat)
    requires Inv(s) && BeginStores(s, s', t)
    ensures Inv(s')
  {
    assert RecordInv(s, t);
    SectionStepKept(s, s', t);
  }

  lemma BeginNestedKeeps(s: State, s': State, t: nat)
    requires Inv(s) && BeginNested(s, s', t)
    ensures Inv(s')
  {
    assert RecordInv(s, t);
    assert !OpenIn(s.recs[t], |s.sections|);
    forall sid: SectionId | OpenIn(s'.recs[t], sid) && sid != |s.sections| ensures OpenIn(s.recs[t], sid) {}
    SectionStepKept(s, s', t);
  }

  /** The two epochs an open section can have differ in parity, so a used bucket already has this one. */
  lemma BucketOfThisEpoch(s: State, t: nat)
    requires t < |s.recs| == |s.pcs| && RecordInv(s, t) && s.pcs[t] == AddRef
    requires s.recs[t].bucket[s.global % 2].count > 0
    ensures s.recs[t].bucket[s.global % 2].epoch == s.global
  {
    var r, i := s.recs[t], s.global % 2;
    var sid :| sid in r.held[i];
    assert OpenIn(r, sid);
    assert r.epoch <= r.bucket[i].epoch <= s.global <= r.epoch + 1;
  }

  lemma AddsRefKeeps(s: State, s': State, t: nat)
    requires Inv(s) && AddsRef(s, s', t)
    ensures Inv(s')
  {
    assert RecordInv(s, t);
    assert !OpenIn(s.recs[t], |s.sections|);
    forall sid: SectionId | OpenIn(s'.recs[t], sid) && sid != |s.sections| ensures OpenIn(s.recs[t], sid) {}
    if s.recs[t].bucket[s.global % 2].count > 0 {
      BucketOfThisEpoch(s, t);
    }
    SectionStepKept(s, s', t);
  }

  lemma EndPlainKeeps(s: State, s': State, t: nat, sid: SectionId)
    requires Inv(s) && EndPlain(s, s', t, sid)
    ensures Inv(s')
  {
    assert RecordInv(s, t);
    SectionStepKept(s, s', t);
  }

  lemma EndCounted(r: Record, i: nat, sid: SectionId)
    requires Counted(r, Idle) && r.active > 0 && r.used && i < 2 && sid in r.held[i]
    ensures Counted(r.(active := r.active - 1, held := r.held[i := r.held[i] - {sid}]), DelRef(i))
  {
    assert |r.held[i] - {sid}| == |r.held[i]| - 1;
    if i == 0 { assert r.held[0] != {}; } else { assert r.held[1] != {}; }
  }

  lemma EndSectionKeeps(s: State, s': State, t: nat, i: nat, sid: SectionId)
    requires Inv(s) && EndSection(s, s', t, i, sid)
    ensures Inv(s')
  {
    assert RecordInv(s, t);
    EndCounted(s.recs[t], i, sid);
    assert s'.recs[t].held[i] <= s.recs[t].held[i] && s'.recs[t].held[1 - i] == s.recs[t].held[1 - i];
    forall sid: SectionId | OpenIn(s'.recs[t], sid) ensures OpenIn(s.recs[t], sid) {}
    SectionStepKept(s, s', t);
  }

  lemma DropsRefKeeps(s: State, s': State, t: nat)
    requires Inv(s) && DropsRef(s, s', t)
    ensures Inv(s')
  {
    assert RecordInv(s, t);
    var r, j := s.recs[t], (s.pcs[t].i + 1) % 2;
    if r.bucket[j].count > 0 {
      var sid :| sid in r.held[j];
      assert OpenIn(r, sid);
    }
    SectionStepKept(s, s', t);
  }

  // ----- registration

  lemma RegisterKeeps(s: State, s': State, sectioned: bool)
    requires Inv(s) && Register(s, s', sectioned)
    ensures Inv(s')
  {
    var n := |s.recs|;
    assert Evolves(s, s', n);
    ObjectsKept(s, s', n);
    forall u: nat | u < n
      ensures RecordInv(s', u) && ListsInv(s', u) && ThreadInv(s', u)
    {
      assert RecordInv(s, u) && ListsInv(s, u);
      OthersKeepRecord(s, s', n, u);
      OthersKeepLists(s, s', n, u);
      OthersKeepThread(s, s', n, u);
    }
  }

  /** A record outside its sections may be cleared, published as free or taken again. */
  lemma RegistryStepKept(s: State, s': State, t: nat)
    requires Inv(s) && (Unregister(s, s', t) || MarkFree(s, s', t) || exists b :: Recycle(s, s', t, b))
    ensures Inv(s')
  {
    assert RecordInv(s, t);
    assert Evolves(s, s', t);
    ObjectsKept(s, s', t);
    assert ListsInv(s, t);
    if !Unregister(s, s', t) { ListsKept(s, s', t); }
    forall u: nat | u < |s.recs| && u != t && Published(s.recs[u], s.pcs[u])
      ensures s'.global <= Held(s.recs[u], s.pcs[u]) + 1
    {
      assert RecordInv(s, u);
    }
    Assemble(s, s', t);
  }

  // ----- what an open section says about the global epoch

  /** The record of an open section is published, and the section's epoch is recent. */
  lemma OpenIsRecent(s: State, sid: SectionId)
    requires Inv(s) && IsOpen(s, sid)
    ensures var t := s.sections[sid].rec;
            && Published(s.recs[t], s.pcs[t])
            && Held(s.recs[t], s.pcs[t]) <= s.sections[sid].epoch <= s.global <= s.sections[sid].epoch + 1
  {
    var t := s.sections[sid].rec;
    assert RecordInv(s, t);
    var r := s.recs[t];
    assert sid in r.plain || sid in r.held[0] || sid in r.held[1];
    assert OpenSections(r) > 0;
  }

  /** Sections that loaded at most e are over once the global epoch reached e + 2. */
  lemma OldSectionsEnded(s: State, ids: set<SectionId>, e: nat)
    requires Inv(s) && OpenBy(s, ids, e) && e + 2 <= s.global
    ensures Ended(s, ids)
  {
    forall sid | sid in ids ensures !IsOpen(s, sid) {
      if IsOpen(s, sid) { OpenIsRecent(s, sid); }
    }
  }

  /** They are also over once every record was passed at a later epoch. */
  lemma PassedSectionsEnded(s: State, ids: set<SectionId>, e: nat, d: nat)
    requires Inv(s) && OpenBy(s, ids, e) && PassedAbove(s, -1, d) && e < d
    ensures Ended(s, ids)
  {
    forall sid | sid in ids ensures !IsOpen(s, sid) {
      if IsOpen(s, sid) {
        assert Passed(s, s.sections[sid].rec, d);
        OpenIsRecent(s, sid);
      }
    }
  }

  // ----- deferral

  lemma UnlinkKeeps(s: State, s': State, o: ObjectId)
    requires Inv(s) && Unlink(s, s', o)
    ensures Inv(s')
  {
    var n := |s.recs|;
    assert Evolves(s, s', n);
    forall u: nat | u < n
      ensures RecordInv(s', u) && ListsInv(s', u) && ThreadInv(s', u)
    {
      assert RecordInv(s, u) && ListsInv(s, u);
      OthersKeepRecord(s, s', n, u);
      OthersKeepLists(s, s', n, u);
      OthersKeepThread(s, s', n, u);
    }
    forall p | p in s'.objs ensures ObjectInv(s', p) {
      if p != o { assert ObjectInv(s, p); }
    }
  }

  /** A step of t that leaves the epoch and the sections of every record alone. */
  lemma QuietStepKept(s: State, s': State, t: nat)
    requires Inv(s) && Live(s, t) && s'.sections == s.sections && s'.global == s.global
    requires |s'.recs| == |s.recs| == |s'.pcs|
    requires forall u: nat | u < |s.recs| && u != t :: s'.recs[u] == s.recs[u] && s'.pcs[u] == s.pcs[u]
    requires s'.recs[t] == s.recs[t].(pending := s'.recs[t].pending) && |s'.recs[t].pending| == LISTS
    requires !Opening(s.recs[t], s.pcs[t]) && !s.pcs[t].BeginStore? && !s.pcs[t].DelRef? && !s.pcs[t].FreeRecord?
    requires !Opening(s.recs[t], s'.pcs[t]) && !s'.pcs[t].BeginStore? && !s'.pcs[t].DelRef? && !s'.pcs[t].FreeRecord?
    requires forall o | o in s.objs ::
               && o in s'.objs && s'.objs[o].guards == s.objs[o].guards
               && ((s.objs[o].Pending? || s.objs[o].Calling?) && s.objs[o].caller != t ==> s'.objs[o] == s.objs[o])
               && (s.objs[o].Done? ==> s'.objs[o].Done?)
    requires ListsInv(s', t) && ThreadInv(s', t)
    requires forall o | o in s'.objs :: ObjectInv(s', o)
    ensures Inv(s')
  {
    assert RecordInv(s, t);
    assert Evolves(s, s', t);
    forall u: nat | u < |s.recs| && u != t && Published(s.recs[u], s.pcs[u])
      ensures s'.global <= Held(s.recs[u], s.pcs[u]) + 1
    {
      assert RecordInv(s, u);
    }
    Assemble(s, s', t);
  }

  lemma CallLoadsKeeps(s: State, s': State, t: nat, o: ObjectId)
    requires Inv(s) && CallLoads(s, s', t, o)
    ensures Inv(s')
  {
    assert ListsInv(s, t) && RecordInv(s, t);
    forall p | p in s'.objs ensures ObjectInv(s', p) {
      assert ObjectInv(s, p);
    }
    forall k, p | 0 <= k < |s'.recs[t].pending| && p in s'.recs[t].pending[k]
      ensures PendingInv(s', t, k, p)
    {
      assert PendingInv(s, t, k, p);
    }
    forall sid | sid in s.objs[o].guards && IsOpen(s', sid) ensures s.sections[sid].epoch <= s.global {
      assert ObjectInv(s, o);
      OpenIsRecent(s, sid);
    }
    QuietStepKept(s, s', t);
  }

  lemma PushedOnce(list: seq<ObjectId>, o: ObjectId)
    requires NoRepeats(list) && o !in list
    ensures NoRepeats([o] + list)
  {}

  lemma CallPushesKeeps(s: State, s': State, t: nat)
    requires Inv(s) && CallPushes(s, s', t)
    ensures Inv(s')
  {
    assert ListsInv(s, t) && RecordInv(s, t) && ThreadInv(s, t);
    forall p | p in s'.objs ensures ObjectInv(s', p) {
      assert ObjectInv(s, p);
    }
    forall k, p | 0 <= k < |s'.recs[t].pending| && p in s'.recs[t].pending[k]
      ensures PendingInv(s', t, k, p)
    {
      if p in s.recs[t].pending[k] { assert PendingInv(s, t, k, p); }
    }
    forall k | 0 <= k < |s'.recs[t].pending| ensures NoRepeats(s'.recs[t].pending[k]) {
      var list := s.recs[t].pending[k];
      forall o | o in list ensures o != s.pcs[t].obj { assert PendingInv(s, t, k, o); }
      PushedOnce(list, s.pcs[t].obj);
    }
    QuietStepKept(s, s', t);
  }

  /** Running the callbacks of a list is fine once the sections that guard them are over. */
  lemma DispatchKeeps(s: State, s': State, t: nat, k: nat, pc: Pc)
    requires Inv(s) && Live(s, t) && Dispatch(s, s', t, k, pc)
    requires s.pcs[t].PollPop? || s.pcs[t].PollLast? || s.pcs[t].Drain?
    requires pc.Scan? || pc.Drain? || pc.Idle?
    requires forall o | o in s.recs[t].pending[k] && o in s.objs :: Ended(s, s.objs[o].guards)
    requires ThreadInv(s', t)
    ensures Inv(s')
  {
    assert ListsInv(s, t) && RecordInv(s, t);
    forall o | o in s'.objs ensures ObjectInv(s', o) {
      assert ObjectInv(s, o);
    }
    forall o | o in s.recs[t].pending[k] ensures PendingInv(s, t, k, o) {}
    forall j, o | 0 <= j < |s'.recs[t].pending| && o in s'.recs[t].pending[j]
      ensures PendingInv(s', t, j, o)
    {
      assert PendingInv(s, t, j, o);
    }
    QuietStepKept(s, s', t);
  }

  /** Emptying a list leaves less to guard. */
  lemma DispatchKeepsMine(s: State, s': State, t: nat, k: nat, pc: Pc, e: nat, open: set<SectionId>)
    requires Live(s, t) && Dispatch(s, s', t, k, pc) && Mine(s, t, e, open)
    ensures Mine(s', t, e, open)
  {}

  /** The modular arithmetic of the lists: what list (e - 2) mod 4 or (e - 1) mod 4 holds by epoch e. */
  lemma ListEpoch(epoch: nat, e: nat, back: nat)
    requires 0 < back < LISTS && epoch <= e && epoch % LISTS == (e + LISTS - back) % LISTS
    ensures epoch + back <= e
  {}

  lemma PollPopsKeeps(s: State, s': State, t: nat)
    requires Inv(s) && PollPops(s, s', t)
    ensures Inv(s')
  {
    var e, open := s.pcs[t].e, s.pcs[t].open;
    var k := (e + LISTS - 2) % LISTS;
    assert ThreadInv(s, t) && ListsInv(s, t);
    forall o | o in s.recs[t].pending[k] && o in s.objs ensures Ended(s, s.objs[o].guards) {
      assert PendingInv(s, t, k, o);
      ListEpoch(s.objs[o].epoch, e, 2);
      OldSectionsEnded(s, s.objs[o].guards, s.objs[o].epoch);
    }
    DispatchKeepsMine(s, s', t, k, s'.pcs[t], e, open);
    assert RecordInv(s, t);
    DispatchKeeps(s, s', t, k, s'.pcs[t]);
  }

  lemma PollLastsKeeps(s: State, s': State, t: nat)
    requires Inv(s) && PollLasts(s, s', t)
    ensures Inv(s')
  {
    var e := s.pcs[t].e;
    var k := (e + LISTS - 1) % LISTS;
    assert ThreadInv(s, t) && ListsInv(s, t);
    forall o | o in s.recs[t].pending[k] && o in s.objs ensures Ended(s, s.objs[o].guards) {
      assert PendingInv(s, t, k, o);
      ListEpoch(s.objs[o].epoch, e, 1);
      PassedSectionsEnded(s, s.objs[o].guards, s.objs[o].epoch, e);
    }
    DispatchKeeps(s, s', t, k, Idle);
  }

  lemma DrainsKeeps(s: State, s': State, t: nat)
    requires Inv(s) && Drains(s, s', t)
    ensures Inv(s')
  {
    var k, open := s.pcs[t].k, s.pcs[t].open;
    assert ThreadInv(s, t) && ListsInv(s, t);
    forall o | o in s.recs[t].pending[k] && o in s.objs ensures Ended(s, s.objs[o].guards) {
      assert PendingInv(s, t, k, o) && ObjectInv(s, o);
    }
    DispatchKeepsMine(s, s', t, k, s'.pcs[t], s.global, open);
    DispatchKeeps(s, s', t, k, s'.pcs[t]);
  }

  // ----- scans

  /** A step of t in a scanning operation: only its own place changes, or its own idle epoch. */
  lemma ScanStepKept(s: State, s': State, t: nat)
    requires Inv(s) && Live(s, t) && s'.objs == s.objs && s'.sections == s.sections && s'.global == s.global
    requires |s'.recs| == |s.recs| == |s'.pcs| && s'.recs == s.recs
    requires forall u: nat | u < |s.recs| && u != t :: s'.pcs[u] == s.pcs[u]
    requires s.pcs[t].Idle? || s.pcs[t].Scan? || s.pcs[t].Reload?
    requires || s'.pcs[t].Idle? || s'.pcs[t].PollPop? || s'.pcs[t].Scan?
             || s'.pcs[t].Reload? || s'.pcs[t].Advance? || s'.pcs[t].Drain?
    requires ThreadInv(s', t)
    ensures Inv(s')
  {
    assert ListsInv(s, t) && RecordInv(s, t);
    forall o | o in s'.objs ensures ObjectInv(s', o) {
      assert ObjectInv(s, o);
    }
    forall k, p | 0 <= k < |s'.recs[t].pending| && p in s'.recs[t].pending[k]
      ensures PendingInv(s', t, k, p)
    {
      assert PendingInv(s, t, k, p);
    }
    QuietStepKept(s, s', t);
  }

  /** Moving a scanning thread changes nothing that the scans look at. */
  lemma StillPassed(s: State, s': State, t: nat, at: int, d: nat)
    requires |s.recs| == |s.pcs| == |s'.pcs| && s'.recs == s.recs && t < |s.recs| && PassedAbove(s, at, d)
    requires forall u: nat | u < |s.recs| && u != t :: s'.pcs[u] == s.pcs[u]
    requires !(s.pcs[t].BeginLoad? || s.pcs[t].BeginStore?) && !(s'.pcs[t].BeginLoad? || s'.pcs[t].BeginStore?)
    ensures PassedAbove(s', at, d)
  {
    forall r: nat | at < r < |s.recs| ensures Passed(s', r, d) {
      assert Passed(s, r, d);
    }
  }

  /** At the load that starts an operation every open section is in `open`, and none is newer. */
  lemma StartsKnowing(s: State, t: nat)
    requires Inv(s) && t < |s.recs|
    ensures OpenBy(s, AllOpen(s), s.global) && Mine(s, t, s.global, AllOpen(s))
  {
    forall sid | sid in AllOpen(s) ensures s.sections[sid].epoch <= s.global {
      OpenIsRecent(s, sid);
    }
    assert ListsInv(s, t);
    forall k, o | 0 <= k < |s.recs[t].pending| && o in s.recs[t].pending[k] && o in s.objs && s.objs[o].Pending?
      ensures s.objs[o].epoch <= s.global
    {
      assert PendingInv(s, t, k, o);
    }
  }

  lemma PollLoadsKeeps(s: State, s': State, t: nat)
    requires Inv(s) && PollLoads(s, s', t)
    ensures Inv(s')
  {
    StartsKnowing(s, t);
    ScanStepKept(s, s', t);
  }

  lemma SyncLoadsKeeps(s: State, s': State, t: nat, barrier: bool)
    requires Inv(s) && SyncLoads(s, s', t, barrier)
    ensures Inv(s')
  {
    StartsKnowing(s, t);
    ScanStepKept(s, s', t);
  }

  /** No record lies above the newest one. */
  lemma ScanHeadKeeps(s: State, s': State, t: nat)
    requires Inv(s) && ScanHead(s, s', t)
    ensures Inv(s')
  {
    var w := s.pcs[t].walk;
    assert ThreadInv(s, t) && RecordInv(s, t);
    assert WalkInv(s', t, s'.pcs[t].walk) by {
      forall sid | sid in w.open && IsOpen(s', sid) ensures s'.sections[sid].rec <= |s.recs| - 1 {}
    }
    ScanStepKept(s, s', t);
  }

  lemma ScanStateKeeps(s: State, s': State, t: nat)
    requires Inv(s) && ScanState(s, s', t)
    ensures Inv(s')
  {
    var w := s.pcs[t].walk;
    assert ThreadInv(s, t) && RecordInv(s, w.at);
    assert WalkInv(s', t, s'.pcs[t].walk) by {
      StillPassed(s, s', t, w.at, w.delta);
      forall sid | sid in w.open && IsOpen(s', sid) && s.sections[sid].rec == w.at ensures s.recs[w.at].used {
        OpenIsRecent(s, sid);
      }
    }
    ScanStepKept(s, s', t);
  }

  lemma ScanActiveKeeps(s: State, s': State, t: nat)
    requires Inv(s) && ScanActive(s, s', t)
    ensures Inv(s')
  {
    var w := s.pcs[t].walk;
    assert ThreadInv(s, t) && RecordInv(s, w.at);
    assert WalkInv(s', t, s'.pcs[t].walk) by {
      StillPassed(s, s', t, w.at, w.delta);
      forall sid | sid in w.open && IsOpen(s', sid) && s.sections[sid].rec == w.at ensures s.recs[w.at].active > 0 {
        OpenIsRecent(s, sid);
      }
    }
    ScanStepKept(s, s', t);
  }

  lemma ScanEpochKeeps(s: State, s': State, t: nat)
    requires Inv(s) && ScanEpoch(s, s', t)
    ensures Inv(s')
  {
    var w := s.pcs[t].walk;
    assert ThreadInv(s, t) && RecordInv(s, w.at);
    StillPassed(s, s', t, w.at, w.delta);
    ScanStepKept(s, s', t);
  }

  lemma ReloadsKeeps(s: State, s': State, t: nat)
    requires Inv(s) && Reloads(s, s', t)
    ensures Inv(s')
    ensures !s'.pcs[t].Scan? ==> Ended(s', s.pcs[t].open)
  {
    var pc := s.pcs[t];
    assert ThreadInv(s, t) && RecordInv(s, t);
    if !s'.pcs[t].Scan? {
      OldSectionsEnded(s, pc.open, pc.op.e);
      assert Ended(s', pc.open);
    }
    StillPassed(s, s', t, pc.at, pc.delta);
    ScanStepKept(s, s', t);
  }

  /** With nobody seen active, no section that was open when the operation began is open now. */
  lemma NobodyActive(s: State, t: nat, w: Walk)
    requires Inv(s) && t < |s.recs| && WalkInv(s, t, w) && OpenBy(s, w.open, w.op.e)
    requires !w.af && w.at < 0 && w.look != LookHead
    ensures Ended(s, w.open) && s.recs[t].active == 0
  {}

  /** A poll that found nobody active stores its epoch and goes on to drain its lists. */
  lemma QuietPollKeeps(s: State, s': State, t: nat)
    requires Inv(s) && ScanDone(s, s', t) && !s.pcs[t].walk.af && s.pcs[t].walk.op.Poll?
    ensures Inv(s') && Ended(s', s.pcs[t].walk.open)
  {
    var w := s.pcs[t].walk;
    assert ThreadInv(s, t) && RecordInv(s, t) && ListsInv(s, t);
    NobodyActive(s, t, w);
    hide ObjectInv;
    hide PendingInv;
    assert Evolves(s, s', t);
    assert Ended(s', w.open);
    ListsKept(s, s', t);
    ObjectsKept(s, s', t);
    forall u: nat | u < |s.recs| && u != t && Published(s.recs[u], s.pcs[u])
      ensures s'.global <= Held(s.recs[u], s.pcs[u]) + 1
    {
      assert RecordInv(s, u);
    }
    assert forall sid: SectionId :: !OpenIn(s'.recs[t], sid);
    Assemble(s, s', t);
  }

  lemma ScanDoneKeeps(s: State, s': State, t: nat)
    requires Inv(s) && ScanDone(s, s', t)
    ensures Inv(s')
    ensures !s'.pcs[t].Advance? ==> Ended(s', s.pcs[t].walk.open)
  {
    hide ObjectInv;
    hide PendingInv;
    var w := s.pcs[t].walk;
    assert ThreadInv(s, t) && RecordInv(s, t);
    if w.af {
      StillPassed(s, s', t, w.at, w.delta);
      assert PassedAbove(s', -1, w.delta);
      ScanStepKept(s, s', t);
    } else if w.op.Sync? {
      NobodyActive(s, t, w);
      assert Ended(s', w.open);
      ScanStepKept(s, s', t);
    } else {
      QuietPollKeeps(s, s', t);
    }
  }

  lemma AdvancesKeeps(s: State, s': State, t: nat)
    requires Inv(s) && Advances(s, s', t)
    ensures Inv(s')
    ensures !s'.pcs[t].PollLast? && !s'.pcs[t].Scan? ==> Ended(s', s.pcs[t].open)
  {
    hide ObjectInv;
    var pc := s.pcs[t];
    assert ThreadInv(s, t) && RecordInv(s, t);
    assert Evolves(s, s', t);
    ListsKept(s, s', t);
    ObjectsKept(s, s', t);
    StillPassed(s, s', t, -1, pc.delta);
    if pc.op.Sync? && pc.op.round > 0 {
      PassedSectionsEnded(s, pc.open, pc.op.e, pc.delta);
      assert Ended(s', pc.open);
    }
    forall u: nat | u < |s.recs| && Published(s.recs[u], s.pcs[u])
      ensures s'.global <= Held(s.recs[u], s.pcs[u]) + 1
    {
      assert RecordInv(s, u) && Passed(s, u, pc.delta);
    }
    Assemble(s, s', t);
  }

  // ----- all steps

  lemma SectionStepKeeps(s: State, s': State, t: nat)
    requires Inv(s) && SectionStep(s, s', t)
    ensures Inv(s')
  {
    if BeginOuter(s, s', t) { BeginOuterKeeps(s, s', t); }
    else if BeginLoads(s, s', t) { BeginLoadsKeeps(s, s', t); }
    else if BeginStores(s, s', t) { BeginStoresKeeps(s, s', t); }
    else if BeginNested(s, s', t) { BeginNestedKeeps(s, s', t); }
    else if AddsRef(s, s', t) { AddsRefKeeps(s, s', t); }
    else if DropsRef(s, s', t) { DropsRefKeeps(s, s', t); }
    else if sid :| EndPlain(s, s', t, sid) { EndPlainKeeps(s, s', t, sid); }
    else {
      var i, sid :| EndSection(s, s', t, i, sid);
      EndSectionKeeps(s, s', t, i, sid);
    }
  }

  lemma DeferStepKeeps(s: State, s': State, t: nat)
    requires Inv(s) && DeferStep(s, s', t)
    ensures Inv(s')
  {
    if o :| CallLoads(s, s', t, o) { CallLoadsKeeps(s, s', t, o); }
    else if CallPushes(s, s', t) { CallPushesKeeps(s, s', t); }
    else if PollPops(s, s', t) { PollPopsKeeps(s, s', t); }
    else if PollLasts(s, s', t) { PollLastsKeeps(s, s', t); }
    else { DrainsKeeps(s, s', t); }
  }

  lemma ScanStepKeeps(s: State, s': State, t: nat)
    requires Inv(s) && ScanStep(s, s', t)
    ensures Inv(s')
  {
    if PollLoads(s, s', t) { PollLoadsKeeps(s, s', t); }
    else if barrier :| SyncLoads(s, s', t, barrier) { SyncLoadsKeeps(s, s', t, barrier); }
    else if ScanHead(s, s', t) { ScanHeadKeeps(s, s', t); }
    else if ScanState(s, s', t) { ScanStateKeeps(s, s', t); }
    else if ScanActive(s, s', t) { ScanActiveKeeps(s, s', t); }
    else if ScanEpoch(s, s', t) { ScanEpochKeeps(s, s', t); }
    else if Reloads(s, s', t) { ReloadsKeeps(s, s', t); }
    else if ScanDone(s, s', t) { ScanDoneKeeps(s, s', t); }
    else { AdvancesKeeps(s, s', t); }
  }

  lemma StepKeeps(s: State, s': State, t: nat)
    requires Inv(s) && Step(s, s', t)
    ensures Inv(s')
  {
    if SectionStep(s, s', t) { SectionStepKeeps(s, s', t); }
    else if RegistryStep(s, s', t) { RegistryStepKept(s, s', t); }
    else if DeferStep(s, s', t) { DeferStepKeeps(s, s', t); }
    else { ScanStepKeeps(s, s', t); }
  }

  lemma NextKeeps(s: State, s': State)
    requires Inv(s) && Next(s, s')
    ensures Inv(s')
  {
    if t :| Step(s, s', t) { StepKeeps(s, s', t); }
    else if sectioned :| Register(s, s', sectioned) { RegisterKeeps(s, s', sectioned); }
    else {
      var o :| Unlink(s, s', o);
      UnlinkKeeps(s, s', o);
    }
  }

  lemma InitHolds(s: State)
    requires Init(s)
    ensures Inv(s)
  {}
}
