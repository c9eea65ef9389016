/** The inductive invariant of the epoch protocol. It turns the argument of ck_epoch.c:61-111 into
    three parts: what a record's fields say about its open sections, what a scan knows about the
    records it has passed, and which sections may still see a deferred object. */
module EpochInvariant {
  import opened Epoch

  // ----- records

  function OpenSections(r: Record): nat {
    |r.plain| + if |r.held| == 2 then |r.held[0]| + |r.held[1]| else 0
  }

  /** A begin that has counted itself in `active` but has not opened its section yet. */
  ghost predicate Opening(r: Record, pc: Pc) {
    pc.BeginLoad? || pc.AddRef? || (pc.BeginStore? && r.sectioned)
  }

  /** The record is active and its begin has loaded the global epoch. */
  ghost predicate Published(r: Record, pc: Pc) {
    r.active > 0 && !pc.BeginLoad?
  }

  /** The epoch that the record holds, or is about to store. */
  function Held(r: Record, pc: Pc): nat {
    if pc.BeginStore? then pc.e else r.epoch
  }

  ghost predicate Counted(r: Record, pc: Pc) {
    && |r.held| == |r.bucket| == 2 && |r.pending| == LISTS
    && (r.sectioned ==> r.plain == {})
    && (!r.sectioned ==> r.held[0] == {} && r.held[1] == {})
    && r.active == OpenSections(r) + (if Opening(r, pc) then 1 else 0)
    && (pc.BeginLoad? || pc.BeginStore? ==> r.active == 1)
    && (pc.AddRef? || pc.DelRef? ==> r.sectioned)
    && (pc.DelRef? ==> pc.i < 2)
    && (pc.FreeRecord? ==> r.active == 0)
    && (!r.used ==> r.active == 0 && pc.Idle?)
    && r.bucket[0].count == |r.held[0]| + (if pc == DelRef(0) then 1 else 0)
    && r.bucket[1].count == |r.held[1]| + (if pc == DelRef(1) then 1 else 0)
  }

  /** The sections `ids` of bucket i all loaded the bucket's epoch, which has the bucket's parity. */
  ghost predicate OneEpoch(ids: set<SectionId>, i: nat, epoch: nat, sections: seq<Section>) {
    forall sid | sid in ids :: sid < |sections| && sections[sid].epoch == epoch && epoch % 2 == i
  }

  ghost predicate RecordInv(s: State, t: nat)
    requires t < |s.recs| == |s.pcs|
  {
    var r, pc := s.recs[t], s.pcs[t];
    && Counted(r, pc)
    && r.epoch <= s.global
    && (pc.BeginStore? ==> r.epoch <= pc.e <= s.global)
    && (Published(r, pc) ==> s.global <= Held(r, pc) + 1)
    && (forall sid: SectionId | OpenIn(r, sid) ::
          && sid < |s.sections| && s.sections[sid].rec == t
          && Held(r, pc) <= s.sections[sid].epoch <= s.global)
    && OneEpoch(r.held[0], 0, r.bucket[0].epoch, s.sections)
    && OneEpoch(r.held[1], 1, r.bucket[1].epoch, s.sections)
  }

  // ----- scans

  /** A scan at epoch d need not look at record r again. */
  ghost predicate Passed(s: State, r: nat, d: nat)
    requires |s.recs| == |s.pcs|
  {
    r < |s.recs| && Published(s.recs[r], s.pcs[r]) ==> d <= Held(s.recs[r], s.pcs[r])
  }

  /** The sections `ids` that are still open loaded an epoch of at most e. */
  ghost predicate OpenBy(s: State, ids: set<SectionId>, e: nat) {
    forall sid | sid in ids :: sid < |s.sections| && (IsOpen(s, sid) ==> s.sections[sid].epoch <= e)
  }

  ghost predicate OpInv(op: Op, d: nat) {
    && op.e <= d
    && (op.Poll? ==> op.e == d)
    && (op.Sync? ==> op.round < GRACE - 1 && (op.round > 0 ==> op.e < d))
  }

  ghost predicate PassedAbove(s: State, at: int, d: nat)
    requires |s.recs| == |s.pcs|
  {
    forall r: nat | at < r < |s.recs| :: Passed(s, r, d)
  }

  /** While nobody was seen active, the sections of `open` still open are on records not yet passed. */
  ghost predicate QuietAbove(s: State, t: nat, w: Walk)
    requires t < |s.recs|
  {
    && (forall sid | sid in w.open && IsOpen(s, sid) :: s.sections[sid].rec <= w.at)
    && (w.at < t ==> s.recs[t].active == 0)
  }

  ghost predicate WalkInv(s: State, t: nat, w: Walk)
    requires t < |s.recs| == |s.pcs|
  {
    && w.at < |s.recs| && w.delta <= s.global && OpInv(w.op, w.delta)
    && (w.look == LookHead ==> w.at == -1 && !w.af)
    && (w.look != LookHead ==> PassedAbove(s, w.at, w.delta))
    && (w.look == LookEpoch ==> w.af)
    && (w.look != LookHead && !w.af ==> QuietAbove(s, t, w))
  }

  // ----- objects

  /** The callbacks on the record of t were deferred by epoch e, guarded by sections in `open` only. */
  ghost predicate Mine(s: State, t: nat, e: nat, open: set<SectionId>)
    requires t < |s.recs|
  {
    forall k, o | 0 <= k < |s.recs[t].pending| && o in s.recs[t].pending[k] && o in s.objs && s.objs[o].Pending? ::
      && s.objs[o].epoch <= e
      && (forall sid | sid in s.objs[o].guards && IsOpen(s, sid) :: sid in open)
  }

  /** An entry of list k: deferred at an epoch that list k stands for, and late enough for its guards. */
  ghost predicate PendingInv(s: State, t: nat, k: nat, o: ObjectId) {
    && o in s.objs && s.objs[o].Pending? && s.objs[o].caller == t
    && s.objs[o].epoch % LISTS == k && s.objs[o].epoch <= s.global
    && OpenBy(s, s.objs[o].guards, s.objs[o].epoch)
  }

  predicate NoRepeats(list: seq<ObjectId>) {
    forall i, j | 0 <= i < j < |list| :: list[i] != list[j]
  }

  ghost predicate ListsInv(s: State, t: nat)
    requires t < |s.recs|
  {
    && (forall k, o | 0 <= k < |s.recs[t].pending| && o in s.recs[t].pending[k] :: PendingInv(s, t, k, o))
    && (forall k | 0 <= k < |s.recs[t].pending| :: NoRepeats(s.recs[t].pending[k]))
  }

  ghost predicate ObjectInv(s: State, o: ObjectId)
    requires o in s.objs
  {
    && (forall sid | sid in s.objs[o].guards :: sid < |s.sections|)
    && (s.objs[o].Done? ==> Ended(s, s.objs[o].guards))
  }

  /** What the thread of record t knows at each point of its current operation. */
  ghost predicate ThreadInv(s: State, t: nat)
    requires t < |s.recs| == |s.pcs|
  {
    match s.pcs[t]
    case CallPush(o, e) =>
      && o in s.objs && s.objs[o].Calling? && s.objs[o].caller == t
      && e <= s.global && OpenBy(s, s.objs[o].guards, e)
    case PollPop(e, open) =>
      e <= s.global && OpenBy(s, open, e) && Mine(s, t, e, open)
    case Scan(w) =>
      WalkInv(s, t, w) && OpenBy(s, w.open, w.op.e) && Mine(s, t, w.op.e, w.open)
    case Reload(op, d, at, open) =>
      && 0 <= at < |s.recs| && d <= s.global && OpInv(op, d) && op.Sync? && PassedAbove(s, at, d)
      && OpenBy(s, open, op.e) && Mine(s, t, op.e, open)
    case Advance(op, d, open) =>
      && d <= s.global && OpInv(op, d) && PassedAbove(s, -1, d)
      && OpenBy(s, open, op.e) && Mine(s, t, op.e, open)
    case PollLast(e, open) =>
      e <= s.global && PassedAbove(s, -1, e) && Mine(s, t, e, open)
    case Drain(k, open) =>
      k < LISTS && Ended(s, open) && Mine(s, t, s.global, open)
    case _ => true
  }

  ghost predicate Inv(s: State) {
    && |s.recs| == |s.pcs|
    && (forall t: nat | t < |s.recs| :: RecordInv(s, t))
    && (forall t: nat | t < |s.recs| :: ListsInv(s, t))
    && (forall t: nat | t < |s.recs| :: ThreadInv(s, t))
    && (forall o | o in s.objs :: ObjectInv(s, o))
  }

  // ----- what every step keeps

  /** What a step of thread t leaves to the others: their own state stays, sections only end, and
      what a scan has passed stays passed. */
  ghost predicate Evolves(s: State, s': State, t: nat) {
    && |s.recs| == |s.pcs| <= |s'.recs| == |s'.pcs|
    && s.global <= s'.global
    && s.sections <= s'.sections
    && (forall u: nat | u < |s.recs| && u != t :: s'.recs[u] == s.recs[u] && s'.pcs[u] == s.pcs[u])
    && (forall u: nat | |s.recs| <= u < |s'.recs| :: s'.recs[u].active == 0)
    && (forall sid: SectionId | sid < |s.sections| && IsOpen(s', sid) :: IsOpen(s, sid))
    && (forall r: nat, d: nat | r < |s.recs| && d <= s.global && Passed(s, r, d) :: Passed(s', r, d))
    && (forall o | o in s.objs ::
          && o in s'.objs && s'.objs[o].guards == s.objs[o].guards
          && ((s.objs[o].Pending? || s.objs[o].Calling?) && s.objs[o].caller != t ==> s'.objs[o] == s.objs[o])
          && (s.objs[o].Done? ==> s'.objs[o].Done?))
  }

  lemma OthersKeepRecord(s: State, s': State, t: nat, u: nat)
    requires Evolves(s, s', t) && u < |s.recs| && u != t && RecordInv(s, u)
    requires Published(s.recs[u], s.pcs[u]) ==> s'.global <= Held(s.recs[u], s.pcs[u]) + 1
    ensures RecordInv(s', u)
  {}

  lemma OthersKeepLists(s: State, s': State, t: nat, u: nat)
    requires Evolves(s, s', t) && u < |s.recs| && u != t && ListsInv(s, u)
    ensures ListsInv(s', u)
  {
    forall k, o | 0 <= k < |s'.recs[u].pending| && o in s'.recs[u].pending[k]
      ensures PendingInv(s', u, k, o)
    {
      assert PendingInv(s, u, k, o);
    }
  }

  lemma OthersKeepMine(s: State, s': State, t: nat, u: nat, e: nat, open: set<SectionId>)
    requires Evolves(s, s', t) && u < |s.recs| && u != t && ListsInv(s, u) && Mine(s, u, e, open)
    requires forall o | o in s.objs :: ObjectInv(s, o)
    ensures Mine(s', u, e, open)
  {
    forall k, o | 0 <= k < |s'.recs[u].pending| && o in s'.recs[u].pending[k] && o in s'.objs && s'.objs[o].Pending?
      ensures s'.objs[o].epoch <= e
      ensures forall sid | sid in s'.objs[o].guards && IsOpen(s', sid) :: sid in open
    {
      assert PendingInv(s, u, k, o);
    }
  }

  lemma OpenByKept(s: State, s': State, t: nat, ids: set<SectionId>, e: nat)
    requires Evolves(s, s', t) && OpenBy(s, ids, e)
    ensures OpenBy(s', ids, e)
  {}

  lemma PassedAboveKept(s: State, s': State, t: nat, at: int, d: nat)
    requires Evolves(s, s', t) && d <= s.global && PassedAbove(s, at, d)
    ensures PassedAbove(s', at, d)
  {
    forall r: nat | at < r < |s'.recs| ensures Passed(s', r, d) {
      if r < |s.recs| { assert Passed(s, r, d); }
    }
  }

  lemma WalkKept(s: State, s': State, t: nat, u: nat, w: Walk)
    requires Evolves(s, s', t) && u < |s.recs| && u != t && WalkInv(s, u, w) && OpenBy(s, w.open, w.op.e)
    ensures WalkInv(s', u, w)
  {
    if w.look != LookHead { PassedAboveKept(s, s', t, w.at, w.delta); }
  }

  lemma OthersKeepThread(s: State, s': State, t: nat, u: nat)
    requires Inv(s) && Evolves(s, s', t) && u < |s.recs| && u != t
    ensures ThreadInv(s', u)
  {
    assert ThreadInv(s, u) && ListsInv(s, u);
    match s.pcs[u] {
      case CallPush(o, e) =>
        OpenByKept(s, s', t, s.objs[o].guards, e);
      case PollPop(e, open) =>
        OpenByKept(s, s', t, open, e);
        OthersKeepMine(s, s', t, u, e, open);
      case Scan(w) =>
        WalkKept(s, s', t, u, w);
        OpenByKept(s, s', t, w.open, w.op.e);
        OthersKeepMine(s, s', t, u, w.op.e, w.open);
      case Reload(op, d, at, open) =>
        PassedAboveKept(s, s', t, at, d);
        OpenByKept(s, s', t, open, op.e);
        OthersKeepMine(s, s', t, u, op.e, open);
      case Advance(op, d, open) =>
        PassedAboveKept(s, s', t, -1, d);
        OpenByKept(s, s', t, open, op.e);
        OthersKeepMine(s, s', t, u, op.e, open);
      case PollLast(e, open) =>
        PassedAboveKept(s, s', t, -1, e);
        OthersKeepMine(s, s', t, u, e, open);
      case Drain(k, open) =>
        OthersKeepMine(s, s', t, u, s.global, open);
      case _ =>
    }
  }
}
