/** What a synchronize does for those who wait for it: its rounds move the epoch on, and as a barrier it runs
    every callback of its record. Ending the oldest section lets the record announce the newer ones. */
module EpochBarrier {
  import opened Epoch
  import opened EpochInvariant
  import opened EpochSteps
  import opened EpochProgress
  import opened EpochTicks
  import opened EpochReclaims
  import EpochSafety

  // ----- a barrier runs every callback of its record

  predicate IsBarrier(op: Op) {
    op.Sync? && op.barrier
  }

  /** The callback of o, from list k of record t, while t is in its barrier or has just left it. */
  ghost predicate InBarrier(s: State, t: nat, k: nat, o: ObjectId) {
    && t < |s.pcs| == |s.recs|
    && match s.pcs[t]
       case Scan(w) => IsBarrier(w.op) && WaitsOrDone(s, t, k, o)
       case Reload(op, _, _, _) => IsBarrier(op) && WaitsOrDone(s, t, k, o)
       case Advance(op, _, _) => IsBarrier(op) && WaitsOrDone(s, t, k, o)
       case Drain(n, _) => if k < n then IsDone(s, o) else WaitsOrDone(s, t, k, o)
       case Idle => IsDone(s, o)
       case _ => false
  }

  lemma DrainRuns(s: State, s': State, t: nat, k: nat, o: ObjectId)
    requires Inv(s) && Drains(s, s', t) && WaitsOrDone(s, t, k, o) && k == s.pcs[t].k
    ensures IsDone(s', o)
  {
    if !IsDone(s, o) { assert ListsInv(s, t) && PendingInv(s, t, k, o); }
  }

  lemma OwnBarrierStep(s: State, s': State, t: nat, k: nat, o: ObjectId)
    requires Inv(s) && Step(s, s', t) && InBarrier(s, t, k, o) && s.pcs[t] != Idle && k < LISTS
    ensures InBarrier(s', t, k, o)
  {
    OwnPlace(s, s', t, k, o);
    hide Inv;
    StepKeepsWaiting(s, s', t, t, k, o);
    if IsDone(s, o) { StepKeepsDone(s, s', t, o); }
    if s.pcs[t].Drain? && s.pcs[t].k == k { DrainRuns(s, s', t, k, o); }
  }

  lemma OwnPlace(s: State, s': State, t: nat, k: nat, o: ObjectId)
    requires Inv(s) && Step(s, s', t) && InBarrier(s, t, k, o) && s.pcs[t] != Idle && k < LISTS
    ensures t < |s'.pcs| == |s'.recs| && s'.pcs[t] != FreeRecord
    ensures match s'.pcs[t]
            case Scan(w) => IsBarrier(w.op) && !s.pcs[t].Drain?
            case Reload(op, _, _, _) => IsBarrier(op) && !s.pcs[t].Drain?
            case Advance(op, _, _) => IsBarrier(op) && !s.pcs[t].Drain?
            case Drain(n, _) => if s.pcs[t].Drain? then n == s.pcs[t].k + 1 && Drains(s, s', t) else n == 0
            case Idle => s.pcs[t].Drain? && s.pcs[t].k == LISTS - 1 && Drains(s, s', t)
            case _ => false
  {
    assert RecordInv(s, t) && ThreadInv(s, t);
    if s.pcs[t].Drain? { assert Drains(s, s', t); } else { assert ScanStep(s, s', t); }
  }

  lemma BarrierStep(s: State, s': State, t: nat, k: nat, o: ObjectId)
    requires Inv(s) && Next(s, s') && InBarrier(s, t, k, o) && s.pcs[t] != Idle && k < LISTS
    ensures InBarrier(s', t, k, o)
  {
    hide Inv;
    hide Step;
    hide WaitsOrDone;
    hide IsDone;
    if Step(s, s', t) {
      OwnBarrierStep(s, s', t, k, o);
    } else {
      if u: nat :| Step(s, s', u) { EpochSafety.OtherStep(s, s', t, u); }
      assert t < |s'.pcs| == |s'.recs| && s'.pcs[t] == s.pcs[t];
      if IsDone(s, o) { NextKeepsDone(s, s', o); }
      hide Next;
      DoneCounts(s, t, k, o);
      DoneCounts(s', t, k, o);
      if WaitsOrDone(s, t, k, o) { NextKeepsWaiting(s, s', t, k, o); }
    }
  }

  lemma DoneCounts(s: State, t: nat, k: nat, o: ObjectId)
    ensures IsDone(s, o) ==> WaitsOrDone(s, t, k, o)
  {}

  lemma {:induction false} BarrierGoesOn(run: seq<State>, i: nat, j: nat, t: nat, k: nat, o: ObjectId)
    requires IsRun(run) && i + 1 <= j < |run| && SyncLoads(run[i], run[i + 1], t, true)
    requires forall m: nat | i < m < j :: t < |run[m].pcs| && run[m].pcs[t] != Idle
    requires k < LISTS && WaitsOrDone(run[i], t, k, o)
    ensures InBarrier(run[j], t, k, o)
    decreases j
  {
    hide Next;
    hide Inv;
    if j > i + 1 {
      BarrierGoesOn(run, i, j - 1, t, k, o);
      hide InBarrier;
      EpochSafety.ReachableInv(run, j - 1);
      assert StepAt(run, j - 1);
      BarrierStep(run[j - 1], run[j], t, k, o);
    }
  }

  /** A barrier called at step i and over at state j has run every callback that waited on its record at the call,
      whatever the others have done meanwhile. */
  lemma BarrierRunsAll(run: seq<State>, i: nat, j: nat, t: nat, k: nat, o: ObjectId)
    requires IsRun(run) && i + 1 < j < |run| && SyncLoads(run[i], run[i + 1], t, true)
    requires forall m: nat | i < m < j :: t < |run[m].pcs| && run[m].pcs[t] != Idle
    requires t < |run[j].pcs| && run[j].pcs[t] == Idle
    requires t < |run[i].recs| && k < LISTS && k < |run[i].recs[t].pending| && o in run[i].recs[t].pending[k]
    ensures IsDone(run[j], o)
  {
    hide IsRun;
    BarrierGoesOn(run, i, j, t, k, o);
  }

  // ----- the rounds of a synchronize

  /** Thread t begins a round of a synchronize in the global epoch d, in which every active record is. */
  ghost predicate RoundBegins(s: State, t: nat, op: Op, d: nat, open: set<SectionId>) {
    Live(s, t) && op.Sync? && s.pcs[t] == NewScan(op, d, open) && s.global == d && AllIn(s.recs, d)
  }

  /** Where an undisturbed round leads: without readers to the end, with readers in the next epoch to the next round, or
      to the end. */
  ghost function RoundEnd(s: State, t: nat, op: Op, d: nat, open: set<SectionId>): State
    requires t < |s.pcs| && op.Sync?
  {
    if !ActiveAbove(s.recs, -1) then Go(s, t, Finish(op, open))
    else Go(s, t, if op.round == 0 then NewScan(op.(round := 1), d + 1, open) else Finish(op, open))
           .(global := d + 1)
  }

  lemma ScansThrough(s: State, t: nat, op: Op, d: nat, open: set<SectionId>) returns (path: seq<State>, w: Walk)
    requires RoundBegins(s, t, op, d, open)
    ensures IsPath(path, t) && path[0] == s && End(path) == Go(s, t, Scan(w))
    ensures OnTheWay(s.recs, w, op, d, open) && w.look != LookHead && w.at < 0
  {
    hide ActiveAbove;
    path, w := [s], Walk(op, d, -1, LookHead, false, open);
    assert Go(s, t, Scan(w)) == s;
    var left := 3 * |s.recs| + 4;
    while w.look == LookHead || w.at >= 0
      invariant IsPath(path, t) && path[0] == s && End(path) == Go(s, t, Scan(w))
      invariant OnTheWay(s.recs, w, op, d, open)
      decreases StepsLeft(Go(s, t, Scan(w)), t)
    {
      hide Step;
      hide Live;
      var here, next := Go(s, t, Scan(w)), Go(s, t, Scan(Further(s.recs, w)));
      ScanMovesFrom(s, here, t, w, op, d, open);
      Extended(path, t, next);
      FurtherOnTheWay(s.recs, w, op, d, open);
      path, w := path + [next], Further(s.recs, w);
    }
  }

  lemma ScanMovesFrom(s: State, here: State, t: nat, w: Walk, op: Op, d: nat, open: set<SectionId>)
    requires Live(s, t) && here == Go(s, t, Scan(w)) && AllIn(s.recs, d)
    requires OnTheWay(s.recs, w, op, d, open) && (w.look == LookHead || w.at >= 0)
    ensures Step(here, Go(s, t, Scan(Further(s.recs, w))), t)
  {
    hide ActiveAbove;
    ScanMoves(here, t, w, op, d, open);
    assert Go(here, t, Scan(Further(s.recs, w))) == Go(s, t, Scan(Further(s.recs, w)));
  }

  lemma ScanIsOver(s: State, here: State, t: nat, w: Walk, op: Op, d: nat, open: set<SectionId>)
    requires Live(s, t) && here == Go(s, t, Scan(w)) && op.Sync?
    requires OnTheWay(s.recs, w, op, d, open) && w.look != LookHead && w.at < 0
    ensures var next := Go(s, t, if ActiveAbove(s.recs, -1) then Advance(op, d, open) else Finish(op, open));
            Step(here, next, t)
  {
    hide ActiveAbove;
    var next := Go(s, t, if ActiveAbove(s.recs, -1) then Advance(op, d, open) else Finish(op, open));
    assert next == Go(here, t, next.pcs[t]);
    assert ScanDone(here, next, t) && ScanStep(here, next, t);
  }

  /** An undisturbed round in which every active record is in the global epoch moves that epoch on, and is the last
      but one or the last; a synchronize that finds nobody active is over at once. */
  lemma RoundTicks(s: State, t: nat, op: Op, d: nat, open: set<SectionId>) returns (path: seq<State>)
    requires RoundBegins(s, t, op, d, open) && op.round < GRACE - 1
    ensures IsPath(path, t) && path[0] == s && End(path) == RoundEnd(s, t, op, d, open)
  {
    var w: Walk;
    path, w := ScansThrough(s, t, op, d, open);
    var here := End(path);
    ScanIsOver(s, here, t, w, op, d, open);
    hide OnTheWay;
    hide ActiveAbove;
    hide AllIn;
    var next := Go(s, t, if ActiveAbove(s.recs, -1) then Advance(op, d, open) else Finish(op, open));
    if ActiveAbove(s.recs, -1) {
      var last := RoundEnd(s, t, op, d, open);
      assert Advances(next, last, t) && ScanStep(next, last, t) && Step(next, last, t) by {
        assert s.pcs[t := next.pcs[t]][t := last.pcs[t]] == s.pcs[t := last.pcs[t]];
      }
      hide Step;
      Extended(path, t, next);
      Extended(path + [next], t, last);
      path := path + [next] + [last];
    } else {
      hide Step;
      Extended(path, t, next);
      path := path + [next];
    }
  }

  /** A synchronize begins with such a round if every active record announces the global epoch at the call. */
  lemma SynchronizeBegins(s: State, s': State, t: nat, barrier: bool)
    requires SyncLoads(s, s', t, barrier) && AllIn(s.recs, s.global)
    ensures RoundBegins(s', t, Sync(s.global, 0, barrier), s.global, AllOpen(s))
  {}

  /** After a round that was held up: the scan goes on where it was while the epoch is the same, starts over in a new
      epoch, and is over once the epoch has moved by three since the call. */
  lemma HeldUpGoesOn(s: State, t: nat)
    requires Live(s, t) && s.pcs[t].Reload? && s.pcs[t].op.Sync?
    ensures var pc := s.pcs[t];
            OnlyStep(s,
                     Go(s, t, if s.global == pc.delta then Scan(Walk(pc.op, pc.delta, pc.at, LookState, true, pc.open))
                              else if s.global < pc.op.e + 3 then NewScan(pc.op, s.global, pc.open)
                              else if pc.op.barrier then Drain(0, pc.open) else Idle), t)
  {
    hide AllOpen;
    var pc := s.pcs[t];
    var next := Go(s, t, if s.global == pc.delta then Scan(Walk(pc.op, pc.delta, pc.at, LookState, true, pc.open))
                         else if s.global < pc.op.e + 3 then NewScan(pc.op, s.global, pc.open)
                         else if pc.op.barrier then Drain(0, pc.open) else Idle);
    assert Reloads(s, next, t) && ScanStep(s, next, t);
    forall s' | Step(s, s', t) ensures s' == next { assert Reloads(s, s', t); }
  }

  // ----- ending a section

  /** The last section of a bucket ends, and all those that stay open on the record are newer: the record announces
      their epoch from then on, so that the old epoch does not hold up anybody. */
  lemma EndAnnouncesNewer(run: seq<State>, i: nat, t: nat, b: nat, sid: SectionId)
    requires IsRun(run) && i + 1 < |run| && DropsRef(run[i], run[i + 1], t) && run[i].pcs[t] == DelRef(b)
    requires OpenIn(run[i + 1].recs[t], sid)
    requires run[i + 1].recs[t].bucket[b].count == 0
    requires forall x: SectionId | OpenIn(run[i + 1].recs[t], x) ::
               x < |run[i].sections| && run[i].sections[x].epoch > run[i].recs[t].bucket[b].epoch
    ensures sid < |run[i].sections| && run[i + 1].recs[t].epoch == run[i].sections[sid].epoch
  {
    hide Next;
    EpochSafety.ReachableInv(run, i);
    var r, r' := run[i].recs[t], run[i + 1].recs[t];
    assert RecordInv(run[i], t);
    assert r'.held == r.held && r'.plain == r.plain;
    var c := (b + 1) % 2;
    assert sid in r.held[c];
    assert r.held[b] == {};
  }
}
