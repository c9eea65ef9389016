/** What the epoch protocol promises over whole runs, without mentioning its invariant. */
module EpochSafety {
  import opened Epoch
  import opened EpochInvariant
  import opened EpochSteps

  lemma {:induction false} ReachableInv(run: seq<State>, i: nat)
    requires IsRun(run) && i < |run|
    ensures Inv(run[i])
  {
    hide Inv;
    hide Next;
    if i == 0 {
      InitHolds(run[0]);
    } else {
      ReachableInv(run, i - 1);
      assert StepAt(run, i - 1);
      NextKeeps(run[i - 1], run[i]);
    }
  }

  // ----- the global epoch never runs ahead of a reader

  /** A reader that has finished its begin holds the global epoch or the one before. */
  lemma ReadersLagByAtMostOne(run: seq<State>, i: nat, t: nat)
    requires IsRun(run) && i < |run| && t < |run[i].recs|
    requires run[i].recs[t].active > 0 && t < |run[i].pcs| && !run[i].pcs[t].BeginLoad? && !run[i].pcs[t].BeginStore?
    ensures run[i].recs[t].epoch <= run[i].global <= run[i].recs[t].epoch + 1
  {
    ReachableInv(run, i);
    assert RecordInv(run[i], t);
  }

  /** Sections in one bucket all loaded one epoch, and whichever section closes, the record never
      announces an epoch newer than a section still open. */
  lemma NestedSectionsStayCovered(run: seq<State>, i: nat, t: nat)
    requires IsRun(run) && i < |run| && t < |run[i].recs|
    ensures var s := run[i];
            var r := s.recs[t];
            && |r.held| == 2
            && (forall b, x, y | 0 <= b < 2 && x in r.held[b] && y in r.held[b] ::
                  x < |s.sections| && y < |s.sections| && s.sections[x].epoch == s.sections[y].epoch)
            && (forall b, x | 0 <= b < 2 && x in r.held[b] ::
                  x < |s.sections| && r.epoch <= s.sections[x].epoch <= r.epoch + 1)
  {
    ReachableInv(run, i);
    var s := run[i];
    assert RecordInv(s, t);
    forall b, x | 0 <= b < 2 && x in s.recs[t].held[b]
      ensures x < |s.sections| && s.recs[t].epoch <= s.sections[x].epoch <= s.recs[t].epoch + 1
    {
      assert OpenIn(s.recs[t], x);
      OpenIsRecent(s, x);
    }
  }

  // ----- no callback runs too early

  /** Nothing is unlinked, and every object keeps the sections recorded when it was. */
  ghost predicate KeepsGuards(s: State, s': State) {
    && s'.objs.Keys == s.objs.Keys
    && forall o | o in s.objs :: s'.objs[o].guards == s.objs[o].guards
  }

  lemma SectionStepKeepsGuards(s: State, s': State, t: nat)
    requires SectionStep(s, s', t) || RegistryStep(s, s', t)
    ensures KeepsGuards(s, s')
  {
    assert s'.objs == s.objs;
  }

  lemma ScanStepKeepsGuards(s: State, s': State, t: nat)
    requires ScanStep(s, s', t)
    ensures KeepsGuards(s, s')
  {
    assert s'.objs == s.objs;
  }

  lemma DeferStepKeepsGuards(s: State, s': State, t: nat)
    requires DeferStep(s, s', t)
    ensures KeepsGuards(s, s')
  {}

  lemma StepKeepsGuards(s: State, s': State, t: nat)
    requires Step(s, s', t)
    ensures KeepsGuards(s, s')
  {
    hide SectionStep;
    hide RegistryStep;
    hide DeferStep;
    hide ScanStep;
    hide KeepsGuards;
    if DeferStep(s, s', t) { DeferStepKeepsGuards(s, s', t); }
    else if ScanStep(s, s', t) { ScanStepKeepsGuards(s, s', t); }
    else { SectionStepKeepsGuards(s, s', t); }
  }

  lemma UnlinkRecordsReaders(s: State, s': State, o: ObjectId)
    requires Next(s, s') && o !in s.objs && o in s'.objs
    ensures s'.objs[o].guards == AllOpen(s)
  {
    hide Step;
    forall t: nat ensures Step(s, s', t) ==> KeepsGuards(s, s') {
      if Step(s, s', t) { StepKeepsGuards(s, s', t); }
    }
    assert exists p :: Unlink(s, s', p);
  }

  lemma GuardsStay(s: State, s': State, o: ObjectId)
    requires Next(s, s') && o in s.objs
    ensures o in s'.objs && s'.objs[o].guards == s.objs[o].guards
  {
    hide Step;
    if t :| Step(s, s', t) { StepKeepsGuards(s, s', t); }
  }

  lemma {:induction false} GuardsStayInRun(run: seq<State>, i: nat, j: nat, o: ObjectId)
    requires IsRun(run) && i <= j < |run| && o in run[i].objs
    ensures o in run[j].objs && run[j].objs[o].guards == run[i].objs[o].guards
    decreases j
  {
    hide Next;
    if i < j {
      GuardsStayInRun(run, i, j - 1, o);
      assert StepAt(run, j - 1);
      GuardsStay(run[j - 1], run[j], o);
    }
  }

  /** Step i unlinks object o. Once its callback may run, at any later state j, no section that was
      open at step i is still open. This covers polls at epoch - 2 and epoch - 1, polls that find
      nobody active, and barriers. */
  lemma NoCallbackUnderAReader(run: seq<State>, i: nat, j: nat, o: ObjectId, sid: SectionId)
    requires IsRun(run) && i < j < |run|
    requires o !in run[i].objs && o in run[i + 1].objs && IsOpen(run[i], sid)
    requires o in run[j].objs && run[j].objs[o].Done?
    ensures !IsOpen(run[j], sid)
  {
    hide Next;
    assert StepAt(run, i);
    UnlinkRecordsReaders(run[i], run[i + 1], o);
    GuardsStayInRun(run, i + 1, j, o);
    ReachableInv(run, j);
    assert ObjectInv(run[j], o);
  }

  // ----- synchronize waits for the readers it found

  /** The thread is inside the loop of ck_epoch_synchronize_wait. */
  ghost predicate Synchronizing(pc: Pc) {
    (pc.Scan? && pc.walk.op.Sync?) || (pc.Reload? && pc.op.Sync?) || (pc.Advance? && pc.op.Sync?)
  }

  /** The sections that were open at the call, kept along as history. */
  function OpenAtCall(pc: Pc): set<SectionId> {
    match pc
    case Scan(w) => w.open
    case Reload(_, _, _, open) => open
    case Advance(_, _, open) => open
    case _ => {}
  }

  /** Each step of the call goes on or leaves it, through whichever exit, with those sections over. */
  lemma OwnSynchronizeStep(s: State, s': State, t: nat)
    requires Inv(s) && Step(s, s', t) && t < |s.recs| && Synchronizing(s.pcs[t])
    ensures t < |s'.recs| == |s'.pcs|
    ensures if Synchronizing(s'.pcs[t]) then OpenAtCall(s'.pcs[t]) == OpenAtCall(s.pcs[t])
            else Ended(s', OpenAtCall(s.pcs[t]))
  {
    assert RecordInv(s, t);
    assert ScanStep(s, s', t);
    if Reloads(s, s', t) {
      ReloadsKeeps(s, s', t);
    } else if ScanDone(s, s', t) {
      ScanDoneKeeps(s, s', t);
    } else if Advances(s, s', t) {
      AdvancesKeeps(s, s', t);
    } else {
      assert ScanHead(s, s', t) || ScanState(s, s', t) || ScanActive(s, s', t) || ScanEpoch(s, s', t);
    }
  }

  lemma OtherStep(s: State, s': State, t: nat, u: nat)
    requires Step(s, s', u) && u != t && t < |s.recs| == |s.pcs|
    ensures |s.recs| == |s'.recs| == |s'.pcs| && s'.pcs[t] == s.pcs[t]
  {}

  lemma SynchronizeStep(s: State, s': State, t: nat)
    requires Inv(s) && Next(s, s') && t < |s.recs| && Synchronizing(s.pcs[t])
    ensures t < |s'.recs| == |s'.pcs|
    ensures if Synchronizing(s'.pcs[t]) then OpenAtCall(s'.pcs[t]) == OpenAtCall(s.pcs[t])
            else Ended(s', OpenAtCall(s.pcs[t]))
  {
    hide Step;
    if u :| Step(s, s', u) {
      if u == t { OwnSynchronizeStep(s, s', t); } else { OtherStep(s, s', t, u); }
    }
  }

  lemma SynchronizeAt(run: seq<State>, i: nat, t: nat)
    requires IsRun(run) && i + 1 < |run| && t < |run[i].recs| && t < |run[i].pcs| && Synchronizing(run[i].pcs[t])
    ensures t < |run[i + 1].recs| == |run[i + 1].pcs|
    ensures if Synchronizing(run[i + 1].pcs[t]) then OpenAtCall(run[i + 1].pcs[t]) == OpenAtCall(run[i].pcs[t])
            else Ended(run[i + 1], OpenAtCall(run[i].pcs[t]))
  {
    hide Next;
    hide Inv;
    ReachableInv(run, i);
    assert StepAt(run, i);
    SynchronizeStep(run[i], run[i + 1], t);
  }

  lemma {:induction false} SynchronizeRun(run: seq<State>, i: nat, j: nat, t: nat)
    requires IsRun(run) && i <= j < |run| && t < |run[i].recs|
    requires forall m: nat | i <= m <= j :: t < |run[m].pcs| && Synchronizing(run[m].pcs[t])
    ensures OpenAtCall(run[j].pcs[t]) == OpenAtCall(run[i].pcs[t]) && t < |run[j].recs|
    decreases j
  {
    hide Next;
    if i < j {
      SynchronizeRun(run, i, j - 1, t);
      SynchronizeAt(run, j - 1, t);
    }
  }

  /** Thread t calls ck_epoch_synchronize (or the barrier) at step i and is out of its loop again,
      for the first time, at state j: every section open at the call has ended. */
  lemma SynchronizeWaitsForReaders(run: seq<State>, i: nat, j: nat, t: nat, barrier: bool, sid: SectionId)
    requires IsRun(run) && i + 1 < j < |run| && SyncLoads(run[i], run[i + 1], t, barrier)
    requires forall m: nat | i < m < j :: t < |run[m].pcs| && Synchronizing(run[m].pcs[t])
    requires t < |run[j].pcs| && !Synchronizing(run[j].pcs[t])
    requires IsOpen(run[i], sid)
    ensures !IsOpen(run[j], sid)
  {
    hide Next;
    SynchronizeRun(run, i + 1, j - 1, t);
    SynchronizeAt(run, j - 1, t);
    assert sid in AllOpen(run[i]);
  }
}
