/** When deferred callbacks run: after three polls that move the epoch on, and at the end of every barrier. */
module EpochReclaims {
  import opened Epoch
  import opened EpochInvariant
  import opened EpochSteps
  import opened EpochProgress
  import opened EpochTicks
  import EpochSafety

  // ----- a callback waits in its list until it may run

  ghost predicate IsDone(s: State, o: ObjectId) {
    o in s.objs && s.objs[o].Done?
  }

  /** The callback of o waits in list k of record t, or may run already. */
  ghost predicate WaitsOrDone(s: State, t: nat, k: nat, o: ObjectId) {
    IsDone(s, o) || (t < |s.recs| && k < |s.recs[t].pending| && o in s.recs[t].pending[k])
  }

  lemma DeferStepKeepsDone(s: State, s': State, u: nat, o: ObjectId)
    requires Inv(s) && DeferStep(s, s', u) && IsDone(s, o)
    ensures IsDone(s', o)
  {
    if CallPushes(s, s', u) { assert ThreadInv(s, u); }
  }

  lemma StepKeepsDone(s: State, s': State, u: nat, o: ObjectId)
    requires Inv(s) && Step(s, s', u) && IsDone(s, o)
    ensures IsDone(s', o)
  {
    hide Inv;
    if DeferStep(s, s', u) {
      DeferStepKeepsDone(s, s', u, o);
    } else {
      OtherObjects(s, s', u);
    }
  }

  lemma OtherObjects(s: State, s': State, u: nat)
    requires SectionStep(s, s', u) || RegistryStep(s, s', u) || ScanStep(s, s', u)
    ensures s'.objs == s.objs
  {}

  lemma NextKeepsDone(s: State, s': State, o: ObjectId)
    requires Inv(s) && Next(s, s') && IsDone(s, o)
    ensures IsDone(s', o)
  {
    hide Inv;
    hide Step;
    if u: nat :| Step(s, s', u) { StepKeepsDone(s, s', u, o); }
  }

  lemma ScanStepLeavesLists(s: State, s': State, u: nat, t: nat)
    requires ScanStep(s, s', u) && t < |s.recs|
    ensures t < |s'.recs| && s'.recs[t].pending == s.recs[t].pending
  {}

  lemma SectionStepLeavesLists(s: State, s': State, u: nat, t: nat)
    requires SectionStep(s, s', u) && t < |s.recs|
    ensures t < |s'.recs| && s'.recs[t].pending == s.recs[t].pending
  {}

  /** The steps that do not defer or dispatch leave the lists alone, unless the record is unregistered. */
  lemma ListsStay(s: State, s': State, u: nat, t: nat)
    requires SectionStep(s, s', u) || RegistryStep(s, s', u) || ScanStep(s, s', u)
    requires t < |s.recs| && t < |s'.pcs| && s'.pcs[t] != FreeRecord
    ensures t < |s'.recs| && s'.recs[t].pending == s.recs[t].pending
  {
    hide ScanStep;
    hide SectionStep;
    if ScanStep(s, s', u) { ScanStepLeavesLists(s, s', u, t); }
    else if SectionStep(s, s', u) { SectionStepLeavesLists(s, s', u, t); }
  }

  lemma DeferStepKeepsWaiting(s: State, s': State, u: nat, t: nat, k: nat, o: ObjectId)
    requires Inv(s) && DeferStep(s, s', u) && t < |s.recs| && k < |s.recs[t].pending| && o in s.recs[t].pending[k]
    ensures WaitsOrDone(s', t, k, o)
  {
    assert ListsInv(s, t) && PendingInv(s, t, k, o);
    if u != t { assert s'.recs[t] == s.recs[t]; }
  }

  lemma StepKeepsWaiting(s: State, s': State, u: nat, t: nat, k: nat, o: ObjectId)
    requires Inv(s) && Step(s, s', u) && WaitsOrDone(s, t, k, o) && t < |s'.pcs| && s'.pcs[t] != FreeRecord
    ensures WaitsOrDone(s', t, k, o)
  {
    hide Inv;
    if IsDone(s, o) {
      StepKeepsDone(s, s', u, o);
    } else if DeferStep(s, s', u) {
      DeferStepKeepsWaiting(s, s', u, t, k, o);
    } else {
      ListsStay(s, s', u, t);
    }
  }

  lemma NextKeepsWaiting(s: State, s': State, t: nat, k: nat, o: ObjectId)
    requires Inv(s) && Next(s, s') && WaitsOrDone(s, t, k, o) && t < |s'.pcs| && s'.pcs[t] != FreeRecord
    ensures WaitsOrDone(s', t, k, o)
  {
    hide Inv;
    hide Step;
    if IsDone(s, o) {
      NextKeepsDone(s, s', o);
    } else if u: nat :| Step(s, s', u) {
      StepKeepsWaiting(s, s', u, t, k, o);
    }
  }

  /** The owner does not unregister record t between instants a and b. */
  ghost predicate Registered(run: seq<State>, a: nat, b: nat, t: nat) {
    forall i: nat | a <= i <= b && i < |run| :: t < |run[i].pcs| && run[i].pcs[t] != FreeRecord
  }

  lemma {:induction false} KeepsWaiting(run: seq<State>, a: nat, b: nat, t: nat, k: nat, o: ObjectId)
    requires IsRun(run) && a <= b < |run| && Registered(run, a, b, t) && WaitsOrDone(run[a], t, k, o)
    ensures WaitsOrDone(run[b], t, k, o)
    decreases b
  {
    hide Next;
    hide Inv;
    hide WaitsOrDone;
    if a < b {
      KeepsWaiting(run, a, b - 1, t, k, o);
      EpochSafety.ReachableInv(run, b - 1);
      assert StepAt(run, b - 1);
      NextKeepsWaiting(run[b - 1], run[b], t, k, o);
    }
  }

  // ----- from the call on

  /** The call of ck_epoch_call has not stored the callback yet, or it has. */
  ghost predicate CallingOrWaits(s: State, t: nat, o: ObjectId) {
    || (t < |s.pcs| && s.pcs[t].CallPush? && s.pcs[t].obj == o)
    || (exists k: nat :: k < LISTS && WaitsOrDone(s, t, k, o))
  }

  lemma CallIsStored(s: State, s': State, t: nat, o: ObjectId)
    requires Inv(s) && CallPushes(s, s', t) && s.pcs[t].obj == o
    ensures WaitsOrDone(s', t, s.pcs[t].e % LISTS, o)
  {}

  lemma StaysInCall(s: State, s': State, u: nat, t: nat)
    requires Step(s, s', u) && t < |s.recs| == |s.pcs| && s.pcs[t].CallPush?
    ensures t < |s'.pcs| && (s'.pcs[t] == s.pcs[t] || (u == t && CallPushes(s, s', t)))
  {
    if u != t { EpochSafety.OtherStep(s, s', t, u); }
  }

  lemma CallGoesOn(s: State, s': State, t: nat, o: ObjectId)
    requires Inv(s) && Next(s, s') && CallingOrWaits(s, t, o) && t < |s'.pcs| && s'.pcs[t] != FreeRecord
    ensures CallingOrWaits(s', t, o)
  {
    if t < |s.pcs| && s.pcs[t].CallPush? && s.pcs[t].obj == o {
      hide Inv;
      hide Step;
      hide WaitsOrDone;
      if u: nat :| Step(s, s', u) {
        SameLengths(s);
        StaysInCall(s, s', u, t);
        if s'.pcs[t] != s.pcs[t] { CallIsStored(s, s', t, o); }
      }
    } else {
      var k: nat :| k < LISTS && WaitsOrDone(s, t, k, o);
      NextKeepsWaiting(s, s', t, k, o);
    }
  }

  lemma SameLengths(s: State)
    requires Inv(s)
    ensures |s.recs| == |s.pcs|
  {}

  /** A callback that was passed to ck_epoch_call at step c waits in a list once the call is over, or may run. */
  lemma {:induction false} CalledIsQueued(run: seq<State>, c: nat, i: nat, t: nat, o: ObjectId)
    requires IsRun(run) && c < i < |run| && CallLoads(run[c], run[c + 1], t, o) && Registered(run, c, i, t)
    ensures CallingOrWaits(run[i], t, o)
    decreases i
  {
    hide Next;
    hide Inv;
    if i > c + 1 {
      CalledIsQueued(run, c, i - 1, t, o);
      hide CallingOrWaits;
      EpochSafety.ReachableInv(run, i - 1);
      assert StepAt(run, i - 1);
      CallGoesOn(run[i - 1], run[i], t, o);
    }
  }

  // ----- polls that move the epoch on

  /** The poll from a to b, with every active record in the current epoch, that begins in epoch g. */
  ghost predicate TickingPoll(run: seq<State>, a: nat, b: nat, t: nat, g: nat) {
    UndisturbedPoll(run, a, b, t) && Observed(run[a], t) && run[a].global == g
  }

  lemma DueIsRun(s: State, s': State, t: nat, k: nat, o: ObjectId)
    requires Inv(s) && Ticked(s, s', t) && k < LISTS && WaitsOrDone(s, t, k, o)
    ensures WaitsOrDone(s', t, k, o) && (IsDue(k, s.global) ==> IsDone(s', o))
  {
    if !IsDone(s, o) {
      assert ListsInv(s, t) && PendingInv(s, t, k, o);
    }
  }

  lemma PollRuns(run: seq<State>, a: nat, b: nat, t: nat, g: nat, k: nat, o: ObjectId)
    requires IsRun(run) && TickingPoll(run, a, b, t, g) && k < LISTS && WaitsOrDone(run[a], t, k, o)
    ensures WaitsOrDone(run[b], t, k, o) && (IsDue(k, g) ==> IsDone(run[b], o)) && run[b].global == g + 1
  {
    hide Next;
    EpochSafety.ReachableInv(run, a);
    PollTicks(run, a, b, t);
    hide Observed;
    hide Inv;
    DueIsRun(run[a], run[b], t, k, o);
  }

  lemma {:induction false} StaysDone(run: seq<State>, a: nat, b: nat, o: ObjectId)
    requires IsRun(run) && a <= b < |run| && IsDone(run[a], o)
    ensures IsDone(run[b], o)
    decreases b
  {
    hide Next;
    hide Inv;
    if a < b {
      StaysDone(run, a, b - 1, o);
      EpochSafety.ReachableInv(run, b - 1);
      assert StepAt(run, b - 1);
      NextKeepsDone(run[b - 1], run[b], o);
    }
  }

  /** Of three polls in a row, each in the epoch in which the one before has left, two make every list due. */
  lemma DueSoon(k: nat, g: nat)
    requires k < LISTS
    ensures IsDue(k, g) || IsDue(k, g + 1) || (IsDue(k, g + 2) && k == (g + 1) % LISTS)
  {}

  /** Two polls with the active readers renewed in between, in the epochs g and g + 1: every callback that waited on
      the record at the first one has run, unless it waited in the list of epoch g + 1. Between the polls anything
      may happen but another tick, or the end of the record. */
  lemma TwoPollsRun(run: seq<State>, t: nat, g: nat, a: nat, b: nat, c: nat, d: nat, k: nat, o: ObjectId)
    requires IsRun(run) && a < b <= c < d < |run| && Registered(run, a, d, t)
    requires TickingPoll(run, a, b, t, g) && TickingPoll(run, c, d, t, g + 1)
    requires k < LISTS && WaitsOrDone(run[a], t, k, o)
    ensures WaitsOrDone(run[d], t, k, o) && (k != (g + 1) % LISTS ==> IsDone(run[d], o))
  {
    hide IsRun;
    hide TickingPoll;
    hide WaitsOrDone;
    DueSoon(k, g);
    hide IsDue;
    hide IsDone;
    PollRuns(run, a, b, t, g, k, o);
    KeepsWaiting(run, b, c, t, k, o);
    PollRuns(run, c, d, t, g + 1, k, o);
    if IsDue(k, g) { StaysDone(run, b, d, o); }
  }

  /** In particular what was deferred in epoch g, or in one of the two before. */
  lemma RecentRunsAfterTwo(run: seq<State>, t: nat, g: nat, a: nat, b: nat, c: nat, d: nat, k: nat, o: ObjectId)
    requires IsRun(run) && a < b <= c < d < |run| && Registered(run, a, d, t)
    requires TickingPoll(run, a, b, t, g) && TickingPoll(run, c, d, t, g + 1)
    requires t < |run[a].recs| && k < |run[a].recs[t].pending| && o in run[a].recs[t].pending[k]
    requires o in run[a].objs && run[a].objs[o].Pending? && g <= run[a].objs[o].epoch + 2
    ensures IsDone(run[d], o)
  {
    hide Next;
    hide Step;
    EpochSafety.ReachableInv(run, a);
    assert ListsInv(run[a], t) && PendingInv(run[a], t, k, o);
    TwoPollsRun(run, t, g, a, b, c, d, k, o);
  }

  /** A third one runs the rest. */
  lemma ThreePollsRunAll(run: seq<State>, t: nat, g: nat, a: nat, b: nat, c: nat, d: nat, e: nat, f: nat, k: nat,
                         o: ObjectId)
    requires IsRun(run) && a < b <= c < d <= e < f < |run| && Registered(run, a, f, t)
    requires TickingPoll(run, a, b, t, g) && TickingPoll(run, c, d, t, g + 1) && TickingPoll(run, e, f, t, g + 2)
    requires k < LISTS && WaitsOrDone(run[a], t, k, o)
    ensures IsDone(run[f], o)
  {
    hide IsRun;
    hide TickingPoll;
    hide WaitsOrDone;
    hide IsDone;
    DueSoon(k, g);
    TwoPollsRun(run, t, g, a, b, c, d, k, o);
    hide IsDue;
    KeepsWaiting(run, d, e, t, k, o);
    PollRuns(run, e, f, t, g + 2, k, o);
    if k != (g + 1) % LISTS { StaysDone(run, d, f, o); }
  }

  /** So a callback deferred before the first poll, whenever that was, has run after the third. */
  lemma DeferredRuns(run: seq<State>, t: nat, o: ObjectId, s: nat, g: nat, a: nat, b: nat, c: nat, d: nat, e: nat,
                     f: nat)
    requires IsRun(run) && s < a < b <= c < d <= e < f < |run| && Registered(run, s, f, t)
    requires CallLoads(run[s], run[s + 1], t, o)
    requires TickingPoll(run, a, b, t, g) && TickingPoll(run, c, d, t, g + 1) && TickingPoll(run, e, f, t, g + 2)
    ensures IsDone(run[f], o)
  {
    hide Next;
    hide Step;
    CalledIsQueued(run, s, a, t, o);
    var k: nat :| k < LISTS && WaitsOrDone(run[a], t, k, o);
    hide Observed;
    ThreePollsRunAll(run, t, g, a, b, c, d, e, f, k, o);
  }
}
