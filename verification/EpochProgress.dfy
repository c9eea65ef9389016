/** Epoch reclamation does reclaim: callbacks leave their lists once and for all, and a poll that
    finds nobody active runs every callback deferred on its record. */
module EpochProgress {
  import opened Epoch
  import opened EpochInvariant
  import opened EpochSteps
  import EpochSafety

  // ----- once

  /** No callback is queued twice, in whatever lists of whatever records. */
  lemma QueuedOnce(run: seq<State>, i: nat, t: nat, k: nat, j: nat, t': nat, k': nat, j': nat)
    requires IsRun(run) && i < |run| && t < |run[i].recs| && t' < |run[i].recs|
    requires k < |run[i].recs[t].pending| && j < |run[i].recs[t].pending[k]|
    requires k' < |run[i].recs[t'].pending| && j' < |run[i].recs[t'].pending[k']|
    requires run[i].recs[t].pending[k][j] == run[i].recs[t'].pending[k'][j']
    ensures t == t' && k == k' && j == j'
  {
    hide Next;
    EpochSafety.ReachableInv(run, i);
    var s, o := run[i], run[i].recs[t].pending[k][j];
    assert ListsInv(s, t) && ListsInv(s, t');
    assert PendingInv(s, t, k, o) && PendingInv(s, t', k', o);
    assert NoRepeats(s.recs[t].pending[k]);
  }

  /** A callback that may run is in no list any more, so no later dispatch finds it again. */
  lemma CallbacksRunOnce(run: seq<State>, i: nat, t: nat, k: nat, o: ObjectId)
    requires IsRun(run) && i < |run| && o in run[i].objs && run[i].objs[o].Done?
    requires t < |run[i].recs| && k < |run[i].recs[t].pending|
    ensures o !in run[i].recs[t].pending[k]
  {
    hide Next;
    EpochSafety.ReachableInv(run, i);
    assert ListsInv(run[i], t);
  }

  // ----- a poll with nobody in the way

  /** Consecutive steps of thread t. */
  ghost predicate IsPath(path: seq<State>, t: nat) {
    |path| > 0 && forall i | 0 <= i < |path| - 1 :: Step(path[i], path[i + 1], t)
  }

  ghost function End(path: seq<State>): State
    requires |path| > 0
  {
    path[|path| - 1]
  }

  lemma Extended(path: seq<State>, t: nat, s': State)
    requires IsPath(path, t) && Step(End(path), s', t)
    ensures IsPath(path + [s'], t) && End(path + [s']) == s' && (path + [s'])[0] == path[0]
  {
    hide Step;
    var longer := path + [s'];
    forall i | 0 <= i < |longer| - 1 ensures Step(longer[i], longer[i + 1], t) {
      if i < |path| - 1 { assert Step(path[i], path[i + 1], t); }
    }
  }

  ghost predicate NobodyActive(s: State) {
    forall u | 0 <= u < |s.recs| :: s.recs[u].active == 0
  }

  /** Every callback deferred on record t in s, list by list from k on, is still there in s', and those
      of the lists before k may run. */
  ghost predicate Drained(s: State, s': State, t: nat, k: nat) {
    && t < |s.recs| == |s'.recs| && |s.recs[t].pending| == |s'.recs[t].pending| == LISTS
    && s'.objs.Keys == s.objs.Keys
    && (forall j | 0 <= j < LISTS :: s'.recs[t].pending[j] == if j < k then [] else s.recs[t].pending[j])
    && (forall j, o | 0 <= j < LISTS && j < k && o in s.recs[t].pending[j] :: o in s'.objs && s'.objs[o].Done?)
    && (forall o | o in s.objs && s.objs[o].Done? :: s'.objs[o].Done?)
  }

  /** The scan of thread t has come down to record `at` and found nobody active. */
  ghost predicate ScanningQuietly(s: State, t: nat, e: nat, at: int, open: set<SectionId>) {
    t < |s.pcs| && s.pcs[t] == Scan(Walk(Poll(e), e, at, LookState, false, open))
  }

  lemma PassesRecord(path: seq<State>, t: nat, e: nat, at: int, open: set<SectionId>) returns (longer: seq<State>)
    requires IsPath(path, t) && Inv(End(path)) && Live(End(path), t) && NobodyActive(End(path))
    requires ScanningQuietly(End(path), t, e, at, open) && 0 <= at < |End(path).recs|
    ensures IsPath(longer, t) && longer[0] == path[0] && Inv(End(longer))
    ensures End(longer) == Go(End(path), t, Scan(Walk(Poll(e), e, at - 1, LookState, false, open)))
  {
    hide Inv;
    var s, w := End(path), Walk(Poll(e), e, at, LookState, false, open);
    if !s.recs[at].used {
      var s1 := Go(s, t, Scan(w.(at := at - 1)));
      assert ScanState(s, s1, t) && ScanStep(s, s1, t) && Step(s, s1, t);
      StepKeeps(s, s1, t);
      Extended(path, t, s1);
      longer := path + [s1];
    } else {
      var s1 := Go(s, t, Scan(w.(look := LookActive)));
      assert ScanState(s, s1, t) && ScanStep(s, s1, t) && Step(s, s1, t);
      StepKeeps(s, s1, t);
      Extended(path, t, s1);
      var s2 := Go(s1, t, Scan(w.(at := at - 1)));
      assert ScanActive(s1, s2, t) && ScanStep(s1, s2, t) && Step(s1, s2, t);
      StepKeeps(s1, s2, t);
      Extended(path + [s1], t, s2);
      longer := path + [s1] + [s2];
      assert s2 == Go(s, t, Scan(w.(at := at - 1)));
    }
  }

  lemma DrainsList(path: seq<State>, t: nat, k: nat, open: set<SectionId>) returns (longer: seq<State>)
    requires IsPath(path, t) && Inv(End(path)) && t < |End(path).recs| && k < LISTS
    requires End(path).recs[t].used && End(path).pcs[t] == Drain(k, open)
    ensures IsPath(longer, t) && longer[0] == path[0] && Inv(End(longer))
    ensures var s, s' := End(path), End(longer);
            && |s'.recs| == |s.recs| == |s'.pcs| == |s.pcs| && |s.recs[t].pending| == LISTS
            && Dispatch(s, s', t, k, if k + 1 < LISTS then Drain(k + 1, open) else Idle)
  {
    var s := End(path);
    assert RecordInv(s, t);
    var r := s.recs[t];
    var s' := Put(s, t, r.(pending := r.pending[k := []]), if k + 1 < LISTS then Drain(k + 1, open) else Idle)
              .(objs := map o | o in s.objs :: if o in r.pending[k] then Done(s.objs[o].guards) else s.objs[o]);
    assert Drains(s, s', t) && DeferStep(s, s', t);
    hide Inv;
    StepKeeps(s, s', t);
    Extended(path, t, s');
    longer := path + [s'];
  }

  lemma DispatchDrains(s0: State, s: State, s': State, t: nat, k: nat, pc: Pc)
    requires Inv(s) && Drained(s0, s, t, k) && k < LISTS && Dispatch(s, s', t, k, pc)
    ensures Drained(s0, s', t, k + 1)
  {
    assert ListsInv(s, t);
    forall j, o | 0 <= j < LISTS && j < k + 1 && o in s0.recs[t].pending[j] ensures o in s'.objs && s'.objs[o].Done? {
      if j == k { assert o in s.recs[t].pending[k] && PendingInv(s, t, k, o); }
    }
  }

  lemma DrainsAll(path: seq<State>, t: nat, open: set<SectionId>) returns (longer: seq<State>)
    requires IsPath(path, t) && Inv(End(path)) && t < |End(path).recs|
    requires End(path).recs[t].used && End(path).pcs[t] == Drain(0, open)
    ensures IsPath(longer, t) && longer[0] == path[0] && Inv(End(longer)) && |End(longer).pcs| == |End(longer).recs|
    ensures Drained(End(path), End(longer), t, LISTS) && End(longer).pcs[t] == Idle
  {
    var s0 := End(path);
    assert RecordInv(s0, t);
    longer := path;
    var k := 0;
    assert Drained(s0, s0, t, 0);
    hide Inv;
    hide Drained;
    while k < LISTS
      invariant k <= LISTS && IsPath(longer, t) && longer[0] == path[0] && Inv(End(longer))
      invariant Drained(s0, End(longer), t, k) && t < |End(longer).recs| == |End(longer).pcs|
      invariant End(longer).recs[t].used && End(longer).pcs[t] == if k < LISTS then Drain(k, open) else Idle
    {
      var s := End(longer);
      longer := DrainsList(longer, t, k, open);
      DispatchDrains(s0, s, End(longer), t, k, if k + 1 < LISTS then Drain(k + 1, open) else Idle);
      k := k + 1;
    }
  }

  lemma StartsScan(path: seq<State>, t: nat, e: nat, open: set<SectionId>) returns (longer: seq<State>)
    requires IsPath(path, t) && Inv(End(path)) && Live(End(path), t) && End(path).pcs[t] == NewScan(Poll(e), e, open)
    ensures IsPath(longer, t) && longer[0] == path[0] && Inv(End(longer))
    ensures End(longer) == Go(End(path), t, Scan(Walk(Poll(e), e, |End(path).recs| - 1, LookState, false, open)))
  {
    hide Inv;
    var s := End(path);
    var s' := Go(s, t, Scan(Walk(Poll(e), e, |s.recs| - 1, LookState, false, open)));
    assert ScanHead(s, s', t) && ScanStep(s, s', t) && Step(s, s', t);
    StepKeeps(s, s', t);
    Extended(path, t, s');
    longer := path + [s'];
  }

  lemma PopsFirst(s: State, t: nat) returns (s': State)
    requires Live(s, t) && s.pcs[t].PollPop? && |s.recs[t].pending| == LISTS
    ensures PollPops(s, s', t) && Step(s, s', t) && s'.pcs[t] == NewScan(Poll(s.pcs[t].e), s.pcs[t].e, s.pcs[t].open)
  {
    var r, e := s.recs[t], s.pcs[t].e;
    var k := (e + LISTS - 2) % LISTS;
    s' := Put(s, t, r.(pending := r.pending[k := []]), NewScan(Poll(e), e, s.pcs[t].open))
           .(objs := map o | o in s.objs :: if o in r.pending[k] then Done(s.objs[o].guards) else s.objs[o]);
    assert DeferStep(s, s', t);
  }

  /** A poll starts: the list of epoch - 2 is dispatched, and the scan is at the newest record. */
  lemma StartsPoll(s: State, t: nat) returns (path: seq<State>)
    requires Inv(s) && Live(s, t) && s.pcs[t] == Idle
    ensures IsPath(path, t) && path[0] == s && Inv(End(path))
    ensures var s' := End(path);
            && |s'.recs| == |s.recs| == |s'.pcs| && |s.recs[t].pending| == LISTS
            && ScanningQuietly(s', t, s.global, |s.recs| - 1, AllOpen(s))
            && Dispatch(Go(s, t, PollPop(s.global, AllOpen(s))), s', t, (s.global + LISTS - 2) % LISTS, s'.pcs[t])
  {
    assert RecordInv(s, t);
    hide Inv;
    var e, open := s.global, AllOpen(s);
    var s1 := Go(s, t, PollPop(e, open));
    assert PollLoads(s, s1, t) && ScanStep(s, s1, t) && Step(s, s1, t);
    var s2 := PopsFirst(s1, t);
    hide Step;
    StepKeeps(s, s1, t);
    StepKeeps(s1, s2, t);
    Extended([s], t, s1);
    Extended([s] + [s1], t, s2);
    path := StartsScan([s] + [s1] + [s2], t, e, open);
  }

  lemma FinishesScan(path: seq<State>, t: nat, e: nat, open: set<SectionId>) returns (longer: seq<State>)
    requires IsPath(path, t) && Inv(End(path)) && Live(End(path), t) && NobodyActive(End(path))
    requires ScanningQuietly(End(path), t, e, |End(path).recs| - 1, open)
    ensures IsPath(longer, t) && longer[0] == path[0] && Inv(End(longer))
    ensures var s := End(path); End(longer) == Put(s, t, s.recs[t].(epoch := e), Drain(0, open))
  {
    hide Inv;
    var s, at := End(path), |End(path).recs| - 1;
    longer := path;
    while at >= 0
      invariant -1 <= at < |s.recs| && IsPath(longer, t) && longer[0] == path[0] && Inv(End(longer))
      invariant End(longer) == Go(s, t, Scan(Walk(Poll(e), e, at, LookState, false, open)))
    {
      longer := PassesRecord(longer, t, e, at, open);
      at := at - 1;
    }
    var last := End(longer);
    var s' := Put(last, t, last.recs[t].(epoch := e), Drain(0, open));
    assert ScanDone(last, s', t) && ScanStep(last, s', t) && Step(last, s', t);
    StepKeeps(last, s', t);
    Extended(longer, t, s');
    longer := longer + [s'];
  }

  /** In every reachable state: if nobody is active and nobody interferes, a poll empties all four
      lists of its record and makes every callback on them runnable. */
  lemma PollReclaimsEverything(run: seq<State>, i: nat, t: nat) returns (path: seq<State>)
    requires IsRun(run) && i < |run| && NobodyActive(run[i]) && Live(run[i], t) && run[i].pcs[t] == Idle
    ensures IsPath(path, t) && path[0] == run[i]
    ensures var s, s' := path[0], End(path);
            && t < |s'.recs| == |s'.pcs| && s'.pcs[t] == Idle && |s.recs[t].pending| == |s'.recs[t].pending| == LISTS
            && forall k | 0 <= k < LISTS ::
                 && s'.recs[t].pending[k] == []
                 && forall o | o in s.recs[t].pending[k] :: o in s'.objs && s'.objs[o].Done?
  {
    hide Next;
    var s := run[i];
    EpochSafety.ReachableInv(run, i);
    assert ListsInv(s, t);
    forall k, o | 0 <= k < |s.recs[t].pending| && o in s.recs[t].pending[k] ensures o in s.objs {
      assert PendingInv(s, t, k, o);
    }
    hide Inv;
    path := StartsPoll(s, t);
    var s2 := End(path);
    path := FinishesScan(path, t, s.global, AllOpen(s));
    var s3 := End(path);
    path := DrainsAll(path, t, AllOpen(s));
    var first := (s.global + LISTS - 2) % LISTS;
    forall k, o | 0 <= k < LISTS && o in s.recs[t].pending[k] ensures o in End(path).objs && End(path).objs[o].Done? {
      assert if k == first then s2.objs[o].Done? else o in s3.recs[t].pending[k];
    }
  }
}
