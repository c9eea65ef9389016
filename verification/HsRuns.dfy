/** The two views of ck_hs together: lookups beside a writer that makes, one by one, the stores that a
    published `HsMap.Map` has logged. */
module HsRuns {
  import opened Wrappers
  import opened HashKeys
  import opened HsTable
  import opened HsMap
  import opened HsReaders

  ghost predicate ReadersMove(s: State, s': State) {
    || (exists t, key :: Call(s, s', t, key))
    || (exists t :: Return(s, s', t))
    || (exists t :: ReaderStep(s, s', t))
  }

  /** Step i is one of a reader, or the next store of the log; `at[i]` counts the stores made. */
  ghost predicate Moves(run: seq<State>, at: seq<nat>, log: seq<Snapshot>, i: nat) {
    && i + 1 < |run| == |at|
    && if at[i + 1] == at[i] then ReadersMove(run[i], run[i + 1])
       else at[i + 1] == at[i] + 1 < |log| && |run[i].tables| > 0 && run[i + 1] == AfterStore(run[i], log[at[i] + 1])
  }

  /** Readers and the writer of the log take turns in any way. */
  ghost predicate Interleaves(run: seq<State>, at: seq<nat>, log: seq<Snapshot>) {
    && |run| == |at| > 0 && |log| > 0 && at[0] == 0
    && run[0].tables == [log[0].table] && run[0].doomed == log[0].doomed == None
    && (forall t | 0 <= t < |run[0].readers| :: run[0].readers[t] == Idle)
    && forall i: nat | i + 1 < |run| :: Moves(run, at, log, i)
  }

  /** The current map and the writer's signal are as logged. */
  ghost predicate Shows(s: State, sn: Snapshot) {
    |s.tables| > 0 && Current(s) == sn.table && s.doomed == sn.doomed
  }

  lemma MoveIsStep(run: seq<State>, at: seq<nat>, log: seq<Snapshot>, i: nat)
    requires LegalLog(log) && Moves(run, at, log, i) && Inv(run[i]) && at[i] < |log| && Shows(run[i], log[at[i]])
    ensures StepAt(run, i) && Inv(run[i + 1]) && at[i] <= at[i + 1] < |log| && Shows(run[i + 1], log[at[i + 1]])
  {
    hide Inv;
    hide Legal;
    var s, s' := run[i], run[i + 1];
    if at[i + 1] != at[i] {
      assert Legal(log[at[i]], log[at[i] + 1]);
      assert log[at[i]] == Snapshot(Current(s), s.doomed);
      LegalStoreIsWriterStep(s, log[at[i] + 1]);
      assert |s'.tables| > 0;
    } else {
      assert s'.tables == s.tables && s'.doomed == s.doomed;
    }
    NextKeeps(s, s');
  }

  lemma {:induction false} FollowsLog(run: seq<State>, at: seq<nat>, log: seq<Snapshot>, i: nat)
    requires LegalLog(log) && Interleaves(run, at, log) && Good(log[0].table, None) && i < |run|
    ensures Inv(run[i]) && at[i] < |log| && Shows(run[i], log[at[i]])
    ensures i > 0 ==> StepAt(run, i - 1) && at[i - 1] <= at[i]
  {
    if i == 0 {
      assert Doomed(run[0], 0) == None;
    } else {
      FollowsLog(run, at, log, i - 1);
      hide Inv;
      MoveIsStep(run, at, log, i - 1);
    }
  }

  /** Whatever the turns, this is a run of the concurrent model, in which the current map goes through the
      logged states in order. */
  lemma LogIsRun(run: seq<State>, at: seq<nat>, log: seq<Snapshot>)
    requires LegalLog(log) && Interleaves(run, at, log) && Good(log[0].table, None)
    ensures IsRun(run)
    ensures forall i: nat | i < |run| :: at[i] < |log| && Shows(run[i], log[at[i]])
  {
    hide Inv;
    hide Moves;
    hide LegalLog;
    forall i: nat | i < |run| ensures at[i] < |log| && Shows(run[i], log[at[i]]) { FollowsLog(run, at, log, i); }
    forall i: nat | i + 1 < |run| ensures StepAt(run, i) { FollowsLog(run, at, log, i + 1); }
  }

  lemma {:induction false} StoresInOrder(run: seq<State>, at: seq<nat>, log: seq<Snapshot>, i: nat, j: nat)
    requires LegalLog(log) && Interleaves(run, at, log) && Good(log[0].table, None) && i <= j < |run|
    ensures at[i] <= at[j]
    decreases j
  {
    hide Inv;
    if i < j {
      StoresInOrder(run, at, log, i, j - 1);
      FollowsLog(run, at, log, j);
    }
  }

  /** In the table t the answer of a lookup is right. */
  ghost predicate IsAnswer(t: Table, key: Key, found: Option<Key>) {
    if found.Some? then InTable(t, found.value) && Same(t.cb, found.value, key) else !Has(t, key)
  }

  /** Every lookup answers for one of the states that the writer has logged during the call. */
  lemma LookupsAnswerForTheLog(run: seq<State>, at: seq<nat>, log: seq<Snapshot>, a: nat, b: nat, t: nat, key: Key)
    requires LegalLog(log) && Interleaves(run, at, log) && Good(log[0].table, None)
    requires InCall(run, a, b, t, key) && run[b].readers[t].Done?
    ensures at[a] <= at[b] < |log|
    ensures exists k: nat :: at[a] <= k <= at[b] && IsAnswer(log[k].table, key, run[b].readers[t].found)
  {
    LogIsRun(run, at, log);
    GetIsAtomic(run, a, b, t, key);
    hide LegalLog;
    hide Interleaves;
    hide IsRun;
    var i: nat :| a <= i <= b && Answers(run, i, key, run[b].readers[t].found);
    StoresInOrder(run, at, log, a, i);
    StoresInOrder(run, at, log, i, b);
    assert Shows(run[i], log[at[i]]);
    assert IsAnswer(log[at[i]].table, key, run[b].readers[t].found);
  }
}
