/** A lookup of ck_hs.c that no writer disturbs comes to its end, with the right answer. */
module HsProgress {
  import opened Wrappers
  import opened MapSizes
  import opened HashKeys
  import opened HsTable
  import opened HsReaders

  /** The generation has not been loaded yet, or has not changed since. */
  ghost predicate WillPass(s: State, pc: Pc)
    requires Inv(s) && MapExists(s, pc)
  {
    HasMap(pc) && !pc.LoadGeneration? ==> pc.g == Generation(s, pc)
  }

  function Stage(pc: Pc): nat {
    match pc
    case LoadMap(_) => 6
    case LoadGeneration(_, _) => 5
    case LoadBound(_, _, _) => 4
    case LoadMaximum(_, _, _) => 3
    case Probing(_, _, _, _, _) => 2
    case Reload(_, _, _, _) => 1
    case _ => 0
  }

  function ProbesLeft(pc: Pc): nat {
    if pc.Probing? && pc.p <= pc.limit then pc.limit - pc.p else 0
  }

  /** The lookup makes at most as many probes as the home bound, or the maximum where that is saturated or absent. */
  ghost predicate WithinLimit(s: State, pc: Pc)
    requires Inv(s) && MapExists(s, pc)
  {
    && (pc.LoadMaximum? ==> s.tables[pc.table].maximum == Bound(s.tables[pc.table], Hashed(s, pc)))
    && (pc.Probing? ==> pc.p <= pc.limit == Bound(s.tables[pc.table], Hashed(s, pc)))
  }

  /** Each step of a lookup that will pass gets nearer to its end. */
  lemma AdvanceGetsNearer(s: State, pc: Pc)
    requires Inv(s) && MapExists(s, pc) && !pc.Idle? && !pc.Done? && WillPass(s, pc) && WithinLimit(s, pc)
    ensures var pc' := Advance(s, pc);
            && !pc'.Idle? && pc'.key == pc.key
            && (HasMap(pc') ==> pc'.table == if HasMap(pc) then pc.table else |s.tables| - 1)
            && MapExists(s, pc') && WithinLimit(s, pc') && WillPass(s, pc')
            && (Stage(pc') < Stage(pc) || (Stage(pc') == Stage(pc) && ProbesLeft(pc') < ProbesLeft(pc)))
  {
    if HasMap(pc) { TableIsFormed(s, pc.table); }
    hide Pos;
    hide Good;
  }

  lemma TableIsFormed(s: State, j: nat)
    requires Inv(s) && j < |s.tables|
    ensures Formed(s.tables[j])
  {
    assert Good(s.tables[j], Doomed(s, j));
  }

  /** Consecutive steps of reader t from instant a on. */
  ghost predicate OnlyReader(run: seq<State>, a: nat, t: nat) {
    forall i: nat | a <= i && i + 1 < |run| :: StepOf(run, i, t)
  }

  ghost predicate StepOf(run: seq<State>, i: nat, t: nat) {
    i + 1 < |run| && ReaderStep(run[i], run[i + 1], t)
  }

  lemma Extended(run: seq<State>, a: nat, t: nat, s': State)
    requires IsRun(run) && a < |run| && OnlyReader(run, a, t) && ReaderStep(run[|run| - 1], s', t)
    ensures IsRun(run + [s']) && OnlyReader(run + [s'], a, t)
  {
    hide ReaderStep;
    hide Init;
    var longer := run + [s'];
    assert Next(run[|run| - 1], s');
    forall i: nat | i + 1 < |longer| ensures StepAt(longer, i) && (a <= i ==> StepOf(longer, i, t)) {
      if i + 1 < |run| {
        assert StepAt(run, i);
        if a <= i { assert StepOf(run, i, t); }
      }
    }
  }

  /** Every state from instant a on shows the same maps, and thread t in its call. */
  ghost predicate SameMaps(run: seq<State>, a: nat, t: nat) {
    forall i: nat | a <= i < |run| ::
      && run[i].tables == run[a].tables && run[i].doomed == run[a].doomed
      && t < |run[i].readers| && !run[i].readers[t].Idle?
  }

  /** From instant a on thread t makes at most n probes. */
  ghost predicate FewProbes(run: seq<State>, a: nat, t: nat, n: nat) {
    forall i: nat | a <= i < |run| :: t < |run[i].readers| && (run[i].readers[t].Probing? ==> run[i].readers[t].p <= n)
  }

  /** The bound of the current map for the key. */
  function BoundOf(s: State, key: Key): nat
    requires Inv(s)
  {
    TableIsFormed(s, |s.tables| - 1);
    Bound(Current(s), Current(s).cb.hf(key))
  }

  /** A lookup called in any reachable state: if only its own steps follow, it returns, finds a key exactly if the
      current map has an equivalent one, and makes no more probes than the bounds of that map allow. */
  lemma GetAlone(run: seq<State>, t: nat, key: Key) returns (longer: seq<State>)
    requires IsRun(run) && t < |run[|run| - 1].readers| && run[|run| - 1].readers[t] == LoadMap(key)
    ensures run <= longer && IsRun(longer) && OnlyReader(longer, |run| - 1, t)
    ensures var s := longer[|longer| - 1];
            && t < |s.readers| && s.readers[t].Done? && s.readers[t].key == key
            && Answers(run, |run| - 1, key, s.readers[t].found)
    ensures Inv(run[|run| - 1]) && FewProbes(longer, |run| - 1, t, BoundOf(run[|run| - 1], key))
  {
    hide Good;
    var a := |run| - 1;
    longer := run;
    var pc := LoadMap(key);
    RunKeeps(run, a);
    var n := BoundOf(run[a], key);
    hide IsRun;
    while !pc.Done?
      invariant run <= longer && IsRun(longer) && OnlyReader(longer, a, t) && SameMaps(longer, a, t)
      invariant var s := longer[|longer| - 1];
                t < |s.readers| && s.readers[t] == pc && Inv(s) && MapExists(s, pc) && WillPass(s, pc)
      invariant WithinLimit(longer[|longer| - 1], pc) && !pc.Idle? && pc.key == key
      invariant (HasMap(pc) ==> pc.table == |run[a].tables| - 1) && FewProbes(longer, a, t, n)
      decreases Stage(pc), ProbesLeft(pc)
    {
      hide Inv;
      var s := longer[|longer| - 1];
      AdvanceGetsNearer(s, pc);
      var pc' := Advance(s, pc);
      var s' := s.(readers := s.readers[t := pc']);
      assert ReaderStep(s, s', t);
      Extended(longer, a, t, s');
      RunKeeps(longer + [s'], |longer|);
      SameTables(s, s', pc');
      LimitOfCurrent(run[a], s', pc', n);
      pc, longer := pc', longer + [s'];
    }
    AnswerOfCurrent(run, longer, t, key);
  }

  lemma SameTables(s: State, s': State, pc: Pc)
    requires Inv(s) && Inv(s') && s'.tables == s.tables && MapExists(s, pc) && WillPass(s, pc) && WithinLimit(s, pc)
    ensures MapExists(s', pc) && WillPass(s', pc) && WithinLimit(s', pc)
  {
    hide Good;
  }

  lemma LimitOfCurrent(s0: State, s: State, pc: Pc, n: nat)
    requires Inv(s0) && Inv(s) && s.tables == s0.tables && MapExists(s, pc) && WithinLimit(s, pc)
    requires HasMap(pc) ==> pc.table == |s.tables| - 1
    requires !pc.Idle? && n == BoundOf(s0, pc.key)
    ensures pc.Probing? ==> pc.p <= n
  {
    hide Good;
  }

  lemma AnswerOfCurrent(run: seq<State>, longer: seq<State>, t: nat, key: Key)
    requires |run| > 0 && run <= longer && IsRun(longer) && SameMaps(longer, |run| - 1, t)
    requires run[|run| - 1].readers[t] == LoadMap(key) && longer[|longer| - 1].readers[t].Done?
    ensures Answers(run, |run| - 1, key, longer[|longer| - 1].readers[t].found)
  {
    hide IsRun;
    hide Has;
    var a, b := |run| - 1, |longer| - 1;
    GetIsAtomic(longer, a, b, t, key);
    var i: nat :| a <= i <= b && Answers(longer, i, key, longer[b].readers[t].found);
    assert longer[i].tables == longer[a].tables == run[a].tables;
  }
}
