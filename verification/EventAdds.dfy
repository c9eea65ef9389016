/** The event count counts: over whole runs its value is what has been added, modulo 2^31, and a wait for a
    value that has been left behind returns at once. A producer that saw the flag wakes everybody. */
module EventAdds {
  import opened Bits
  import opened EventCount

  // ----- what has been added

  /** Every step but an addition. */
  ghost predicate OtherStep(s: State, s': State, t: nat) {
    || Clear(s, s', t) || Wake(s, s', t) || (exists v :: Wait(s, s', t, v)) || Return(s, s', t)
    || GiveUp(s, s', t) || ReturnEarly(s, s', t) || WaiterStep(s, s', t)
  }

  /** Step i adds `delta`, or nothing. */
  ghost predicate Adds(run: seq<State>, i: nat, delta: nat) {
    && i + 1 < |run|
    && (Added(run[i], run[i + 1], delta) || (delta == 0 && NothingAdded(run[i], run[i + 1])))
  }

  ghost predicate Added(s: State, s': State, delta: nat) {
    exists t: nat :: Add(s, s', t, delta)
  }

  ghost predicate NothingAdded(s: State, s': State) {
    exists t: nat :: OtherStep(s, s', t)
  }

  /** `deltas[i]` is the argument of the addition that is step i, and 0 for any other step. */
  ghost predicate Requested(run: seq<State>, deltas: seq<nat>) {
    |run| == |deltas| + 1 && forall i: nat | i < |deltas| :: Adds(run, i, deltas[i])
  }

  function Sum(deltas: seq<nat>): nat {
    if deltas == [] then 0 else Sum(deltas[..|deltas| - 1]) + deltas[|deltas| - 1]
  }

  lemma StepAdds(s: State, s': State) returns (delta: nat)
    requires Next(s, s')
    ensures Added(s, s', delta) || (delta == 0 && NothingAdded(s, s'))
  {
    hide WaiterStep;
    hide Wake;
    var t: nat :| Step(s, s', t);
    if d: nat :| Add(s, s', t, d) {
      delta := d;
    } else {
      delta := 0;
      assert OtherStep(s, s', t);
    }
  }

  /** Every run has such deltas. */
  lemma RunsHaveDeltas(run: seq<State>) returns (deltas: seq<nat>)
    requires IsRun(run)
    ensures Requested(run, deltas)
  {
    hide Next;
    hide Added;
    hide NothingAdded;
    deltas := [];
    while |deltas| + 1 < |run|
      invariant |deltas| < |run| && forall i: nat | i < |deltas| :: Adds(run, i, deltas[i])
    {
      assert StepAt(run, |deltas|);
      var delta := StepAdds(run[|deltas|], run[|deltas| + 1]);
      assert Adds(run, |deltas|, delta);
      deltas := deltas + [delta];
    }
  }

  lemma ModOfMod(x: nat)
    ensures Value(x % WORDS) == Value(x)
  {
    ModUnique(x, FLAG, 2 * (x / WORDS) + x % WORDS / FLAG, x % WORDS % FLAG);
  }

  lemma ValueOfSum(x: nat, y: nat)
    ensures Value(x + y) == Value(Value(x) + y)
  {
    var q := (Value(x) + y) / FLAG;
    ModUnique(x + y, FLAG, x / FLAG + q, (Value(x) + y) % FLAG);
  }

  lemma AddAdds(s: State, s': State, t: nat, delta: nat)
    requires Add(s, s', t, delta)
    ensures Value(s'.word) == Value(Value(s.word) + delta)
  {
    hide Value;
    ModOfMod(s.word + delta);
    ValueOfSum(s.word, delta);
  }

  /** Flags are raised and cleared, and threads come and go; the value stays. */
  lemma OtherStepAddsNothing(s: State, s': State, t: nat)
    requires Inv(s) && OtherStep(s, s', t)
    ensures Value(s'.word) == Value(s.word)
  {
    if WaiterStep(s, s', t) {
      assert ThreadInv(s, t);
      if s.pcs[t].Upgrade? { FlaggedWord(s.pcs[t].v); }
    }
  }

  lemma StepAddsDelta(run: seq<State>, i: nat, delta: nat)
    requires IsRun(run) && Adds(run, i, delta)
    ensures Value(run[i + 1].word) == Value(Value(run[i].word) + delta)
  {
    hide Value;
    hide IsRun;
    ReachableInv(run, i);
    hide Inv;
    hide Add;
    hide OtherStep;
    if Added(run[i], run[i + 1], delta) {
      var t: nat :| Add(run[i], run[i + 1], t, delta);
      AddAdds(run[i], run[i + 1], t, delta);
    } else {
      var t: nat :| OtherStep(run[i], run[i + 1], t);
      OtherStepAddsNothing(run[i], run[i + 1], t);
      ValueOfSum(run[i].word, 0);
    }
  }

  lemma SumStep(deltas: seq<nat>, i: nat, j: nat)
    requires i <= j < |deltas|
    ensures Sum(deltas[i..j + 1]) == Sum(deltas[i..j]) + deltas[j]
  {
    assert deltas[i..j + 1][..j - i] == deltas[i..j];
  }

  lemma NothingYet(word: nat, deltas: seq<nat>, i: nat)
    requires i <= |deltas|
    ensures Value(word) == Value(Value(word) + Sum(deltas[i..i]))
  {
    ValueOfSum(word, 0);
  }

  lemma OneMore(deltas: seq<nat>, i: nat, j: nat, v: nat)
    requires i <= j < |deltas|
    ensures Value(Value(v + Sum(deltas[i..j])) + deltas[j]) == Value(v + Sum(deltas[i..j + 1]))
  {
    hide Value;
    SumStep(deltas, i, j);
    ValueOfSum(v + Sum(deltas[i..j]), deltas[j]);
  }

  /** The event count counts: between any two instants its value moves by the sum of the deltas requested between
      them, modulo 2^31, whatever flags are raised and cleared and whatever carries there are. */
  lemma {:induction false} ValueIsSum(run: seq<State>, deltas: seq<nat>, i: nat, j: nat)
    requires IsRun(run) && Requested(run, deltas) && i <= j < |run|
    ensures Value(run[j].word) == Value(Value(run[i].word) + Sum(deltas[i..j]))
    decreases j
  {
    hide Value;
    hide IsRun;
    hide Adds;
    hide Sum;
    if i == j {
      NothingYet(run[i].word, deltas, i);
    } else {
      ValueIsSum(run, deltas, i, j - 1);
      StepAddsDelta(run, j - 1, deltas[j - 1]);
      OneMore(deltas, i, j - 1, Value(run[i].word));
    }
  }

  // ----- nobody waits

  /** Nobody has got as far as the flag. */
  ghost predicate NobodyUpgrades(run: seq<State>) {
    forall i: nat, t: nat | i < |run| && t < |run[i].pcs| :: !run[i].pcs[t].Upgrade?
  }

  lemma {:induction false} QuietWord(run: seq<State>, deltas: seq<nat>, i: nat, u: nat)
    requires IsRun(run) && Requested(run, deltas) && NobodyUpgrades(run) && i < |run|
    requires run[0].word + Sum(deltas[..i]) < FLAG
    ensures run[i].word == run[0].word + Sum(deltas[..i]) && !Pending(run[i], u)
  {
    hide Sum;
    if i == 0 {
      NoDeltas(deltas);
    } else {
      PrefixSum(deltas, i - 1);
      QuietWord(run, deltas, i - 1, u);
      assert Adds(run, i - 1, deltas[i - 1]);
      QuietStep(run[i - 1], run[i], deltas[i - 1], u);
    }
  }

  lemma NoDeltas(deltas: seq<nat>)
    ensures Sum(deltas[..0]) == 0
  {}

  lemma PrefixSum(deltas: seq<nat>, i: nat)
    requires i < |deltas|
    ensures Sum(deltas[..i + 1]) == Sum(deltas[..i]) + deltas[i]
  {
    assert deltas[..i + 1][..i] == deltas[..i];
  }

  lemma QuietStep(s: State, s': State, delta: nat, u: nat)
    requires Added(s, s', delta) || (delta == 0 && NothingAdded(s, s'))
    requires s.word + delta < FLAG && !Pending(s, u) && forall t: nat | t < |s.pcs| :: !s.pcs[t].Upgrade?
    ensures s'.word == s.word + delta && !Pending(s', u)
  {
    if Added(s, s', delta) {
      var t: nat :| Add(s, s', t, delta);
    } else {
      var t: nat :| OtherStep(s, s', t);
    }
  }

  /** While no waiter has asked for it, and the count has not run into the flag, no producer ever has to wake
      anybody: an addition is a single step. */
  lemma NobodyWaitsNobodyWakes(run: seq<State>, deltas: seq<nat>, i: nat, u: nat)
    requires IsRun(run) && Requested(run, deltas) && NobodyUpgrades(run) && i < |run|
    requires run[0].word + Sum(deltas[..i]) < FLAG
    ensures !Pending(run[i], u)
  {
    QuietWord(run, deltas, i, u);
  }

  // ----- waits for a value that is gone

  lemma LessThanARound(v: nat, sum: nat)
    requires v < FLAG && 0 < sum < FLAG
    ensures Value(v + sum) != v
  {}

  /** If something, but less than 2^31 in total, has been added since the value was v, a wait for v called now
      returns 0 with its first load, and with no other step. */
  lemma StaleWaitReturns(run: seq<State>, deltas: seq<nat>, i: nat, j: nat, t: nat)
    requires IsRun(run) && Requested(run, deltas) && i <= j < |run| && 0 < Sum(deltas[i..j]) < FLAG
    requires t < |run[j].pcs| && run[j].pcs[t].Idle?
    ensures var s, v := run[j], Value(run[i].word);
            && (exists s1, s2 :: Wait(s, s1, t, v) && Step(s1, s2, t) && s2 == Go(s, t, Done(v)))
            && forall s1, s2 :: Wait(s, s1, t, v) && Step(s1, s2, t) ==> s2 == Go(s, t, Done(v))
  {
    ValueIsSum(run, deltas, i, j);
    var s, v := run[j], Value(run[i].word);
    LessThanARound(v, Sum(deltas[i..j]));
    hide IsRun;
    var s1 := Go(s, t, Entry(v));
    assert Wait(s, s1, t, v);
    var s2 := Go(s, t, Done(v));
    assert WaiterStep(s1, s2, t) by { assert s2 == Go(s1, t, Done(v)); }
    assert Step(s1, s2, t);
    forall s1, s2 | Wait(s, s1, t, v) && Step(s1, s2, t) ensures s2 == Go(s, t, Done(v)) {
      OnlyWaiterStep(s1, s2, t);
      assert Go(s1, t, Done(v)) == Go(s, t, Done(v));
    }
  }

  lemma OnlyWaiterStep(s: State, s': State, t: nat)
    requires Step(s, s', t) && t < |s.pcs| && s.pcs[t].Entry?
    ensures WaiterStep(s, s', t)
  {}

  /** How many loads are left at most before a waiter sees that the value has changed. */
  function Left(pc: Pc): nat {
    match pc
    case Spin(_) => 3
    case Upgrade(_, _) => 2
    case SecondSpin(_) => 1
    case FutexWait(_) => 3
    case CheckWord(_) => 2
    case CheckValue(_) => 1
    case _ => 0
  }

  /** A waiter anywhere in its slow path, but not parked. */
  predicate Waiting(pc: Pc, v: nat) {
    InSlowPath(pc) && !pc.Parked? && pc.v == v
  }

  function Loads(s: State, t: nat): State
    requires t < |s.pcs| && InSlowPath(s.pcs[t]) && !s.pcs[t].Parked?
  {
    var pc := s.pcs[t];
    match pc
    case Spin(v) => Go(s, t, Upgrade(v, s.word))
    case Upgrade(_, _) => AfterUpgrade(s, t)
    case FutexWait(v) => Go(s, t, CheckWord(v))
    case CheckWord(v) => Go(s, t, CheckValue(v))
    case _ => Go(s, t, Done(pc.v))
  }

  lemma SeesChange(s: State, t: nat, v: nat)
    requires Inv(s) && t < |s.pcs| && Waiting(s.pcs[t], v) && Value(s.word) != v
    ensures WaiterStep(s, Loads(s, t), t) && Loads(s, t).word == s.word
    ensures var pc := Loads(s, t).pcs[t]; pc == Done(v) || (Waiting(pc, v) && Left(pc) < Left(s.pcs[t]))
  {
    assert ThreadInv(s, t);
    FlaggedWord(v);
  }

  /** A waiter that is not parked sees a changed value: undisturbed, it returns 0 after three more of its loads at
      most, wherever in its slow path it is. */
  lemma WaiterReturns(run: seq<State>, i: nat, t: nat, v: nat) returns (path: seq<State>)
    requires IsRun(run) && i < |run| && t < |run[i].pcs| && Waiting(run[i].pcs[t], v) && Value(run[i].word) != v
    ensures 0 < |path| <= 4 && path[0] == run[i]
    ensures forall k: nat | k + 1 < |path| :: WaiterStep(path[k], path[k + 1], t)
    ensures var s := path[|path| - 1]; t < |s.pcs| && s.pcs[t] == Done(v)
  {
    ReachableInv(run, i);
    var s := run[i];
    hide IsRun;
    hide Loads;
    hide Value;
    path := [s];
    while s.pcs[t] != Done(v)
      invariant 0 < |path| && path[0] == run[i] && path[|path| - 1] == s && Inv(s) && t < |s.pcs|
      invariant forall k: nat | k + 1 < |path| :: WaiterStep(path[k], path[k + 1], t)
      invariant Value(s.word) != v && (s.pcs[t] == Done(v) || Waiting(s.pcs[t], v))
      invariant |path| + Left(s.pcs[t]) <= 4
      decreases if s.pcs[t] == Done(v) then 0 else 1 + Left(s.pcs[t])
    {
      hide Inv;
      hide WaiterStep;
      SeesChange(s, t, v);
      WaiterStepKeeps(s, Loads(s, t), t);
      WaiterKeepsThreads(s, Loads(s, t), t);
      s := Loads(s, t);
      path := path + [s];
    }
  }

  lemma WaiterKeepsThreads(s: State, s': State, t: nat)
    requires WaiterStep(s, s', t)
    ensures |s'.pcs| == |s.pcs|
  {}

  /** While the word stays flagged with its value a waiter behind its upgrade parks: it is there after two steps, and
      whatever steps it takes of its own, unless it gives up. */
  lemma WaiterParks(s: State, s1: State, s2: State, t: nat)
    requires t < |s.pcs| && s.pcs[t].SecondSpin? && s.word == Flagged(s.pcs[t].v)
    requires Step(s, s1, t) && Step(s1, s2, t) && !GiveUp(s1, s2, t)
    ensures s2 == Go(s, t, Parked(s.pcs[t].v))
  {
    assert WaiterStep(s, s1, t) && WaiterStep(s1, s2, t);
    assert s.pcs[t := s1.pcs[t]][t := s2.pcs[t]] == s.pcs[t := s2.pcs[t]];
  }

  // ----- producers that saw the flag

  /** Nobody is parked, and the flag that the producer saw is down. */
  ghost predicate Woken(s: State, s': State, u: nat) {
    && |s'.pcs| == |s.pcs| && u < |s.pcs| && s'.pcs[u].Idle?
    && s'.word == (if s.pcs[u].ClearFlag? then Value(s.word) else s.word)
    && forall t: nat | t < |s.pcs| && t != u :: s'.pcs[t] == Unparked(s.pcs[t])
  }

  ghost function AllWoken(s: State, u: nat): State
    requires u < |s.pcs|
  {
    s.(pcs := seq(|s.pcs|, t requires 0 <= t < |s.pcs| => if t == u then Idle else Unparked(s.pcs[t])))
  }

  /** A producer that has to wake everybody does so in two steps at most, whichever comes next of its own. */
  lemma ProducerWakes(s: State, u: nat)
    requires Pending(s, u)
    ensures s.pcs[u].ClearFlag? ==>
              && (exists s1 :: Step(s, s1, u))
              && forall s1 :: Step(s, s1, u) ==> s1 == Go(s, u, WakeAll).(word := Value(s.word))
    ensures s.pcs[u].WakeAll? ==>
              && (exists s1 :: Step(s, s1, u)) && forall s1 :: Step(s, s1, u) ==> Woken(s, s1, u)
  {
    if s.pcs[u].ClearFlag? {
      assert Clear(s, Go(s, u, WakeAll).(word := Value(s.word)), u);
      assert Step(s, Go(s, u, WakeAll).(word := Value(s.word)), u);
    } else {
      assert Wake(s, AllWoken(s, u), u);
      assert Step(s, AllWoken(s, u), u);
      forall s1 | Step(s, s1, u) ensures Woken(s, s1, u) {
        assert Wake(s, s1, u);
      }
    }
  }
}
