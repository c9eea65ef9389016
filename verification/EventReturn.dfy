/** When a wait on an event count returns although the value has not changed: exactly when a producer
    lowers the flag between the waiter's upgrade and its second spin, and at the time of the call exactly
    if a producer has yet to clear the flag. */
module EventReturn {
  import opened EventCount

  // ----- calls

  predicate InCall(pc: Pc, v: nat) {
    !pc.Idle? && !pc.ClearFlag? && !pc.WakeAll? && !pc.Done? && pc.v == v
  }

  /** Thread t calls wait(v) at step a, and the step before instant b returns 0. */
  ghost predicate CallReturns(run: seq<State>, a: nat, b: nat, t: nat, v: nat) {
    && a + 1 < b < |run| && Wait(run[a], run[a + 1], t, v)
    && (forall i: nat | a < i < b :: t < |run[i].pcs| && InCall(run[i].pcs[t], v))
    && t < |run[b].pcs| && run[b].pcs[t] == Done(v)
  }

  /** The value is v at every instant from a to b. */
  ghost predicate ValueStays(run: seq<State>, a: nat, b: nat, v: nat) {
    forall i: nat | a <= i <= b < |run| :: Value(run[i].word) == v
  }

  /** The waiter has loaded the word to upgrade it, or has upgraded it and spins again. */
  ghost predicate Upgrading(run: seq<State>, i: nat, t: nat, v: nat) {
    && i < |run| && t < |run[i].pcs|
    && (run[i].pcs[t] == SecondSpin(v) || (run[i].pcs[t].Upgrade? && run[i].pcs[t].v == v))
  }

  /** Step i lowers the flag and leaves the value alone: producer u clears the flag, or adds just the flag. */
  ghost predicate Lowers(run: seq<State>, i: nat, u: nat, v: nat) {
    && i + 1 < |run| && run[i].word == Flagged(v) && run[i + 1].word == v
    && (Clear(run[i], run[i + 1], u) || Add(run[i], run[i + 1], u, FLAG))
  }

  // ----- parking

  /** The word was flagged with v at some instant, and thread t has been in its call of wait(v) since. */
  ghost predicate FlaggedInCall(run: seq<State>, i: nat, t: nat, v: nat) {
    exists j: nat :: FlaggedAt(run, j, i, t, v)
  }

  ghost predicate FlaggedAt(run: seq<State>, j: nat, i: nat, t: nat, v: nat) {
    && j <= i < |run| && run[j].word == Flagged(v)
    && forall l: nat | j <= l <= i :: t < |run[l].pcs| && InCall(run[l].pcs[t], v)
  }

  /** Past its upgrade, or about to take the flag for set. */
  predicate TrustsFlag(pc: Pc) {
    pc.SecondSpin? || pc.FutexWait? || pc.Parked? || pc.CheckWord? || (pc.Upgrade? && pc.current == Flagged(pc.v))
  }

  /** A thread that trusts the flag after a step has trusted it before, in the same call, or finds it now. */
  lemma TrustBegins(s: State, s': State, t: nat)
    requires Next(s, s') && t < |s'.pcs| && TrustsFlag(s'.pcs[t])
    ensures t < |s.pcs| && InCall(s.pcs[t], s'.pcs[t].v)
    ensures s'.word == Flagged(s'.pcs[t].v) || TrustsFlag(s.pcs[t])
  {
    hide IsFlagged;
    var u: nat :| Step(s, s', u);
    if u != t && t < |s.pcs| && !s.pcs[t].Parked? { OwnStep(s, s', u, t); }
  }

  /** A waiter spins again and parks only after the word was flagged with its value during its call. */
  lemma {:induction false} ParksOnlyAfterFlag(run: seq<State>, i: nat, t: nat)
    requires IsRun(run) && i < |run| && t < |run[i].pcs| && TrustsFlag(run[i].pcs[t])
    ensures FlaggedInCall(run, i, t, run[i].pcs[t].v)
  {
    hide Next;
    var v := run[i].pcs[t].v;
    if i > 0 {
      assert StepAt(run, i - 1);
      TrustBegins(run[i - 1], run[i], t);
      if run[i].word == Flagged(v) {
        assert FlaggedAt(run, i, i, t, v);
      } else {
        ParksOnlyAfterFlag(run, i - 1, t);
        var j: nat :| FlaggedAt(run, j, i - 1, t, v);
        assert FlaggedAt(run, j, i, t, v);
      }
    }
  }

  // ----- who lowers the flag

  lemma OnlyProducersLower(s: State, s': State, u: nat, v: nat)
    requires s.word == Flagged(v) && s'.word == v < FLAG && Step(s, s', u)
    ensures Clear(s, s', u) || Add(s, s', u, FLAG)
  {
    FlaggedWord(v);
    if delta: nat :| Add(s, s', u, delta) {
      assert delta == FLAG;
    }
  }

  /** At step i the flag is lowered, and it stays down until instant k. */
  ghost predicate LoweredFor(run: seq<State>, i: nat, k: nat, u: nat, v: nat) {
    Lowers(run, i, u, v) && forall l: nat | i < l <= k < |run| :: run[l].word == v
  }

  lemma LastOfRange(run: seq<State>, j: nat, k: nat, v: nat)
    requires IsRun(run) && j < k < |run| && ValueStays(run, j, k, v)
    ensures v < FLAG && (run[k].word == v || run[k].word == Flagged(v))
    ensures ValueStays(run, j, k - 1, v) && (run[k - 1].word == v || run[k - 1].word == Flagged(v))
  {
    ReachableInv(run, k);
    ReachableInv(run, k - 1);
    assert Value(run[k].word) == v && Value(run[k - 1].word) == v;
    SameValue(run[k].word, v);
    SameValue(run[k - 1].word, v);
  }

  lemma {:induction false} FindsLowering(run: seq<State>, j: nat, k: nat, v: nat) returns (i: nat, u: nat)
    requires IsRun(run) && j < k < |run| && ValueStays(run, j, k, v)
    requires run[j].word == Flagged(v) && run[k].word == v
    ensures j <= i < k && LoweredFor(run, i, k, u, v)
    decreases k
  {
    LastOfRange(run, j, k, v);
    hide Step;
    if run[k - 1].word == v {
      FlaggedWord(v);
      i, u := FindsLowering(run, j, k - 1, v);
    } else {
      i := k - 1;
      assert StepAt(run, i);
      u :| Step(run[i], run[i + 1], u);
      OnlyProducersLower(run[i], run[i + 1], u, v);
    }
  }

  // ----- at the second spin

  /** While a waiter that saw the flagged word at instant j spins again, with the value unchanged, the step
      after instant k makes it return if and only if a producer has lowered the flag in between and nobody
      has raised it again. */
  lemma SecondSpinReturns(run: seq<State>, j: nat, k: nat, t: nat, v: nat)
    requires IsRun(run) && j <= k && k + 1 < |run| && ValueStays(run, j, k, v) && run[j].word == Flagged(v)
    requires t < |run[k].pcs| && run[k].pcs[t] == SecondSpin(v) && WaiterStep(run[k], run[k + 1], t)
    ensures run[k + 1].pcs[t] == Done(v) <==> exists i: nat, u: nat :: j <= i < k && LoweredFor(run, i, k, u, v)
  {
    ReachableInv(run, k);
    assert ThreadInv(run[k], t);
    FlaggedWord(v);
    assert Value(run[k].word) == v;
    SameValue(run[k].word, v);
    if run[k].word == v {
      var i, u := FindsLowering(run, j, k, v);
    } else if i: nat, u: nat :| j <= i < k && LoweredFor(run, i, k, u, v) {
      assert false;
    }
  }

  // ----- whole calls

  /** The word was flagged with v at instant j, and the waiter has been upgrading or spinning again since. */
  ghost predicate FlaggedSince(run: seq<State>, j: nat, i: nat, t: nat, v: nat) {
    j <= i < |run| && run[j].word == Flagged(v) && forall l: nat | j <= l <= i :: Upgrading(run, l, t, v)
  }

  /** The same for some instant j after a. */
  ghost predicate SeenFlagged(run: seq<State>, a: nat, i: nat, t: nat, v: nat) {
    exists j: nat :: a < j && FlaggedSince(run, j, i, t, v)
  }

  /** What a waiter knows at instant i of a call that began after instant a, if the value has not changed. */
  ghost predicate Knows(run: seq<State>, a: nat, i: nat, t: nat, v: nat)
    requires i < |run| && t < |run[i].pcs|
  {
    match run[i].pcs[t]
    case Upgrade(_, current) =>
      && (current == v || current == Flagged(v))
      && (current == Flagged(v) ==> SeenFlagged(run, a, i, t, v))
    case SecondSpin(_) => SeenFlagged(run, a, i, t, v)
    case _ => true
  }

  lemma StillFlaggedSince(run: seq<State>, a: nat, i: nat, t: nat, v: nat)
    requires i + 1 < |run| && Upgrading(run, i + 1, t, v) && SeenFlagged(run, a, i, t, v)
    ensures SeenFlagged(run, a, i + 1, t, v)
  {
    var j: nat :| a < j && FlaggedSince(run, j, i, t, v);
    assert FlaggedSince(run, j, i + 1, t, v);
  }

  /** A thread's own place changes only by its own steps, or by a wake-up if it is parked. */
  lemma OwnStep(s: State, s': State, u: nat, t: nat)
    requires Step(s, s', u) && t < |s.pcs| && !s.pcs[t].Parked? && u != t
    ensures t < |s'.pcs| && s'.pcs[t] == s.pcs[t]
  {
    hide Value;
    hide IsFlagged;
  }

  lemma KnowsMore(run: seq<State>, a: nat, i: nat, t: nat, v: nat)
    requires IsRun(run) && a < i && i + 1 < |run| && ValueStays(run, a, i + 1, v)
    requires t < |run[i].pcs| && InCall(run[i].pcs[t], v) && Knows(run, a, i, t, v)
    requires t < |run[i + 1].pcs| && InCall(run[i + 1].pcs[t], v)
    ensures Knows(run, a, i + 1, t, v)
  {
    LastOfRange(run, i, i + 1, v);
    FlaggedWord(v);
    var s, s' := run[i], run[i + 1];
    var pc, pc' := s.pcs[t], s'.pcs[t];
    assert StepAt(run, i);
    var u: nat :| Step(s, s', u);
    if pc'.Upgrade? || pc'.SecondSpin? {
      assert Upgrading(run, i + 1, t, v);
      if s'.word == Flagged(v) {
        assert FlaggedSince(run, i + 1, i + 1, t, v);
      }
      if u != t {
        if !pc.Parked? { OwnStep(s, s', u, t); }
        if pc'.SecondSpin? || pc'.current == Flagged(v) { StillFlaggedSince(run, a, i, t, v); }
      } else {
        assert WaiterStep(s, s', t);
        if pc.Upgrade? && pc.current == Flagged(v) { StillFlaggedSince(run, a, i, t, v); }
      }
    }
  }

  lemma {:induction false} CallKnows(run: seq<State>, a: nat, b: nat, i: nat, t: nat, v: nat)
    requires IsRun(run) && CallReturns(run, a, b, t, v) && ValueStays(run, a, b, v) && a < i < b
    ensures t < |run[i].pcs| && Knows(run, a, i, t, v)
    decreases i
  {
    if i > a + 1 {
      CallKnows(run, a, b, i - 1, t, v);
      hide Knows;
      KnowsMore(run, a, i - 1, t, v);
    }
  }

  /** With the value unchanged, only the second spin can make a wait return 0. */
  lemma ReturnsFromSecondSpin(run: seq<State>, a: nat, b: nat, t: nat, v: nat)
    requires IsRun(run) && CallReturns(run, a, b, t, v) && ValueStays(run, a, b, v)
    ensures t < |run[b - 1].pcs| && run[b - 1].pcs[t] == SecondSpin(v) && run[b - 1].word == v
    ensures WaiterStep(run[b - 1], run[b], t)
  {
    CallKnows(run, a, b, b - 1, t, v);
    LastOfRange(run, a, b - 1, v);
    FlaggedWord(v);
    var s, s' := run[b - 1], run[b];
    assert StepAt(run, b - 1);
    var u: nat :| Step(s, s', u);
    if u != t && !s.pcs[t].Parked? { OwnStep(s, s', u, t); }
    assert WaiterStep(s, s', t);
  }

  /** In a call from a to b, thread u lowers the flag for good at step i, after t has seen the flagged word to
      upgrade it or has upgraded it, and before the last load of its second spin. */
  ghost predicate LoweredMeanwhile(run: seq<State>, a: nat, b: nat, i: nat, u: nat, t: nat, v: nat) {
    && a < i && i + 1 < b && LoweredFor(run, i, b - 1, u, v)
    && forall l: nat | i <= l < b :: Upgrading(run, l, t, v)
  }

  /** A call that returns 0: the value differed at some instant of it, or between the waiter's upgrade and its
      last load a producer has lowered a flag that was set for this very value. */
  lemma ReturnMeansChange(run: seq<State>, a: nat, b: nat, t: nat, v: nat)
    requires IsRun(run) && CallReturns(run, a, b, t, v)
    ensures !ValueStays(run, a, b, v) || exists i: nat, u: nat :: LoweredMeanwhile(run, a, b, i, u, t, v)
  {
    if ValueStays(run, a, b, v) {
      ReturnsFromSecondSpin(run, a, b, t, v);
      CallKnows(run, a, b, b - 1, t, v);
      LastOfRange(run, a, b - 1, v);
      FlaggedWord(v);
      var j: nat :| a < j && FlaggedSince(run, j, b - 1, t, v);
      assert ValueStays(run, j, b - 1, v);
      var i, u := FindsLowering(run, j, b - 1, v);
      assert LoweredMeanwhile(run, a, b, i, u, t, v);
    }
  }

  // ----- at the call

  ghost predicate IsNoAdd(s: State, s': State) {
    forall u: nat, delta: nat :: !Add(s, s', u, delta)
  }

  ghost predicate NoAddAt(run: seq<State>, i: nat) {
    i + 1 < |run| ==> IsNoAdd(run[i], run[i + 1])
  }

  /** Nobody adds anything between instants a and b. */
  ghost predicate NoAdds(run: seq<State>, a: nat, b: nat) {
    forall i: nat | a <= i < b :: NoAddAt(run, i)
  }

  /** Some producer has seen the flag and has yet to clear it. */
  ghost predicate FlagToClear(s: State) {
    exists u: nat :: HasToClear(s, u)
  }

  predicate HasToClear(s: State, u: nat) {
    u < |s.pcs| && s.pcs[u].ClearFlag?
  }

  /** While nobody is about to clear the flag and nobody adds, a waiter for the present value cannot see it
      differ, nor the flag fall. */
  ghost predicate Calm(s: State, t: nat, v: nat) {
    && !FlagToClear(s) && Value(s.word) == v && s.word < WORDS && t < |s.pcs| && InCall(s.pcs[t], v)
    && (s.pcs[t].Upgrade? ==> Value(s.pcs[t].current) == v && s.pcs[t].current < WORDS
                              && (s.pcs[t].current == Flagged(v) ==> s.word == Flagged(v)))
    && (s.pcs[t].SecondSpin? ==> s.word == Flagged(v))
  }

  lemma StaysCalm(s: State, s': State, u: nat, t: nat, v: nat)
    requires Inv(s) && Calm(s, t, v) && Step(s, s', u) && IsNoAdd(s, s')
    requires t < |s'.pcs| && (InCall(s'.pcs[t], v) || s'.pcs[t] == Done(v))
    ensures Calm(s', t, v)
  {
    SameValue(s.word, v);
    FlaggedWord(v);
    if s.pcs[t].Upgrade? { SameValue(s.pcs[t].current, v); }
    assert !HasToClear(s, u);
    assert !FlagToClear(s') by {
      forall w: nat | w < |s'.pcs| ensures !HasToClear(s', w) {
        assert !HasToClear(s, w);
      }
    }
    WordStays(s, s', u);
    if s.word != s'.word {
      assert ThreadInv(s, u);
    }
  }

  /** No step but an addition or a clear changes the value or lowers the flag. */
  lemma WordStays(s: State, s': State, u: nat)
    requires Step(s, s', u) && !Clear(s, s', u) && IsNoAdd(s, s')
    ensures || s'.word == s.word
            || (s'.word == Flagged(s.word) && WaiterStep(s, s', u) && s.pcs[u] == Upgrade(s.word, s.word))
  {
    hide Value;
    hide IsFlagged;
  }

  lemma {:induction false} CallIsCalm(run: seq<State>, a: nat, b: nat, i: nat, t: nat, v: nat)
    requires IsRun(run) && CallReturns(run, a, b, t, v) && NoAdds(run, a, b) && a < i <= b
    requires !FlagToClear(run[a]) && Value(run[a].word) == v
    ensures Calm(run[i], t, v)
    decreases i
  {
    if i == a + 1 {
      ReachableInv(run, a);
      forall w: nat | w < |run[i].pcs| ensures !HasToClear(run[i], w) {
        if w != t { assert !HasToClear(run[a], w); }
      }
    } else {
      CallIsCalm(run, a, b, i - 1, t, v);
      ReachableInv(run, i - 1);
      hide Calm;
      hide Inv;
      hide Step;
      assert StepAt(run, i - 1);
      var u: nat :| Step(run[i - 1], run[i], u);
      assert NoAddAt(run, i - 1);
      StaysCalm(run[i - 1], run[i], u, t, v);
    }
  }

  /** A wait for the present value, called while no producer has yet to clear the flag, returns 0 only after
      something has been added. */
  lemma ReturnsOnlyAfterAdd(run: seq<State>, a: nat, b: nat, t: nat, v: nat)
    requires IsRun(run) && CallReturns(run, a, b, t, v)
    requires !FlagToClear(run[a]) && Value(run[a].word) == v
    ensures !NoAdds(run, a, b)
  {
    if NoAdds(run, a, b) { CallIsCalm(run, a, b, b, t, v); }
  }

  /** The run goes on in such a way that thread t, at once, waits for v and gets 0 although nothing is added. */
  ghost predicate GetsNothing(run: seq<State>, longer: seq<State>, b: nat, t: nat, v: nat) {
    && |run| > 0 && run <= longer && IsRun(longer) && CallReturns(longer, |run| - 1, b, t, v)
    && NoAdds(longer, |run| - 1, b)
  }

  ghost function Next6(s: State, t: nat, u: nat, v: nat): seq<State>
    requires t < |s.pcs| && u < |s.pcs|
  {
    var cleared := Go(s, u, WakeAll).(word := v);
    [ Go(s, t, Entry(v)), Go(s, t, Spin(v)), Go(s, t, Upgrade(v, s.word)), Go(s, t, SecondSpin(v)).(word := Flagged(v)),
      Go(cleared, t, SecondSpin(v)), Go(cleared, t, Done(v)) ]
  }

  lemma Next6Steps(s: State, t: nat, u: nat, v: nat)
    requires s.word < WORDS && Value(s.word) == v && t < |s.pcs| && s.pcs[t].Idle?
    requires u < |s.pcs| && s.pcs[u].ClearFlag?
    ensures var n := Next6(s, t, u, v);
            && Wait(s, n[0], t, v) && WaiterStep(n[0], n[1], t) && WaiterStep(n[1], n[2], t)
            && WaiterStep(n[2], n[3], t) && Clear(n[3], n[4], u) && WaiterStep(n[4], n[5], t)
  {
    SameValue(s.word, v);
    FlaggedWord(v);
  }

  /** A step that moves a thread, but not from Idle to Idle or to the clearing of the flag, adds nothing. */
  lemma AddsNothing(s: State, s': State, t: nat)
    requires t < |s.pcs| == |s'.pcs| && s.pcs[t] != s'.pcs[t]
    requires !s.pcs[t].Idle? || !s'.pcs[t].ClearFlag?
    ensures IsNoAdd(s, s')
  {
    hide IsFlagged;
  }

  lemma Goes(s: State, n: seq<State>, t: nat, u: nat, v: nat)
    requires s.word < WORDS && Value(s.word) == v && t < |s.pcs| && s.pcs[t].Idle?
    requires u < |s.pcs| && s.pcs[u].ClearFlag? && n == Next6(s, t, u, v)
    ensures |n| == 6 && Next(s, n[0]) && IsNoAdd(s, n[0])
    ensures forall i | 0 <= i < 5 :: Next(n[i], n[i + 1]) && IsNoAdd(n[i], n[i + 1])
    ensures Wait(s, n[0], t, v) && n[5].pcs[t] == Done(v) && forall i | 0 <= i < 6 :: |n[i].pcs| == |s.pcs|
    ensures forall i | 0 <= i < 5 :: InCall(n[i].pcs[t], v)
  {
    Next6Steps(s, t, u, v);
    AddsNothing(s, n[0], t);
    AddsNothing(n[0], n[1], t);
    AddsNothing(n[1], n[2], t);
    AddsNothing(n[2], n[3], t);
    AddsNothing(n[3], n[4], u);
    AddsNothing(n[4], n[5], t);
    hide WaiterStep;
    hide Wait;
    hide IsNoAdd;
    assert Step(s, n[0], t) && Step(n[0], n[1], t) && Step(n[1], n[2], t) && Step(n[2], n[3], t);
    assert Step(n[3], n[4], u) && Step(n[4], n[5], t);
  }

  lemma CanReturn(run: seq<State>, t: nat, u: nat, v: nat)
    requires IsRun(run) && var s := run[|run| - 1]; t < |s.pcs| && s.pcs[t].Idle? && Value(s.word) == v
    requires var s := run[|run| - 1]; u < |s.pcs| && s.pcs[u].ClearFlag?
    ensures GetsNothing(run, run + Next6(run[|run| - 1], t, u, v), |run| + 5, t, v)
  {
    var a, s := |run| - 1, run[|run| - 1];
    ReachableInv(run, a);
    var n := Next6(s, t, u, v);
    Goes(s, n, t, u, v);
    hide Next6;
    hide Next;
    hide Init;
    hide Wait;
    hide IsNoAdd;
    hide InCall;
    var longer := run + n;
    forall i: nat | i + 1 < |longer| ensures StepAt(longer, i) && (i >= a ==> NoAddAt(longer, i)) {
      if i < a {
        assert StepAt(run, i);
      } else if i > a {
        assert longer[i] == n[i - a - 1] && longer[i + 1] == n[i - a];
        assert Next(n[i - a - 1], n[i - a - 1 + 1]);
      }
    }
    forall i: nat | a < i < |run| + 5 ensures t < |longer[i].pcs| && InCall(longer[i].pcs[t], v) {
      assert longer[i] == n[i - a - 1];
    }
    assert longer[a] == s && longer[a + 1] == n[0] && longer[|run| + 5] == n[5];
  }

  /** In every reachable state: a wait for the present value, called now, can return 0 without anything being
      added if and only if some producer has yet to clear the flag. */
  lemma CanReturnUnchanged(run: seq<State>, t: nat, v: nat)
    requires IsRun(run) && var s := run[|run| - 1]; t < |s.pcs| && s.pcs[t].Idle? && Value(s.word) == v
    ensures (exists longer, b :: GetsNothing(run, longer, b, t, v)) <==> FlagToClear(run[|run| - 1])
  {
    var s := run[|run| - 1];
    if u: nat :| HasToClear(s, u) {
      CanReturn(run, t, u, v);
    } else if longer, b :| GetsNothing(run, longer, b, t, v) {
      assert longer[|run| - 1] == s;
      ReturnsOnlyAfterAdd(longer, |run| - 1, b, t, v);
      assert false;
    }
  }
}
