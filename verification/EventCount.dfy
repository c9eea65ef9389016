/** The 32-bit event count of ck_ec in multi-producer mode: a word with a flag bit, a futex, any
    number of producers and waiters, one atomic operation per step. */
module EventCount {
  const FLAG: nat := 0x8000_0000
  const WORDS: nat := 0x1_0000_0000

  /** `ck_ec32_value` of a word. */
  function Value(word: nat): nat {
    word % FLAG
  }

  function IsFlagged(word: nat): bool {
    word / FLAG % 2 == 1
  }

  /** `old_value | (1UL << 31)` for a value without flag. */
  function Flagged(v: nat): nat {
    v + FLAG
  }

  /** Where a thread stands. A producer that saw the flag has to clear it and to wake everybody. A
      waiter waits for the value to differ from `v`; in Done it has returned 0. */
  datatype Pc =
    | Idle
    | ClearFlag
    | WakeAll
    | Entry(v: nat)
    | Spin(v: nat)
    | Upgrade(v: nat, current: nat)
    | SecondSpin(v: nat)
    | FutexWait(v: nat)
    | Parked(v: nat)
    | CheckWord(v: nat)
    | CheckValue(v: nat)
    | Done(v: nat)

  datatype State = State(word: nat, pcs: seq<Pc>)

  ghost predicate Init(s: State) {
    s.word < FLAG && forall t | 0 <= t < |s.pcs| :: s.pcs[t] == Idle
  }

  function Go(s: State, t: nat, pc: Pc): State
    requires t < |s.pcs|
  {
    s.(pcs := s.pcs[t := pc])
  }

  // ----- producers

  /** `ck_ec32_add_mp`: the sum may carry into the flag, or out of the word. */
  ghost predicate Add(s: State, s': State, t: nat, delta: nat) {
    && t < |s.pcs| && s.pcs[t].Idle? && delta < WORDS
    && s' == Go(s, t, if IsFlagged(s.word) then ClearFlag else Idle).(word := (s.word + delta) % WORDS)
  }

  /** The first half of ck_ec32_wake. */
  ghost predicate Clear(s: State, s': State, t: nat) {
    && t < |s.pcs| && s.pcs[t].ClearFlag?
    && s' == Go(s, t, WakeAll).(word := Value(s.word))
  }

  function Unparked(pc: Pc): Pc {
    if pc.Parked? then CheckWord(pc.v) else pc
  }

  /** `wake32`: every thread parked on the word goes on. */
  ghost predicate Wake(s: State, s': State, t: nat) {
    && t < |s.pcs| && s.pcs[t].WakeAll? && |s'.pcs| == |s.pcs| && s'.word == s.word
    && forall u | 0 <= u < |s.pcs| :: s'.pcs[u] == if u == t then Idle else Unparked(s.pcs[u])
  }

  // ----- waiters

  ghost predicate Wait(s: State, s': State, t: nat, v: nat) {
    t < |s.pcs| && s.pcs[t].Idle? && s' == Go(s, t, Entry(v))
  }

  ghost predicate Return(s: State, s': State, t: nat) {
    t < |s.pcs| && s.pcs[t].Done? && s' == Go(s, t, Idle)
  }

  /** The deadline has passed, or the predicate says so. */
  ghost predicate GiveUp(s: State, s': State, t: nat) {
    t < |s.pcs| && s.pcs[t].FutexWait? && s' == Go(s, t, Idle)
  }

  /** wait32 may return early for any reason. */
  ghost predicate ReturnEarly(s: State, s': State, t: nat) {
    t < |s.pcs| && s.pcs[t].Parked? && s' == Go(s, t, CheckWord(s.pcs[t].v))
  }

  /** The next pc and word when a waiter takes a step; both spins may stop at any load. */
  ghost predicate WaiterStep(s: State, s': State, t: nat) {
    && t < |s.pcs|
    && var pc := s.pcs[t];
       || (pc.Entry? && s' == Go(s, t, if Value(s.word) != pc.v then Done(pc.v) else Spin(pc.v)))
       || (pc.Spin? && s' == Go(s, t, Upgrade(pc.v, s.word)))
       || (pc.Upgrade? && s' == AfterUpgrade(s, t))
       || (pc.SecondSpin? && s' == Go(s, t, if s.word != Flagged(pc.v) then Done(pc.v)
                                            else FutexWait(pc.v)))
       || (pc.FutexWait? && s' == Go(s, t, if s.word == Flagged(pc.v) then Parked(pc.v) else CheckWord(pc.v)))
       || (pc.CheckWord? && s' == Go(s, t, if s.word != Flagged(pc.v) then CheckValue(pc.v) else FutexWait(pc.v)))
       || (pc.CheckValue? && s' == Go(s, t, if Value(s.word) != pc.v then Done(pc.v) else Spin(pc.v)))
  }

  /** `ck_ec32_upgrade`. */
  function AfterUpgrade(s: State, t: nat): State
    requires t < |s.pcs| && s.pcs[t].Upgrade?
  {
    var v, current := s.pcs[t].v, s.pcs[t].current;
    if current == Flagged(v) then Go(s, t, SecondSpin(v))
    else if current != v then Go(s, t, Done(v))
    else if s.word == v then Go(s, t, SecondSpin(v)).(word := Flagged(v))
    else if s.word == Flagged(v) then Go(s, t, SecondSpin(v))
    else Go(s, t, Done(v))
  }

  ghost predicate Step(s: State, s': State, t: nat) {
    || (exists delta :: Add(s, s', t, delta)) || Clear(s, s', t) || Wake(s, s', t)
    || (exists v :: Wait(s, s', t, v)) || Return(s, s', t) || GiveUp(s, s', t) || ReturnEarly(s, s', t)
    || WaiterStep(s, s', t)
  }

  ghost predicate Next(s: State, s': State) {
    exists t :: Step(s, s', t)
  }

  ghost predicate StepAt(run: seq<State>, i: nat) {
    i + 1 < |run| && Next(run[i], run[i + 1])
  }

  ghost predicate IsRun(run: seq<State>) {
    |run| > 0 && Init(run[0]) && forall i: nat | i + 1 < |run| :: StepAt(run, i)
  }

  // ----- invariant

  /** Thread u has seen the flag and has yet to wake everybody. */
  predicate Pending(s: State, u: nat) {
    u < |s.pcs| && (s.pcs[u].ClearFlag? || s.pcs[u].WakeAll?)
  }

  predicate InSlowPath(pc: Pc) {
    pc.Spin? || pc.Upgrade? || pc.SecondSpin? || pc.FutexWait? || pc.Parked? || pc.CheckWord? || pc.CheckValue?
  }

  ghost predicate ThreadInv(s: State, t: nat)
    requires t < |s.pcs|
  {
    var pc := s.pcs[t];
    && (InSlowPath(pc) ==> pc.v < FLAG)
    && (pc.Upgrade? ==> pc.current < WORDS)
    && (pc.Parked? && s.word != Flagged(pc.v) ==> exists u: nat :: Pending(s, u))
  }

  ghost predicate Inv(s: State) {
    s.word < WORDS && forall t | 0 <= t < |s.pcs| :: ThreadInv(s, t)
  }

  lemma FlaggedWord(v: nat)
    requires v < FLAG
    ensures IsFlagged(Flagged(v)) && Value(Flagged(v)) == v && Value(v) == v && Flagged(v) < WORDS
  {}

  /** Only the flag tells two words of the same value apart. */
  lemma SameValue(word: nat, v: nat)
    requires word < WORDS && Value(word) == v
    ensures v < FLAG && (word == v || word == Flagged(v))
  {}

  lemma AddKeeps(s: State, s': State, t: nat, delta: nat)
    requires Inv(s) && Add(s, s', t, delta)
    ensures Inv(s')
  {
    forall u | 0 <= u < |s'.pcs| ensures ThreadInv(s', u) {
      assert ThreadInv(s, u);
      var pc := s.pcs[u];
      if pc.Parked? {
        if s.word == Flagged(pc.v) {
          FlaggedWord(pc.v);
          assert Pending(s', t);
        } else {
          var w: nat :| Pending(s, w);
          assert Pending(s', w);
        }
      }
    }
  }

  lemma ClearKeeps(s: State, s': State, t: nat)
    requires Inv(s) && Clear(s, s', t)
    ensures Inv(s')
  {
    assert Pending(s', t);
    forall u | 0 <= u < |s'.pcs| ensures ThreadInv(s', u) {
      assert ThreadInv(s, u);
    }
  }

  lemma WakeKeeps(s: State, s': State, t: nat)
    requires Inv(s) && Wake(s, s', t)
    ensures Inv(s')
  {
    forall u | 0 <= u < |s'.pcs| ensures ThreadInv(s', u) {
      assert ThreadInv(s, u);
      assert !s'.pcs[u].Parked?;
    }
  }

  /** Steps of a thread that is not a producer about to wake leave every pending wake-up pending. */
  lemma StillPending(s: State, s': State, t: nat, pc: Pc)
    requires t < |s.pcs| && s'.pcs == s.pcs[t := pc] && !Pending(s, t)
    ensures forall u: nat :: Pending(s, u) ==> Pending(s', u)
  {}

  lemma QuietStepKeeps(s: State, s': State, t: nat)
    requires Inv(s)
    requires (exists v :: Wait(s, s', t, v)) || Return(s, s', t) || GiveUp(s, s', t) || ReturnEarly(s, s', t)
    ensures Inv(s')
  {
    StillPending(s, s', t, s'.pcs[t]);
    forall u | 0 <= u < |s'.pcs| ensures ThreadInv(s', u) {
      assert ThreadInv(s, u) && ThreadInv(s, t);
      if s.pcs[u].Parked? && s.word != Flagged(s.pcs[u].v) {
        var w: nat :| Pending(s, w);
        assert Pending(s', w);
      }
    }
  }

  /** The waiter's own facts after its step. */
  lemma WaiterKeepsItself(s: State, s': State, t: nat)
    requires Inv(s) && WaiterStep(s, s', t)
    ensures s'.word < WORDS && ThreadInv(s', t)
    ensures s'.pcs == s.pcs[t := s'.pcs[t]] && !Pending(s, t)
    ensures s'.word == s.word || (!IsFlagged(s.word) && s.word < FLAG)
  {
    assert ThreadInv(s, t);
    var pc := s.pcs[t];
    if pc.Entry? || pc.CheckValue? {
      assert Value(s.word) < FLAG;
    } else if pc.Upgrade? {
      FlaggedWord(pc.v);
      if pc.current < WORDS && Value(pc.current) == pc.v { SameValue(pc.current, pc.v); }
      if Value(s.word) == pc.v { SameValue(s.word, pc.v); }
    } else if pc.SecondSpin? {
      if Value(s.word) == pc.v { SameValue(s.word, pc.v); }
    }
  }

  lemma WaiterStepKeeps(s: State, s': State, t: nat)
    requires Inv(s) && WaiterStep(s, s', t)
    ensures Inv(s')
  {
    WaiterKeepsItself(s, s', t);
    StillPending(s, s', t, s'.pcs[t]);
    hide WaiterStep;
    forall u | 0 <= u < |s'.pcs| && u != t ensures ThreadInv(s', u) {
      assert ThreadInv(s, u);
      if s.pcs[u].Parked? {
        FlaggedWord(s.pcs[u].v);
        if s.word != Flagged(s.pcs[u].v) {
          var w: nat :| Pending(s, w);
          assert Pending(s', w);
        }
      }
    }
  }

  lemma NextKeeps(s: State, s': State)
    requires Inv(s) && Next(s, s')
    ensures Inv(s')
  {
    hide Inv;
    var t: nat :| Step(s, s', t);
    if delta :| Add(s, s', t, delta) { AddKeeps(s, s', t, delta); }
    else if Clear(s, s', t) { ClearKeeps(s, s', t); }
    else if Wake(s, s', t) { WakeKeeps(s, s', t); }
    else if WaiterStep(s, s', t) { WaiterStepKeeps(s, s', t); }
    else { QuietStepKeeps(s, s', t); }
  }

  lemma {:induction false} ReachableInv(run: seq<State>, i: nat)
    requires IsRun(run) && i < |run|
    ensures Inv(run[i])
  {
    hide Next;
    if i > 0 {
      ReachableInv(run, i - 1);
      assert StepAt(run, i - 1);
      NextKeeps(run[i - 1], run[i]);
    }
  }

  // ----- what the event count promises

  /** No lost wake-up: as soon as the word differs from the one a waiter is parked on, some producer
      that saw the flag has yet to wake everybody; in particular when the value has changed. */
  lemma NoLostWakeUp(run: seq<State>, i: nat, t: nat)
    requires IsRun(run) && i < |run| && t < |run[i].pcs| && run[i].pcs[t].Parked?
    requires Value(run[i].word) != run[i].pcs[t].v || !IsFlagged(run[i].word)
    ensures exists u: nat :: Pending(run[i], u)
  {
    ReachableInv(run, i);
    assert ThreadInv(run[i], t);
    FlaggedWord(run[i].pcs[t].v);
  }

  ghost predicate ParkedThroughout(run: seq<State>, a: nat, b: nat, t: nat) {
    forall i: nat | a <= i <= b && i < |run| :: t < |run[i].pcs| && run[i].pcs[t].Parked?
  }

  lemma PendingUntilWake(s: State, s': State, u: nat, t: nat)
    requires Next(s, s') && Pending(s, u) && t < |s.pcs| && s.pcs[t].Parked?
    ensures u < |s'.pcs| && t < |s'.pcs| && (Pending(s', u) || !s'.pcs[t].Parked?)
  {
    hide IsFlagged;
    hide Value;
  }

  /** That producer's wake-up reaches the waiter: it cannot be done while the waiter stays parked. */
  lemma {:induction false} WakeUpArrives(run: seq<State>, a: nat, b: nat, t: nat, u: nat)
    requires IsRun(run) && a <= b < |run| && Pending(run[a], u) && ParkedThroughout(run, a, b, t)
    ensures Pending(run[b], u)
    decreases b
  {
    hide Next;
    if a < b {
      WakeUpArrives(run, a, b - 1, t, u);
      assert StepAt(run, b - 1);
      PendingUntilWake(run[b - 1], run[b], u, t);
    }
  }

  // ----- a wait that returns although the value has not changed

  /** Thread 0 flags the value 7, thread 1 adds 1, and clears the flag while thread 2 waits for 8 to
      change. */
  ghost function Spurious(): seq<State> {
    var a, b := SecondSpin(7), ClearFlag;
    [ State(7, [Idle, Idle, Idle]),
      State(7, [Entry(7), Idle, Idle]),
      State(7, [Spin(7), Idle, Idle]),
      State(7, [Upgrade(7, 7), Idle, Idle]),
      State(FLAG + 7, [a, Idle, Idle]),
      State(FLAG + 8, [a, b, Idle]),
      State(FLAG + 8, [a, b, Entry(8)]),
      State(FLAG + 8, [a, b, Spin(8)]),
      State(FLAG + 8, [a, b, Upgrade(8, FLAG + 8)]),
      State(FLAG + 8, [a, b, SecondSpin(8)]),
      State(8, [a, WakeAll, SecondSpin(8)]),
      State(8, [a, WakeAll, Done(8)]) ]
  }

  lemma WaitMayReturnWithoutChange()
    ensures IsRun(Spurious()) && Spurious()[6].pcs[2] == Entry(8) && Spurious()[11].pcs[2].Done?
    ensures forall i | 6 <= i <= 11 :: Value(Spurious()[i].word) == 8
  {
    var run := Spurious();
    assert Wait(run[0], run[1], 0, 7);
    assert WaiterStep(run[1], run[2], 0);
    assert WaiterStep(run[2], run[3], 0);
    assert WaiterStep(run[3], run[4], 0);
    assert Add(run[4], run[5], 1, 1);
    assert Wait(run[5], run[6], 2, 8);
    assert WaiterStep(run[6], run[7], 2);
    assert WaiterStep(run[7], run[8], 2);
    assert WaiterStep(run[8], run[9], 2);
    assert Clear(run[9], run[10], 1);
    assert WaiterStep(run[10], run[11], 2);
    StepsAre(run, [0, 0, 0, 0, 1, 2, 2, 2, 2, 1, 2]);
  }

  lemma StepsAre(run: seq<State>, threads: seq<nat>)
    requires |run| > 0 && Init(run[0]) && |threads| + 1 == |run|
    requires forall i | 0 <= i < |threads| :: Step(run[i], run[i + 1], threads[i])
    ensures IsRun(run)
  {
    hide Step;
    forall i: nat | i + 1 < |run| ensures StepAt(run, i) {
      assert Step(run[i], run[i + 1], threads[i]);
    }
  }
}
