/** The logger does its work: what a call leaves behind whatever the others do, and what it comes to when nobody
    disturbs it. */
module LogProgress {
  import Ring
  import opened Bits
  import opened Wrappers
  import opened LogMemory
  import opened LogPool
  import opened LogSteps

  // ----- whole calls beside others

  /** Thread t is in one call between instants a and b, and not before or after. */
  ghost predicate InCall(run: seq<State>, a: nat, b: nat, t: nat) {
    && a + 1 < b < |run| && (forall i: nat | a < i < b :: t < |run[i].phases| && !run[i].phases[t].Ready?)
    && t < |run[b].phases| && run[b].phases[t].Ready?
  }

  /** A ticket has been printed since instant a. */
  ghost predicate PrintedSince(s0: State, s: State) {
    exists k: nat :: k in s.printed && k !in s0.printed
  }

  /** Where a consumer is in its call, seen from the state s0 at its beginning. */
  ghost predicate Consuming(s0: State, s: State, t: nat) {
    && t < |s.phases| && s0.printed.Keys <= s.printed.Keys
    && match s.phases[t]
       case Fetching => true
       case Reading(_, _, _) => true
       case Freeing(_) => PrintedSince(s0, s)
       case Ready => PrintedSince(s0, s)
       case _ => false
  }

  lemma OthersPhase(s: State, s': State, u: nat, t: nat)
    requires Step(s, s', u) && u != t && t < |s.phases|
    ensures t < |s'.phases| && s'.phases[t] == s.phases[t]
  {
    hide RingStep;
  }

  lemma PrintsOnlyMore(s: State, s': State, u: nat)
    requires Step(s, s', u)
    ensures s.printed.Keys <= s'.printed.Keys
  {
    hide RingStep;
  }

  lemma ConsumerGoesOn(s0: State, s: State, s': State, u: nat, t: nat)
    requires Inv(s) && Step(s, s', u) && Consuming(s0, s, t) && !s.phases[t].Ready?
    ensures Consuming(s0, s', t)
  {
    PrintsOnlyMore(s, s', u);
    if u != t {
      OthersPhase(s, s', u, t);
    } else {
      OwnConsumeStep(s, s', t);
      hide Step;
      if s.phases[t].Reading? && s'.phases[t].Freeing? {
        TicketIsNew(s, t);
        assert s.phases[t].ticket in s'.printed && s.phases[t].ticket !in s0.printed;
      }
    }
  }

  lemma TicketIsNew(s: State, t: nat)
    requires Inv(s) && t < |s.phases| && s.phases[t].Reading?
    ensures s.phases[t].ticket !in s.printed
  {
    LoadsOwnCell(s, t);
  }

  lemma OwnConsumeStep(s: State, s': State, t: nat)
    requires Step(s, s', t) && t < |s.phases|
    requires s.phases[t].Fetching? || s.phases[t].Reading? || s.phases[t].Freeing?
    ensures t < |s'.phases|
    ensures s.phases[t].Fetching? ==> s'.phases[t].Fetching? || s'.phases[t].Reading?
    ensures s.phases[t].Reading? ==>
              s'.phases[t].Reading? || (s'.phases[t].Freeing? && s.phases[t].ticket in s'.printed)
    ensures s.phases[t].Freeing? ==> s'.phases[t].Freeing? || s'.phases[t].Ready?
  {
    hide RingStep;
  }

  lemma {:induction false} StaysConsuming(run: seq<State>, a: nat, b: nat, i: nat, t: nat)
    requires IsRun(run) && InCall(run, a, b, t) && ConsumeCall(run[a], run[a + 1], t) && a < i <= b
    ensures Consuming(run[a], run[i], t)
    decreases i
  {
    hide Next;
    if i > a + 1 {
      StaysConsuming(run, a, b, i - 1, t);
      ReachableInv(run, i - 1);
      assert StepAt(run, i - 1);
      GoesOnConsuming(run[a], run[i - 1], run[i], t);
    }
  }

  lemma GoesOnConsuming(s0: State, s: State, s': State, t: nat)
    requires Inv(s) && Next(s, s') && Consuming(s0, s, t) && !s.phases[t].Ready?
    ensures Consuming(s0, s', t)
  {
    hide Step;
    hide Consuming;
    hide Inv;
    var u: nat :| Step(s, s', u);
    ConsumerGoesOn(s0, s, s', u, t);
  }

  /** A consume call that returns has printed a ticket that had not been printed before: an empty log makes it wait. */
  lemma ConsumeHasPrinted(run: seq<State>, a: nat, b: nat, t: nat)
    requires IsRun(run) && InCall(run, a, b, t) && ConsumeCall(run[a], run[a + 1], t)
    ensures PrintedSince(run[a], run[b])
  {
    StaysConsuming(run, a, b, b, t);
  }

  // ----- enqueue

  /** The message has been published under a ticket since instant a. */
  ghost predicate SentSince(s0: State, s: State, msg: Msg) {
    exists k: nat :: |s0.sent| <= k < |s.sent| && s.sent[k] == msg
  }

  /** No cell was free at some instant between a and b. */
  ghost predicate SawNoneFree(run: seq<State>, a: nat, b: nat) {
    exists m: nat :: a <= m <= b && m < |run| && run[m].free.cHead == run[m].free.pTail
  }

  /** A dequeue that goes on after a failed compare-and-swap, as all dequeues of the logger do. */
  predicate Persists(pc: Ring.Pc) {
    pc.DeqStart? || pc.DeqHead? || pc.DeqRead? || pc.DeqCas? ==> !pc.once
  }

  predicate CameBackEmpty(pc: Ring.Pc) {
    pc.DeqDone? && !pc.ok
  }

  /** Where an enqueue of msg is in its call. */
  ghost predicate Logging(run: seq<State>, a: nat, i: nat, t: nat, msg: Msg) {
    && a <= i < |run| && Thread(run[i], t) && |run[a].sent| <= |run[i].sent|
    && match run[i].phases[t]
       case Acquiring(m) =>
         m == msg && Persists(run[i].free.pcs[t]) && (CameBackEmpty(run[i].free.pcs[t]) ==> SawNoneFree(run, a, i))
       case Filling(_, m, _) => m == msg
       case Publishing(_, m) => m == msg && (Ring.Trying(run[i].used.pcs[t]) || SentSince(run[a], run[i], msg))
       case Ready => SentSince(run[a], run[i], msg) || SawNoneFree(run, a, i)
       case _ => false
  }

  lemma SendsOnlyMore(s: State, s': State, u: nat)
    requires Step(s, s', u)
    ensures s.sent <= s'.sent
  {
    hide RingStep;
  }

  lemma StillSent(s0: State, s: State, s': State, msg: Msg)
    requires SentSince(s0, s, msg) && s.sent <= s'.sent
    ensures SentSince(s0, s', msg)
  {
    var k: nat :| |s0.sent| <= k < |s.sent| && s.sent[k] == msg;
    assert s'.sent[k] == msg;
  }

  lemma StillSawNone(run: seq<State>, a: nat, b: nat)
    requires b + 1 < |run| && SawNoneFree(run, a, b)
    ensures SawNoneFree(run, a, b + 1)
  {}

  ghost predicate SameFor(s: State, s': State, t: nat) {
    && Thread(s, t) && Thread(s', t) && s'.phases[t] == s.phases[t]
    && s'.free.pcs[t] == s.free.pcs[t] && s'.used.pcs[t] == s.used.pcs[t]
  }

  lemma OthersInRings(s: State, s': State, u: nat, t: nat)
    requires (FreeRing(s, s', u) || UsedRing(s, s', u)) && u != t && Thread(s, t)
    ensures SameFor(s, s', t)
  {
    if FreeRing(s, s', u) { Ring.OnlyOwnPc(s.free, s'.free, u); } else { Ring.OnlyOwnPc(s.used, s'.used, u); }
    hide RingStep;
  }

  lemma OthersLog(s: State, s': State, u: nat, t: nat)
    requires LogStep(s, s', u) && u != t && Thread(s, t)
    ensures SameFor(s, s', t)
  {}

  lemma OthersConsume(s: State, s': State, u: nat, t: nat)
    requires ConsumeStep(s, s', u) && u != t && Thread(s, t)
    ensures SameFor(s, s', t)
  {}

  lemma OthersRings(s: State, s': State, u: nat, t: nat)
    requires Step(s, s', u) && u != t && Thread(s, t)
    ensures SameFor(s, s', t)
  {
    hide FreeRing;
    hide UsedRing;
    hide LogStep;
    hide ConsumeStep;
    hide SameFor;
    if FreeRing(s, s', u) || UsedRing(s, s', u) { OthersInRings(s, s', u, t); }
    else if LogStep(s, s', u) { OthersLog(s, s', u, t); }
    else { OthersConsume(s, s', u, t); }
  }

  /** A dequeue that fails found the free ring empty. */
  lemma FailsOnEmpty(s: State, s': State, t: nat)
    requires Inv(s) && FreeRing(s, s', t) && s.phases[t].Acquiring? && Persists(s.free.pcs[t])
    ensures Thread(s', t) && Persists(s'.free.pcs[t])
    ensures CameBackEmpty(s'.free.pcs[t]) ==> s.free.cHead == s.free.pTail
  {
    SameThreads(s.free, s'.free, t);
    assert PhaseInv(s, t) && Ring.PcInv(s.free, t);
    assert Ring.DeqStep(s.free, s'.free, t);
  }

  /** An enqueue into the used ring that has its ticket has published its message. */
  lemma ReserveSends(s: State, s': State, t: nat)
    requires Inv(s) && Inv(s') && UsedRing(s, s', t) && s.phases[t].Publishing? && Ring.Trying(s.used.pcs[t])
    ensures Thread(s', t) && s'.phases[t] == s.phases[t]
    ensures Ring.Trying(s'.used.pcs[t]) || s'.sent == s.sent + [s.phases[t].msg]
  {
    SameThreads(s.used, s'.used, t);
    assert PhaseInv(s, t) && PhaseInv(s', t);
    hide Inv;
    TryingSteps(s.used, s'.used, t);
  }

  /** An enqueue goes on trying, fails, or reserves a ticket. */
  lemma TryingSteps(r: Ring.State, r': Ring.State, t: nat)
    requires RingStep(r, r', t) && t < |r.pcs| && Ring.Trying(r.pcs[t])
    ensures t < |r'.pcs| && (Ring.Trying(r'.pcs[t]) || r'.pcs[t] == Ring.EnqDone(false) || r'.pHead == r.pHead + 1)
  {
    assert Ring.EnqStep(r, r', t);
  }

  lemma OwnLogStep(s: State, s': State, t: nat)
    requires Step(s, s', t) && Thread(s, t)
    requires s.phases[t].Acquiring? || s.phases[t].Filling? || s.phases[t].Publishing?
    ensures Thread(s', t)
    ensures s.phases[t].Acquiring? ==>
              || (s'.phases[t] == s.phases[t] && FreeRing(s, s', t))
              || (s'.phases[t].Ready? && s.free.pcs[t].DeqDone? && !s.free.pcs[t].ok)
              || (s'.phases[t].Filling? && s'.phases[t].msg == s.phases[t].msg)
    ensures s.phases[t].Filling? ==>
              || (s'.phases[t].Filling? && s'.phases[t].msg == s.phases[t].msg)
              || (s'.phases[t].Publishing? && s'.phases[t].msg == s.phases[t].msg && s'.used.pcs[t].EnqStart?)
    ensures s.phases[t].Publishing? ==>
              || (s'.phases[t] == s.phases[t] && (UsedRing(s, s', t) || LogRetry(s, s', t)))
              || (s'.phases[t].Ready? && s.used.pcs[t] == Ring.EnqDone(true))
  {
    if FreeRing(s, s', t) { SameThreads(s.free, s'.free, t); }
    if UsedRing(s, s', t) { SameThreads(s.used, s'.used, t); }
    hide RingStep;
  }

  lemma SameThreads(r: Ring.State, r': Ring.State, t: nat)
    requires RingStep(r, r', t)
    ensures |r'.pcs| == |r.pcs|
  {}

  lemma LoggerGoesOn(run: seq<State>, a: nat, i: nat, t: nat, msg: Msg)
    requires i + 1 < |run| && Inv(run[i]) && Inv(run[i + 1]) && Step(run[i], run[i + 1], t)
    requires Logging(run, a, i, t, msg) && !run[i].phases[t].Ready?
    ensures Logging(run, a, i + 1, t, msg)
  {
    var s, s' := run[i], run[i + 1];
    SendsOnlyMore(s, s', t);
    OwnLogStep(s, s', t);
    hide Step;
    hide Inv;
    if SawNoneFree(run, a, i) { StillSawNone(run, a, i); }
    if SentSince(run[a], s, msg) { StillSent(run[a], s, s', msg); }
    if s.phases[t].Acquiring? && s'.phases[t] == s.phases[t] {
      FailsOnEmpty(s, s', t);
    } else if s.phases[t].Publishing? && s'.phases[t] == s.phases[t] && Ring.Trying(s.used.pcs[t]) {
      PublisherGoesOn(run, a, i, t, msg);
    }
  }

  lemma PublisherGoesOn(run: seq<State>, a: nat, i: nat, t: nat, msg: Msg)
    requires a <= i && i + 1 < |run| && Inv(run[i]) && Inv(run[i + 1]) && Thread(run[i], t)
    requires run[i].phases[t].Publishing? && run[i].phases[t].msg == msg && Ring.Trying(run[i].used.pcs[t])
    requires UsedRing(run[i], run[i + 1], t) || LogRetry(run[i], run[i + 1], t)
    requires |run[a].sent| <= |run[i].sent|
    ensures Thread(run[i + 1], t)
    ensures Ring.Trying(run[i + 1].used.pcs[t]) || SentSince(run[a], run[i + 1], msg)
  {
    hide Inv;
    if UsedRing(run[i], run[i + 1], t) {
      ReserveSends(run[i], run[i + 1], t);
      hide UsedRing;
      if !Ring.Trying(run[i + 1].used.pcs[t]) { assert run[i + 1].sent[|run[i].sent|] == msg; }
    }
  }

  lemma OthersGoOn(run: seq<State>, a: nat, i: nat, u: nat, t: nat, msg: Msg)
    requires i + 1 < |run| && Step(run[i], run[i + 1], u) && u != t && Logging(run, a, i, t, msg)
    ensures Logging(run, a, i + 1, t, msg)
  {
    var s, s' := run[i], run[i + 1];
    SendsOnlyMore(s, s', u);
    OthersRings(s, s', u, t);
    hide Step;
    if SawNoneFree(run, a, i) { StillSawNone(run, a, i); }
    if SentSince(run[a], s, msg) { StillSent(run[a], s, s', msg); }
  }

  lemma {:induction false} StaysLogging(run: seq<State>, a: nat, b: nat, i: nat, t: nat, msg: Msg)
    requires IsRun(run) && InCall(run, a, b, t) && LogCall(run[a], run[a + 1], t, msg) && a < i <= b
    ensures Logging(run, a, i, t, msg)
    decreases i
  {
    hide Step;
    hide Inv;
    if i > a + 1 {
      StaysLogging(run, a, b, i - 1, t, msg);
      ReachableInv(run, i - 1);
      ReachableInv(run, i);
      assert StepAt(run, i - 1);
      var u: nat :| Step(run[i - 1], run[i], u);
      hide Logging;
      if u == t { LoggerGoesOn(run, a, i - 1, t, msg); } else { OthersGoOn(run, a, i - 1, u, t, msg); }
    } else {
      LoggingStarts(run, a, t, msg);
    }
  }

  lemma LoggingStarts(run: seq<State>, a: nat, t: nat, msg: Msg)
    requires a + 1 < |run| && LogCall(run[a], run[a + 1], t, msg)
    ensures Logging(run, a, a + 1, t, msg)
  {}

  /** An enqueue call that returns has published its message, or no cell was free at some instant of it. */
  lemma LogHasSent(run: seq<State>, a: nat, b: nat, t: nat, msg: Msg)
    requires IsRun(run) && InCall(run, a, b, t) && LogCall(run[a], run[a + 1], t, msg)
    ensures SentSince(run[a], run[b], msg) || SawNoneFree(run, a, b)
  {
    StaysLogging(run, a, b, b, t, msg);
  }
}
