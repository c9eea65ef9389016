/** The phase-fair reader-writer lock of ck_pflock.h: one atomic operation per step, any number of
    threads, tickets that do not wrap. */
module PhaseFair {
  import opened Bits

  /** Where a thread stands. `n` is the reader's arrival number, `w` the writer bits it saw, `ticket`
      the writer's number, `seen` the value of rin its announcement replaced. `phase` is history:
      the ticket whose write phase the reader arrived in. */
  datatype Pc =
    | Idle
    | ReadWait(n: nat, w: nat, phase: nat)
    | Reading(n: nat)
    | WriteWait(ticket: nat)
    | WriteReady(ticket: nat)
    | WriteFlush(ticket: nat, seen: nat)
    | Writing(ticket: nat, seen: nat)
    | WriteLeave(ticket: nat)

  /** `ck_pflock` and its threads. History: `done[n]` and `owner[n]` for the n-th arriving reader,
      `holder[k]` for the k-th writer; `counted`, while a writer is announced, is how many readers
      had arrived before it; `cleared` says that the current writer has ended its phase. */
  datatype State = State(
    rin: nat,
    rout: nat,
    win: nat,
    wout: nat,
    pcs: seq<Pc>,
    done: seq<bool>,
    owner: seq<nat>,
    holder: seq<nat>,
    announced: bool,
    counted: nat,
    cleared: bool)

  ghost predicate Init(s: State) {
    && s.rin == s.rout == s.win == s.wout == s.counted == 0 && !s.announced && !s.cleared
    && s.done == [] && s.owner == [] && s.holder == []
    && forall t | 0 <= t < |s.pcs| :: s.pcs[t] == Idle
  }

  function Go(s: State, t: nat, pc: Pc): State
    requires t < |s.pcs|
  {
    s.(pcs := s.pcs[t := pc])
  }

  // ----- readers

  /** CK_PFLOCK_WBITS of rin. */
  function WriterBits(rin: nat): nat {
    rin % 4
  }

  /** The bits a writer adds to rin: its presence, and the parity of its ticket as phase identifier. */
  function PhaseBits(ticket: nat): (b: nat)
    ensures 2 <= b <= 3
  {
    ticket % 2 + 2
  }

  lemma PhasesAlternate(ticket: nat)
    ensures PhaseBits(ticket) != PhaseBits(ticket + 1)
  {}

  ghost predicate ReadArrive(s: State, s': State, t: nat) {
    && t < |s.pcs| && s.pcs[t].Idle?
    && var w := WriterBits(s.rin);
       s' == Go(s, t, if w == 0 then Reading(|s.done|) else ReadWait(|s.done|, w, s.wout))
             .(rin := s.rin + 0x100, done := s.done + [false], owner := s.owner + [t])
  }

  ghost predicate ReadSpin(s: State, s': State, t: nat) {
    && t < |s.pcs| && s.pcs[t].ReadWait?
    && s' == if WriterBits(s.rin) == s.pcs[t].w then s else Go(s, t, Reading(s.pcs[t].n))
  }

  ghost predicate ReadUnlock(s: State, s': State, t: nat) {
    && t < |s.pcs| && s.pcs[t].Reading? && s.pcs[t].n < |s.done|
    && s' == Go(s, t, Idle).(rout := s.rout + 0x100, done := s.done[s.pcs[t].n := true])
  }

  // ----- writers

  ghost predicate WriteTicket(s: State, s': State, t: nat) {
    && t < |s.pcs| && s.pcs[t].Idle?
    && s' == Go(s, t, WriteWait(s.win)).(win := s.win + 1, holder := s.holder + [t])
  }

  ghost predicate WriteTurn(s: State, s': State, t: nat) {
    && t < |s.pcs| && s.pcs[t].WriteWait?
    && s' == if s.wout == s.pcs[t].ticket then Go(s, t, WriteReady(s.pcs[t].ticket)) else s
  }

  /** The phase identifier is the parity of the ticket, beside the presence bit. */
  ghost predicate WriteAnnounce(s: State, s': State, t: nat) {
    && t < |s.pcs| && s.pcs[t].WriteReady?
    && s' == Go(s, t, WriteFlush(s.pcs[t].ticket, s.rin))
             .(rin := s.rin + PhaseBits(s.pcs[t].ticket), announced := true, counted := |s.done|)
  }

  ghost predicate WriteEnter(s: State, s': State, t: nat) {
    && t < |s.pcs| && s.pcs[t].WriteFlush?
    && s' == if s.rout == s.pcs[t].seen then Go(s, t, Writing(s.pcs[t].ticket, s.pcs[t].seen)) else s
  }

  /** `rin & CK_PFLOCK_LSB` clears the low four bits. */
  ghost predicate WriteClear(s: State, s': State, t: nat) {
    && t < |s.pcs| && s.pcs[t].Writing?
    && s' == Go(s, t, WriteLeave(s.pcs[t].ticket)).(rin := s.rin - s.rin % 16, announced := false, cleared := true)
  }

  ghost predicate WriteUnlock(s: State, s': State, t: nat) {
    && t < |s.pcs| && s.pcs[t].WriteLeave?
    && s' == Go(s, t, Idle).(wout := s.wout + 1, cleared := false)
  }

  ghost predicate Step(s: State, s': State, t: nat) {
    || ReadArrive(s, s', t) || ReadSpin(s, s', t) || ReadUnlock(s, s', t)
    || WriteTicket(s, s', t) || WriteTurn(s, s', t) || WriteAnnounce(s, s', t)
    || WriteEnter(s, s', t) || WriteClear(s, s', t) || WriteUnlock(s, s', t)
  }

  ghost predicate Next(s: State, s': State) {
    exists t :: Step(s, s', t)
  }

  ghost predicate StepAt(run: seq<State>, i: nat) {
    i + 1 < |run| && Next(run[i], run[i + 1])
  }

  ghost predicate IsRun(run: seq<State>) {
    |run| > 0 && Init(run[0]) && forall i: nat | i + 1 < |run| :: StepAt(run, i)
  }

  // ----- invariant

  function Count(done: seq<bool>): nat {
    if done == [] then 0 else Count(done[..|done| - 1]) + if done[|done| - 1] then 1 else 0
  }

  predicate IsReader(pc: Pc) {
    pc.ReadWait? || pc.Reading?
  }

  predicate IsWriter(pc: Pc) {
    !pc.Idle? && !IsReader(pc)
  }

  ghost predicate WordsInv(s: State) {
    && s.rin == 0x100 * |s.done| + (if s.announced then PhaseBits(s.wout) else 0)
    && s.rout == 0x100 * Count(s.done)
    && |s.owner| == |s.done| && |s.holder| == s.win && s.wout <= s.win
    && (s.announced ==> s.counted <= |s.done| && !s.cleared)
    && (s.announced || s.cleared ==> s.wout < s.win)
  }

  ghost predicate ReaderInv(s: State, t: nat)
    requires t < |s.pcs|
  {
    var pc := s.pcs[t];
    IsReader(pc) ==>
      && pc.n < |s.done| && |s.owner| == |s.done| && !s.done[pc.n] && s.owner[pc.n] == t
      && (pc.Reading? && s.announced ==> pc.n < s.counted)
      && (pc.ReadWait? ==>
            && pc.w == PhaseBits(pc.phase) && pc.phase <= s.wout <= pc.phase + 1
            && (pc.phase == s.wout ==> (s.announced && pc.n >= s.counted) || s.cleared)
            && (pc.phase < s.wout ==> !s.cleared && (s.announced ==> pc.n < s.counted)))
  }

  ghost predicate WriterInv(s: State, t: nat)
    requires t < |s.pcs|
  {
    var pc := s.pcs[t];
    IsWriter(pc) ==>
      && s.wout <= pc.ticket < s.win && |s.holder| == s.win && s.holder[pc.ticket] == t
      && (!pc.WriteWait? ==> pc.ticket == s.wout)
      && ((pc.WriteWait? || pc.WriteReady?) && pc.ticket == s.wout ==> !s.announced && !s.cleared)
      && (pc.WriteFlush? || pc.Writing? ==> s.announced && pc.seen == 0x100 * s.counted)
      && (pc.WriteLeave? ==> s.cleared)
  }

  /** A reader that came after the announced writer has not left, and before the writer is in, all
      the earlier ones have. */
  ghost predicate DoneInv(s: State) {
    && (s.announced ==> forall n | s.counted <= n < |s.done| :: !s.done[n])
    && (forall t | 0 <= t < |s.pcs| ::
          s.pcs[t].Writing? ==> s.counted <= |s.done| && forall n | 0 <= n < s.counted :: s.done[n])
  }

  /** Readers that have not left, and writers up to the last ticket, are where they should be. */
  ghost predicate HeldInv(s: State) {
    && |s.owner| == |s.done| && |s.holder| == s.win
    && (forall n | 0 <= n < |s.done| && !s.done[n] ::
          s.owner[n] < |s.pcs| && IsReader(s.pcs[s.owner[n]]) && s.pcs[s.owner[n]].n == n)
    && (forall k | s.wout <= k < s.win ::
          s.holder[k] < |s.pcs| && IsWriter(s.pcs[s.holder[k]]) && s.pcs[s.holder[k]].ticket == k)
  }

  ghost predicate Inv(s: State) {
    && WordsInv(s) && DoneInv(s) && HeldInv(s)
    && (forall t | 0 <= t < |s.pcs| :: ReaderInv(s, t))
    && (forall t | 0 <= t < |s.pcs| :: WriterInv(s, t))
  }

  lemma InitHolds(s: State)
    requires Init(s)
    ensures Inv(s)
  {}

  // ----- counting

  lemma {:induction false} CountAfter(done: seq<bool>, n: nat)
    requires n < |done| && !done[n]
    ensures Count(done[n := true]) == Count(done) + 1
  {
    var last := |done| - 1;
    if n < last {
      assert done[n := true][..last] == done[..last][n := true];
      CountAfter(done[..last], n);
    } else {
      assert done[n := true][..last] == done[..last];
    }
  }

  lemma CountGrows(done: seq<bool>)
    ensures Count(done + [false]) == Count(done)
  {
    assert (done + [false])[..|done|] == done;
  }

  lemma {:induction false} CountAtMost(done: seq<bool>)
    ensures Count(done) <= |done|
    ensures Count(done) == |done| ==> forall n | 0 <= n < |done| :: done[n]
  {
    if done != [] {
      CountAtMost(done[..|done| - 1]);
      if Count(done) == |done| {
        forall n | 0 <= n < |done| ensures done[n] {
          if n < |done| - 1 { assert done[n] == done[..|done| - 1][n]; }
        }
      }
    }
  }

  /** If only the first k can have left, and k have left, they are the first k. */
  lemma {:induction false} AllLeft(done: seq<bool>, k: nat)
    requires k <= |done| && Count(done) == k && forall n | k <= n < |done| :: !done[n]
    ensures forall n | 0 <= n < k :: done[n]
    decreases |done|
  {
    if k == |done| {
      CountAtMost(done);
    } else {
      var shorter := done[..|done| - 1];
      AllLeft(shorter, k);
      forall n | 0 <= n < k ensures done[n] {
        assert shorter[n];
      }
    }
  }

  // ----- every step keeps the invariant

  lemma LowTwoBits(d: nat, b: nat)
    requires b < 4
    ensures WriterBits(0x100 * d + b) == b
  {
    ModUnique(0x100 * d + b, 4, 64 * d, b);
  }

  lemma BitsOfRin(s: State)
    requires WordsInv(s)
    ensures WriterBits(s.rin) == if s.announced then PhaseBits(s.wout) else 0
  {
    LowTwoBits(|s.done|, if s.announced then PhaseBits(s.wout) else 0);
  }

  lemma ArrivalKeepsThreads(s: State, s': State, t: nat)
    requires Inv(s) && ReadArrive(s, s', t)
    ensures forall u | 0 <= u < |s'.pcs| :: ReaderInv(s', u)
    ensures forall u | 0 <= u < |s'.pcs| :: WriterInv(s', u)
  {
    BitsOfRin(s);
    hide WriterBits;
    hide PhaseBits;
    hide Count;
    hide HeldInv;
    hide DoneInv;
    forall u | 0 <= u < |s'.pcs| ensures ReaderInv(s', u) {
      assert ReaderInv(s, u);
    }
    forall u | 0 <= u < |s'.pcs| ensures WriterInv(s', u) {
      assert WriterInv(s, u);
    }
  }

  lemma ReadArriveKeeps(s: State, s': State, t: nat)
    requires Inv(s) && ReadArrive(s, s', t)
    ensures Inv(s')
  {
    hide WriterBits;
    hide PhaseBits;
    ArrivalKeepsThreads(s, s', t);
    CountGrows(s.done);
    hide Count;
    hide ReaderInv;
    hide WriterInv;
  }

  lemma ReadSpinKeeps(s: State, s': State, t: nat)
    requires Inv(s) && ReadSpin(s, s', t)
    ensures Inv(s')
  {
    hide PhaseBits;
    hide WriterBits;
    BitsOfRin(s);
    assert ReaderInv(s, t);
    forall u | 0 <= u < |s'.pcs| ensures ReaderInv(s', u) && WriterInv(s', u) {
      assert ReaderInv(s, u) && WriterInv(s, u);
    }
  }

  lemma ReadUnlockKeeps(s: State, s': State, t: nat)
    requires Inv(s) && ReadUnlock(s, s', t)
    ensures Inv(s')
  {
    hide PhaseBits;
    hide WriterBits;
    assert ReaderInv(s, t);
    CountAfter(s.done, s.pcs[t].n);
    forall u | 0 <= u < |s'.pcs| ensures ReaderInv(s', u) && WriterInv(s', u) {
      assert ReaderInv(s, u) && WriterInv(s, u);
    }
  }

  lemma WriteTicketKeeps(s: State, s': State, t: nat)
    requires Inv(s) && WriteTicket(s, s', t)
    ensures Inv(s')
  {
    hide PhaseBits;
    hide WriterBits;
    forall u | 0 <= u < |s'.pcs| ensures ReaderInv(s', u) && WriterInv(s', u) {
      assert ReaderInv(s, u) && WriterInv(s, u);
    }
  }

  lemma WriteTurnKeeps(s: State, s': State, t: nat)
    requires Inv(s) && WriteTurn(s, s', t)
    ensures Inv(s')
  {
    hide PhaseBits;
    hide WriterBits;
    assert WriterInv(s, t);
    forall u | 0 <= u < |s'.pcs| ensures ReaderInv(s', u) && WriterInv(s', u) {
      assert ReaderInv(s, u) && WriterInv(s, u);
    }
  }

  lemma WriteAnnounceKeeps(s: State, s': State, t: nat)
    requires Inv(s) && WriteAnnounce(s, s', t)
    ensures Inv(s')
  {
    hide PhaseBits;
    hide WriterBits;
    assert WriterInv(s, t);
    forall u | 0 <= u < |s'.pcs| ensures ReaderInv(s', u) && WriterInv(s', u) && !s'.pcs[u].Writing? {
      assert ReaderInv(s, u) && WriterInv(s, u);
    }
  }

  lemma WriteEnterKeeps(s: State, s': State, t: nat)
    requires Inv(s) && WriteEnter(s, s', t)
    ensures Inv(s')
  {
    hide PhaseBits;
    hide WriterBits;
    assert WriterInv(s, t);
    if s.rout == s.pcs[t].seen {
      AllLeft(s.done, s.counted);
    }
    forall u | 0 <= u < |s'.pcs| ensures ReaderInv(s', u) && WriterInv(s', u) {
      assert ReaderInv(s, u) && WriterInv(s, u);
    }
  }

  lemma LowBits(d: nat, b: nat)
    requires b < 16
    ensures (0x100 * d + b) % 16 == b
  {
    ModUnique(0x100 * d + b, 16, 16 * d, b);
  }

  lemma OneWriterIn(s: State, t: nat)
    requires Inv(s) && t < |s.pcs| && s.pcs[t].Writing?
    ensures forall u | 0 <= u < |s.pcs| && u != t :: !s.pcs[u].Writing?
  {
    assert WriterInv(s, t);
    forall u | 0 <= u < |s.pcs| && u != t ensures !s.pcs[u].Writing? {
      assert WriterInv(s, u);
    }
  }

  lemma WriteClearKeeps(s: State, s': State, t: nat)
    requires Inv(s) && WriteClear(s, s', t)
    ensures Inv(s')
  {
    hide PhaseBits;
    hide WriterBits;
    assert WriterInv(s, t);
    LowBits(|s.done|, PhaseBits(s.wout));
    assert s'.rin == 0x100 * |s'.done|;
    forall u | 0 <= u < |s'.pcs| ensures ReaderInv(s', u) {
      assert ReaderInv(s, u);
    }
    forall u | 0 <= u < |s'.pcs| ensures WriterInv(s', u) {
      assert WriterInv(s, u);
    }
    OneWriterIn(s, t);
  }

  lemma WriteUnlockKeeps(s: State, s': State, t: nat)
    requires Inv(s) && WriteUnlock(s, s', t)
    ensures Inv(s')
  {
    hide PhaseBits;
    hide WriterBits;
    assert WriterInv(s, t);
    forall u | 0 <= u < |s'.pcs| ensures ReaderInv(s', u) && WriterInv(s', u) {
      assert ReaderInv(s, u) && WriterInv(s, u);
    }
  }

  lemma NextKeeps(s: State, s': State)
    requires Inv(s) && Next(s, s')
    ensures Inv(s')
  {
    hide Inv;
    var t: nat :| Step(s, s', t);
    if ReadArrive(s, s', t) { ReadArriveKeeps(s, s', t); }
    else if ReadSpin(s, s', t) { ReadSpinKeeps(s, s', t); }
    else if ReadUnlock(s, s', t) { ReadUnlockKeeps(s, s', t); }
    else if WriteTicket(s, s', t) { WriteTicketKeeps(s, s', t); }
    else if WriteTurn(s, s', t) { WriteTurnKeeps(s, s', t); }
    else if WriteAnnounce(s, s', t) { WriteAnnounceKeeps(s, s', t); }
    else if WriteEnter(s, s', t) { WriteEnterKeeps(s, s', t); }
    else if WriteClear(s, s', t) { WriteClearKeeps(s, s', t); }
    else { WriteUnlockKeeps(s, s', t); }
  }

  lemma {:induction false} ReachableInv(run: seq<State>, i: nat)
    requires IsRun(run) && i < |run|
    ensures Inv(run[i])
  {
    hide Inv;
    if i == 0 {
      InitHolds(run[0]);
    } else {
      ReachableInv(run, i - 1);
      assert StepAt(run, i - 1);
      NextKeeps(run[i - 1], run[i]);
    }
  }

  // ----- what the lock promises

  /** A writer in the critical section is alone there. */
  lemma MutualExclusion(run: seq<State>, i: nat, t: nat, u: nat)
    requires IsRun(run) && i < |run| && t < |run[i].pcs| && u < |run[i].pcs| && t != u
    requires run[i].pcs[t].Writing?
    ensures !run[i].pcs[u].Writing? && !run[i].pcs[u].Reading?
  {
    hide PhaseBits;
    hide WriterBits;
    ReachableInv(run, i);
    assert ReaderInv(run[i], u) && WriterInv(run[i], u) && WriterInv(run[i], t);
  }

  /** Writers enter in the order of their tickets. */
  lemma WritersInTicketOrder(run: seq<State>, i: nat, t: nat, u: nat)
    requires IsRun(run) && i < |run| && t < |run[i].pcs| && u < |run[i].pcs|
    requires run[i].pcs[t].Writing? && IsWriter(run[i].pcs[u])
    ensures run[i].pcs[t].ticket <= run[i].pcs[u].ticket
  {
    ReachableInv(run, i);
    assert WriterInv(run[i], u) && WriterInv(run[i], t);
  }

  /** The n-th reader, thread t, is still waiting, or in, or has left. */
  ghost predicate Arrived(s: State, t: nat, n: nat, w: nat, phase: nat) {
    && n < |s.done| && t < |s.pcs|
    && (s.done[n] || s.pcs[t] == ReadWait(n, w, phase) || s.pcs[t] == Reading(n))
  }

  lemma StepKeepsArrived(s: State, s': State, u: nat, t: nat, n: nat, w: nat, phase: nat)
    requires Step(s, s', u) && Arrived(s, t, n, w, phase)
    ensures Arrived(s', t, n, w, phase)
  {
    hide PhaseBits;
    hide WriterBits;
  }

  lemma {:induction false} StaysArrived(run: seq<State>, a: nat, b: nat, t: nat, n: nat, w: nat, phase: nat)
    requires IsRun(run) && a <= b < |run| && Arrived(run[a], t, n, w, phase)
    ensures Arrived(run[b], t, n, w, phase)
    decreases b
  {
    hide Step;
    hide Arrived;
    if a < b {
      StaysArrived(run, a, b - 1, t, n, w, phase);
      assert StepAt(run, b - 1);
      var u: nat :| Step(run[b - 1], run[b], u);
      StepKeepsArrived(run[b - 1], run[b], u, t, n, w, phase);
    }
  }

  /** Phase fairness: a reader that arrives in a write phase has been in, and has left, before any
      later writer gets in. */
  lemma ReadersBeforeLaterWriters(run: seq<State>, a: nat, b: nat, t: nat, u: nat)
    requires IsRun(run) && a <= b < |run| && t < |run[a].pcs| && u < |run[b].pcs|
    requires run[a].pcs[t].ReadWait? && run[b].pcs[u].Writing?
    requires run[b].pcs[u].ticket > run[a].pcs[t].phase
    ensures run[a].pcs[t].n < |run[b].done| && run[b].done[run[a].pcs[t].n]
  {
    hide PhaseBits;
    hide WriterBits;
    var pc, s := run[a].pcs[t], run[b];
    ReachableInv(run, a);
    ReachableInv(run, b);
    assert ReaderInv(run[a], t);
    StaysArrived(run, a, b, t, pc.n, pc.w, pc.phase);
    assert ReaderInv(s, t) && WriterInv(s, u);
  }

  /** The write phase a reader waits for is the one it arrived in: once that is over, the next load
      of rin lets the reader in, whether or not another writer has announced itself. */
  lemma OnePhaseOnly(run: seq<State>, i: nat, t: nat, s': State)
    requires IsRun(run) && i < |run| && t < |run[i].pcs| && run[i].pcs[t].ReadWait?
    requires run[i].pcs[t].phase < run[i].wout || run[i].cleared
    requires ReadSpin(run[i], s', t)
    ensures s'.pcs[t] == Reading(run[i].pcs[t].n)
  {
    hide PhaseBits;
    hide WriterBits;
    ReachableInv(run, i);
    BitsOfRin(run[i]);
    PhasesAlternate(run[i].pcs[t].phase);
    assert ReaderInv(run[i], t);
  }

  /** Thread t is not where it may stay as long as it likes, and its next step takes it further. */
  ghost predicate CanMove(s: State, t: nat) {
    && t < |s.pcs| && !s.pcs[t].Idle? && !s.pcs[t].Reading? && !s.pcs[t].Writing?
    && exists s' :: Step(s, s', t) && s' != s
  }

  lemma ReaderCanMove(s: State, t: nat)
    requires Inv(s) && t < |s.pcs| && s.pcs[t].ReadWait? && WriterBits(s.rin) != s.pcs[t].w
    ensures CanMove(s, t)
  {
    hide PhaseBits;
    hide WriterBits;
    var s' := Go(s, t, Reading(s.pcs[t].n));
    assert s'.pcs[t] != s.pcs[t];
    assert Step(s, s', t);
  }

  lemma WriterCanMove(s: State, t: nat)
    requires Inv(s) && t < |s.pcs| && IsWriter(s.pcs[t]) && s.pcs[t].ticket == s.wout && !s.pcs[t].Writing?
    requires s.pcs[t].WriteFlush? ==> s.rout == s.pcs[t].seen
    ensures CanMove(s, t)
  {
    hide PhaseBits;
    hide WriterBits;
    var pc := s.pcs[t];
    var k := pc.ticket;
    var s' :=
      if pc.WriteWait? then Go(s, t, WriteReady(k))
      else if pc.WriteReady? then
        Go(s, t, WriteFlush(k, s.rin)).(rin := s.rin + PhaseBits(k), announced := true, counted := |s.done|)
      else if pc.WriteFlush? then Go(s, t, Writing(k, pc.seen))
      else Go(s, t, Idle).(wout := s.wout + 1, cleared := false);
    assert s'.pcs[t] != pc;
    assert Step(s, s', t);
  }

  lemma FirstLeft(done: seq<bool>, k: nat)
    requires k <= |done|
    requires (forall n | 0 <= n < k :: done[n]) && (forall n | k <= n < |done| :: !done[n])
    ensures Count(done) == k
    decreases |done|
  {
    if done != [] {
      var last := |done| - 1;
      FirstLeft(done[..last], if k == |done| then last else k);
    }
  }

  /** No deadlock: if somebody waits and nobody is in the critical section, somebody can move on. */
  lemma SomebodyCanMove(run: seq<State>, i: nat, t: nat)
    requires IsRun(run) && i < |run| && t < |run[i].pcs| && !run[i].pcs[t].Idle?
    requires forall u | 0 <= u < |run[i].pcs| :: !run[i].pcs[u].Reading? && !run[i].pcs[u].Writing?
    ensures exists u: nat :: CanMove(run[i], u)
  {
    hide PhaseBits;
    hide WriterBits;
    var s := run[i];
    ReachableInv(run, i);
    BitsOfRin(s);
    assert ReaderInv(s, t) && WriterInv(s, t);
    if s.wout == s.win {
      ReaderCanMove(s, t);
    } else {
      var h := s.holder[s.wout];
      assert WriterInv(s, h);
      if s.pcs[h].WriteFlush? && s.rout != s.pcs[h].seen {
        if forall n | 0 <= n < s.counted :: s.done[n] {
          FirstLeft(s.done, s.counted);
          assert false;
        }
        var n: nat :| n < s.counted && !s.done[n];
        assert ReaderInv(s, s.owner[n]);
        PhasesAlternate(s.pcs[s.owner[n]].phase);
        ReaderCanMove(s, s.owner[n]);
      } else {
        WriterCanMove(s, h);
      }
    }
  }
}
