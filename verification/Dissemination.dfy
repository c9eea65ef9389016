/** The dissemination barrier of ck_barrier_dissemination.c: any number of threads, any number of
    episodes, one shared flag store or load per step. */
module Dissemination {
  import opened Bits
  import Internal

  /** A flag word: which thread spins on it, in which of the two sets, in which round. */
  datatype Flag = Flag(owner: nat, parity: nat, round: nat)

  datatype Pc = Outside | Storing(round: nat) | Waiting(round: nat) | Leaving

  /** `ck_barrier_dissemination_state`, plus `done`, the number of episodes the thread has left. */
  datatype Thread = Thread(parity: nat, sense: bool, pc: Pc, done: nat)

  /** `size` is the number of rounds; `flags[f]` holds the all-ones word when true. */
  datatype State = State(size: nat, threads: seq<Thread>, flags: map<Flag, bool>)

  /** The thread signalled by i in round k. */
  function Partner(n: nat, i: nat, k: nat): nat
    requires 0 < n
  {
    (i + Pow2(k)) % n
  }

  /** The right `size`: the least k with 2^k >= n. */
  ghost predicate Rounds(n: nat, size: nat) {
    n <= Pow2(size) && (size > 0 ==> Pow2(size - 1) < n)
  }

  ghost predicate ValidFlag(n: nat, size: nat, f: Flag) {
    f.owner < n && f.parity < 2 && f.round < size
  }

  ghost predicate Shape(s: State) {
    && 0 < |s.threads| && Rounds(|s.threads|, s.size)
    && (forall f :: f in s.flags <==> ValidFlag(|s.threads|, s.size, f))
  }

  /** After init every flag is zero; after subscribe every thread has parity 0 and sense ~0. */
  ghost predicate Init(s: State) {
    && Shape(s)
    && (forall f | f in s.flags :: !s.flags[f])
    && (forall t | 0 <= t < |s.threads| :: s.threads[t] == Thread(0, true, Outside, 0))
  }

  function StartRound(size: nat, k: nat): Pc {
    if k < size then Storing(k) else Leaving
  }

  ghost predicate Enter(s: State, s': State, t: nat) {
    && t < |s.threads| && s.threads[t].pc.Outside?
    && s' == s.(threads := s.threads[t := s.threads[t].(pc := StartRound(s.size, 0))])
  }

  ghost predicate Store(s: State, s': State, t: nat) {
    && t < |s.threads| && s.threads[t].pc.Storing?
    && var th := s.threads[t];
       var f := Flag(Partner(|s.threads|, t, th.pc.round), th.parity, th.pc.round);
       s' == s.(threads := s.threads[t := th.(pc := Waiting(th.pc.round))], flags := s.flags[f := th.sense])
  }

  /** The load of the spin loop; it only moves on when the flag has the thread's sense. */
  ghost predicate Observe(s: State, s': State, t: nat) {
    && t < |s.threads| && s.threads[t].pc.Waiting?
    && var th := s.threads[t];
       var f := Flag(t, th.parity, th.pc.round);
       && f in s.flags
       && s' == if s.flags[f] == th.sense
                then s.(threads := s.threads[t := th.(pc := StartRound(s.size, th.pc.round + 1))]) else s
  }

  ghost predicate Leave(s: State, s': State, t: nat) {
    && t < |s.threads| && s.threads[t].pc.Leaving? && s.threads[t].parity < 2
    && var th := s.threads[t];
       s' == s.(threads := s.threads[t := Thread(1 - th.parity,
                                                 if th.parity == 1 then !th.sense else th.sense,
                                                 Outside, th.done + 1)])
  }

  ghost predicate Step(s: State, s': State, t: nat) {
    Enter(s, s', t) || Store(s, s', t) || Observe(s, s', t) || Leave(s, s', t)
  }

  ghost predicate Next(s: State, s': State) {
    exists t :: Step(s, s', t)
  }

  ghost predicate StepAt(run: seq<State>, i: nat)
    requires i + 1 < |run|
  {
    Next(run[i], run[i + 1])
  }

  ghost predicate IsRun(run: seq<State>) {
    |run| > 0 && Init(run[0]) && forall i: nat | i + 1 < |run| :: StepAt(run, i)
  }

  /** Episodes the thread has entered. */
  function Entered(th: Thread): nat {
    th.done + if th.pc.Outside? then 0 else 1
  }

  // ----- the ring

  /** The thread m places before t. */
  function Back(n: nat, t: nat, m: nat): nat
    requires t < n && m < n
  {
    if m <= t then t - m else t + n - m
  }

  lemma PartnerOfBack(n: nat, t: nat, k: nat)
    requires t < n && Pow2(k) < n
    ensures Partner(n, Back(n, t, Pow2(k)), k) == t
    ensures forall i | 0 <= i < n && Partner(n, i, k) == t :: i == Back(n, t, Pow2(k))
  {
    forall i: nat | i < n
      ensures Partner(n, i, k) == if i + Pow2(k) < n then i + Pow2(k) else i + Pow2(k) - n
    {
      PartnerWraps(n, i, Pow2(k));
    }
  }

  lemma PartnerWraps(n: nat, i: nat, d: nat)
    requires i < n && d < n
    ensures (i + d) % n == if i + d < n then i + d else i + d - n
  {
    if i + d >= n { ModUnique(i + d, n, 1, i + d - n); } else { ModUnique(i + d, n, 0, i + d); }
  }

  lemma RoundsBelow(n: nat, size: nat, k: nat)
    requires Rounds(n, size) && k < size
    ensures Pow2(k) < n
  {
    Pow2Mono(k, size - 1);
  }

  // ----- the invariant

  /** The sense used in episode e: two episodes all-ones, two episodes zero, and so on. */
  function SenseOf(e: int): bool
    requires -2 <= e
  {
    ((e + 4) / 2) % 2 == 0
  }

  /** What a thread does to its sense and parity when it leaves. */
  lemma SenseAlternates(e: nat)
    ensures (e + 1) % 2 == 1 - e % 2
    ensures SenseOf(e + 1) == if e % 2 == 1 then !SenseOf(e) else SenseOf(e)
  {}

  /** Rounds of the current episode whose flag the thread has stored. */
  function Stores(size: nat, pc: Pc): nat {
    match pc
    case Outside => 0
    case Storing(k) => k
    case Waiting(k) => k + 1
    case Leaving => size
  }

  /** Rounds of the current episode that the thread has completed. */
  function Passes(size: nat, pc: Pc): nat {
    match pc
    case Outside => 0
    case Storing(k) => k
    case Waiting(k) => k
    case Leaving => size
  }

  /** The last episode in which the thread stored its flag of set `parity` and round k. */
  function LastStore(size: nat, th: Thread, parity: nat, k: nat): int
    requires parity < 2
    ensures -2 <= LastStore(size, th, parity, k) && LastStore(size, th, parity, k) % 2 == parity
  {
    var top: int := if k < Stores(size, th.pc) then th.done else th.done - 1;
    if top % 2 == parity then top else top - 1
  }

  ghost predicate ThreadInv(s: State, t: nat)
    requires t < |s.threads|
  {
    var th := s.threads[t];
    && th.parity == th.done % 2
    && th.sense == SenseOf(th.done)
    && (th.pc.Storing? || th.pc.Waiting? ==> th.pc.round < s.size)
  }

  /** Every flag holds the sense of the last episode in which its writer stored it. */
  ghost predicate FlagInv(s: State, i: nat, parity: nat, k: nat)
    requires Shape(s) && i < |s.threads| && parity < 2 && k < s.size
  {
    var f := Flag(Partner(|s.threads|, i, k), parity, k);
    f in s.flags && s.flags[f] == SenseOf(LastStore(s.size, s.threads[i], parity, k))
  }

  /** The 2^rounds threads before t, itself included, or all of them if fewer, have entered t's episode. */
  ghost predicate Heard(s: State, t: nat, rounds: nat)
    requires t < |s.threads|
  {
    forall m | 0 <= m < Pow2(rounds) && m < |s.threads| ::
      Entered(s.threads[Back(|s.threads|, t, m)]) > s.threads[t].done
  }

  /** No thread has left an episode that another has not entered. */
  ghost predicate Together(s: State) {
    forall t, u | 0 <= t < |s.threads| && 0 <= u < |s.threads| :: s.threads[t].done <= Entered(s.threads[u])
  }

  ghost predicate Inv(s: State) {
    && Shape(s)
    && (forall t: nat | t < |s.threads| :: ThreadInv(s, t))
    && (forall i: nat, p: nat, k: nat | i < |s.threads| && p < 2 && k < s.size :: FlagInv(s, i, p, k))
    && Together(s)
    && (forall t: nat | t < |s.threads| && !s.threads[t].pc.Outside? :: Heard(s, t, Passes(s.size, s.threads[t].pc)))
  }

  lemma InitHolds(s: State)
    requires Init(s)
    ensures Inv(s)
  {
    forall i: nat, p: nat, k: nat | i < |s.threads| && p < 2 && k < s.size ensures FlagInv(s, i, p, k) {
      assert ValidFlag(|s.threads|, s.size, Flag(Partner(|s.threads|, i, k), p, k));
    }
  }

  /** Entered counts only grow, so what was heard stays heard. */
  lemma HeardStays(s: State, s': State, t: nat, rounds: nat)
    requires |s'.threads| == |s.threads| && t < |s.threads| && Heard(s, t, rounds)
    requires s'.threads[t].done == s.threads[t].done
    requires forall u | 0 <= u < |s.threads| :: Entered(s.threads[u]) <= Entered(s'.threads[u])
    ensures Heard(s', t, rounds)
  {
    forall m | 0 <= m < Pow2(rounds) && m < |s.threads|
      ensures Entered(s'.threads[Back(|s.threads|, t, m)]) > s.threads[t].done
    {
      assert Entered(s.threads[Back(|s.threads|, t, m)]) > s.threads[t].done;
    }
  }

  lemma EnterKeeps(s: State, s': State, t: nat)
    requires Inv(s) && Enter(s, s', t)
    ensures Inv(s')
  {
    forall u: nat | u < |s'.threads| ensures ThreadInv(s', u) { assert ThreadInv(s, u); }
    forall i: nat, p: nat, k: nat | i < |s'.threads| && p < 2 && k < s'.size ensures FlagInv(s', i, p, k) {
      assert FlagInv(s, i, p, k);
    }
    forall u: nat | u < |s'.threads| && !s'.threads[u].pc.Outside?
      ensures Heard(s', u, Passes(s'.size, s'.threads[u].pc))
    {
      if u == t {
        assert Pow2(0) == 1;
        if s.size == 0 { assert |s.threads| == 1; }
      } else {
        HeardStays(s, s', u, Passes(s.size, s.threads[u].pc));
      }
    }
  }

  lemma StoreKeeps(s: State, s': State, t: nat)
    requires Inv(s) && Store(s, s', t)
    ensures Inv(s')
  {
    hide Heard;
    var n, th := |s.threads|, s.threads[t];
    assert ThreadInv(s, t);
    var r := th.pc.round;
    var f := Flag(Partner(n, t, r), th.parity, r);
    assert FlagInv(s, t, th.parity, r);
    forall u: nat | u < n ensures ThreadInv(s', u) { assert ThreadInv(s, u); }
    forall i: nat, p: nat, k: nat | i < n && p < 2 && k < s.size ensures FlagInv(s', i, p, k) {
      assert FlagInv(s, i, p, k);
      if Flag(Partner(n, i, k), p, k) == f {
        RoundsBelow(n, s.size, k);
        PartnerOfBack(n, Partner(n, t, k), k);
        assert i == t;
      }
    }
    forall u: nat | u < n && !s'.threads[u].pc.Outside?
      ensures Heard(s', u, Passes(s'.size, s'.threads[u].pc))
    {
      HeardStays(s, s', u, Passes(s.size, s.threads[u].pc));
    }
  }

  /** Within an episode of each other, the sense of the last store tells whether it was in this one. */
  lemma SenseTellsEpisode(size: nat, from: Thread, done: nat, k: nat)
    requires done <= Entered(from) && from.done <= done + 1
    ensures var last := LastStore(size, from, done % 2, k);
            && (last == done || last == done - 2)
            && (SenseOf(last) == SenseOf(done) <==> last == done)
            && (last == done <==> from.done > done || (from.done == done && k < Stores(size, from.pc)))
  {
    hide Stores;
    SensesDiffer(done);
  }

  lemma SensesDiffer(e: nat)
    ensures SenseOf(e - 2) != SenseOf(e)
  {}

  /** The flag that t waits for turns to t's sense exactly when its writer has stored it in t's episode:
      the writer is never a whole round of senses ahead or behind. */
  lemma FlagTellsEpisode(s: State, t: nat)
    requires Inv(s) && t < |s.threads| && s.threads[t].pc.Waiting?
    ensures s.threads[t].pc.round < s.size && Pow2(s.threads[t].pc.round) < |s.threads|
    ensures var th := s.threads[t];
            var k := th.pc.round;
            var from := s.threads[Back(|s.threads|, t, Pow2(k))];
            var f := Flag(t, th.parity, k);
            && f in s.flags
            && (s.flags[f] == th.sense <==>
                  from.done > th.done || (from.done == th.done && k < Stores(s.size, from.pc)))
  {
    hide Heard;
    hide LastStore;
    hide SenseOf;
    hide Stores;
    var n, th := |s.threads|, s.threads[t];
    var k := th.pc.round;
    assert ThreadInv(s, t);
    RoundsBelow(n, s.size, k);
    PartnerOfBack(n, t, k);
    var i := Back(n, t, Pow2(k));
    assert FlagInv(s, i, th.parity, k);
    assert s.threads[i].done <= Entered(th) && th.done <= Entered(s.threads[i]);
    SenseTellsEpisode(s.size, s.threads[i], th.done, k);
  }

  /** One more round doubles the stretch of the ring that a thread has heard from. */
  lemma HearsTwice(s: State, t: nat)
    requires Inv(s) && t < |s.threads| && s.threads[t].pc.Waiting?
    requires var f := Flag(t, s.threads[t].parity, s.threads[t].pc.round);
             f in s.flags && s.flags[f] == s.threads[t].sense
    ensures Heard(s, t, s.threads[t].pc.round + 1)
  {
    FlagTellsEpisode(s, t);
    var n, th := |s.threads|, s.threads[t];
    var k := th.pc.round;
    var i := Back(n, t, Pow2(k));
    var from := s.threads[i];
    forall m | 0 <= m < Pow2(k + 1) && m < n ensures Entered(s.threads[Back(n, t, m)]) > th.done {
      if m >= Pow2(k) && from.done == th.done {
        assert Heard(s, i, Passes(s.size, from.pc));
        Pow2Mono(k, Passes(s.size, from.pc));
        assert Back(n, t, m) == Back(n, i, m - Pow2(k));
      }
    }
  }

  lemma ObserveKeeps(s: State, s': State, t: nat)
    requires Inv(s) && Observe(s, s', t)
    ensures Inv(s')
  {
    hide Heard;
    if s' != s {
      var k := s.threads[t].pc.round;
      assert ThreadInv(s, t);
      HearsTwice(s, t);
      forall u: nat | u < |s'.threads| ensures ThreadInv(s', u) { assert ThreadInv(s, u); }
      forall i: nat, p: nat, j: nat | i < |s'.threads| && p < 2 && j < s'.size ensures FlagInv(s', i, p, j) {
        assert FlagInv(s, i, p, j);
      }
      forall u: nat | u < |s'.threads| && !s'.threads[u].pc.Outside?
        ensures Heard(s', u, Passes(s'.size, s'.threads[u].pc))
      {
        HeardStays(s, s', u, if u == t then k + 1 else Passes(s.size, s.threads[u].pc));
      }
    }
  }

  /** After the last round the thread has heard from everybody. */
  lemma HeardAll(s: State, t: nat, u: nat)
    requires Inv(s) && t < |s.threads| && u < |s.threads| && s.threads[t].pc.Leaving?
    ensures Entered(s.threads[u]) > s.threads[t].done
  {
    var n := |s.threads|;
    assert Heard(s, t, s.size);
    var m := if u <= t then t - u else t + n - u;
    assert Back(n, t, m) == u;
  }

  lemma LeaveKeeps(s: State, s': State, t: nat)
    requires Inv(s) && Leave(s, s', t)
    ensures Inv(s')
  {
    assert ThreadInv(s, t);
    SenseAlternates(s.threads[t].done);
    forall u: nat | u < |s'.threads| ensures ThreadInv(s', u) { assert ThreadInv(s, u); }
    forall i: nat, p: nat, k: nat | i < |s'.threads| && p < 2 && k < s'.size ensures FlagInv(s', i, p, k) {
      assert FlagInv(s, i, p, k);
      assert LastStore(s.size, s'.threads[i], p, k) == LastStore(s.size, s.threads[i], p, k);
    }
    forall u | 0 <= u < |s.threads| ensures s.threads[t].done < Entered(s.threads[u]) { HeardAll(s, t, u); }
    forall u: nat | u < |s'.threads| && !s'.threads[u].pc.Outside?
      ensures Heard(s', u, Passes(s'.size, s'.threads[u].pc))
    {
      HeardStays(s, s', u, Passes(s.size, s.threads[u].pc));
    }
  }

  lemma NextKeeps(s: State, s': State)
    requires Inv(s) && Next(s, s')
    ensures Inv(s')
  {
    hide Inv;
    var t :| Step(s, s', t);
    if Enter(s, s', t) { EnterKeeps(s, s', t); }
    else if Store(s, s', t) { StoreKeeps(s, s', t); }
    else if Observe(s, s', t) { ObserveKeeps(s, s', t); }
    else { LeaveKeeps(s, s', t); }
  }

  lemma {:induction false} ReachableInv(run: seq<State>, i: nat)
    requires IsRun(run) && i < |run|
    ensures Inv(run[i])
  {
    hide Inv;
    hide Next;
    if i == 0 {
      InitHolds(run[0]);
    } else {
      ReachableInv(run, i - 1);
      assert StepAt(run, i - 1);
      NextKeeps(run[i - 1], run[i]);
    }
  }

  // ----- what the barrier promises

  /** No thread has left episode e before every thread has entered it, in any run. */
  lemma NobodyLeavesEarly(run: seq<State>, i: nat, t: nat, u: nat)
    requires IsRun(run) && i < |run| && t < |run[i].threads| && u < |run[i].threads|
    ensures run[i].threads[t].done <= Entered(run[i].threads[u])
  {
    ReachableInv(run, i);
  }

  /** A reader's flag never mixes up two uses of the same set: while t waits in an episode, the last
      store into its flag belongs to that episode, or to the previous use of the set. */
  lemma ParitySetsAreNotConfused(run: seq<State>, i: nat, t: nat)
    requires IsRun(run) && i < |run| && t < |run[i].threads| && run[i].threads[t].pc.Waiting?
    ensures var s := run[i];
            var th := s.threads[t];
            var k := th.pc.round;
            Pow2(k) < |s.threads| && th.parity < 2 &&
            var last := LastStore(s.size, s.threads[Back(|s.threads|, t, Pow2(k))], th.parity, k);
            last == th.done || last == th.done - 2
  {
    ReachableInv(run, i);
    var s := run[i];
    var th := s.threads[t];
    var k := th.pc.round;
    assert ThreadInv(s, t);
    RoundsBelow(|s.threads|, s.size, k);
    var from := s.threads[Back(|s.threads|, t, Pow2(k))];
    assert from.done <= Entered(th) && th.done <= Entered(from);
  }

  /** What a thread has learned when it goes on to round r: the 2^r threads up to itself on the ring
      (all of them, if there are fewer) have entered its episode. */
  lemma KnowledgeDoubles(run: seq<State>, i: nat, t: nat, m: nat)
    requires IsRun(run) && i < |run| && t < |run[i].threads| && run[i].threads[t].pc.Storing?
    requires m < |run[i].threads| && m < Pow2(run[i].threads[t].pc.round)
    ensures run[i].threads[t].done < Entered(run[i].threads[Back(|run[i].threads|, t, m)])
  {
    ReachableInv(run, i);
    assert Heard(run[i], t, run[i].threads[t].pc.round);
  }

  // ----- nobody waits forever

  ghost predicate Before(s: State, a: Thread, b: Thread) {
    a.done < b.done || (a.done == b.done && Passes(s.size, a.pc) <= Passes(s.size, b.pc))
  }

  lemma {:induction false} FurthestBehind(s: State, n: nat) returns (m: nat)
    requires 0 < n <= |s.threads|
    ensures m < n && forall u | 0 <= u < n :: Before(s, s.threads[m], s.threads[u])
  {
    m := 0;
    if n > 1 {
      m := FurthestBehind(s, n - 1);
      if !Before(s, s.threads[m], s.threads[n - 1]) { m := n - 1; }
    }
  }

  /** A thread that stores or leaves never has to wait. */
  lemma CanAct(s: State, t: nat)
    requires Inv(s) && t < |s.threads| && (s.threads[t].pc.Storing? || s.threads[t].pc.Leaving?)
    ensures exists s' :: Step(s, s', t) && s' != s
  {
    var n, th := |s.threads|, s.threads[t];
    assert ThreadInv(s, t);
    var s';
    if th.pc.Storing? {
      s' := s.(threads := s.threads[t := th.(pc := Waiting(th.pc.round))],
               flags := s.flags[Flag(Partner(n, t, th.pc.round), th.parity, th.pc.round) := th.sense]);
      assert Store(s, s', t);
    } else {
      s' := s.(threads := s.threads[t := Thread(1 - th.parity, if th.parity == 1 then !th.sense else th.sense,
                                                Outside, th.done + 1)]);
      assert Leave(s, s', t);
    }
    assert s'.threads[t].pc != th.pc;
    assert Step(s, s', t) && s' != s;
  }

  /** While a thread is inside and everybody outside is ahead of it, some thread has a step to take
      that is not a spin: the barrier cannot deadlock. */
  lemma SomeoneCanMove(run: seq<State>, i: nat, t: nat)
    requires IsRun(run) && i < |run| && t < |run[i].threads| && !run[i].threads[t].pc.Outside?
    requires forall u | 0 <= u < |run[i].threads| && run[i].threads[u].pc.Outside? ::
               run[i].threads[t].done < run[i].threads[u].done
    ensures exists u: nat, s' :: Step(run[i], s', u) && s' != run[i]
  {
    ReachableInv(run, i);
    var s := run[i];
    var m := FurthestBehind(s, |s.threads|);
    var th := s.threads[m];
    assert Before(s, th, s.threads[t]) && ThreadInv(s, m);
    if !th.pc.Waiting? {
      CanAct(s, m);
    } else {
      FlagTellsEpisode(s, m);
      var from := Back(|s.threads|, m, Pow2(th.pc.round));
      assert Before(s, th, s.threads[from]);
      if s.threads[from].pc.Storing? {
        CanAct(s, from);
      } else {
        var s' := s.(threads := s.threads[m := th.(pc := StartRound(s.size, th.pc.round + 1))]);
        assert s'.threads[m].pc != th.pc;
        assert Observe(s, s', m);
        assert Step(s, s', m) && s' != s;
      }
    }
  }

  // ----- initialization

  /** The partner of i at distance `offset`, with the shortcut taken when nthr is a power of two. */
  lemma PartnerByMask(nthr: nat, i: nat, offset: nat)
    requires 0 < nthr && And(nthr, nthr - 1) == 0
    ensures And(i + offset, nthr - 1) == (i + offset) % nthr
  {
    hide And;
    hide Pow2;
    AndPred(nthr);
    var k: nat :| nthr == Pow2(k);
    AndMask(i + offset, k);
  }

  /** The number of rounds that the source computes in 32 bits, of which its callers allocate flags. */
  function Size(nthr: nat): nat
    requires nthr < Internal.WORDS
  {
    Internal.Log(Internal.Power2(nthr))
  }

  /** It is the right one for up to 2^31 threads. Beyond that the power of two wraps to 0, and there are no
      rounds. */
  lemma SizeIsRounds(nthr: nat)
    requires 0 < nthr < Internal.WORDS
    ensures Rounds(nthr, Size(nthr)) <==> nthr <= Pow2(31)
  {
    Internal.Power2IsCeiling(nthr);
    if nthr <= Pow2(31) {
      Internal.LogOfPower2(nthr);
    } else {
      Internal.AndZero(0xAAAAAAAA);
      Internal.AndZero(0xFFFF0000);
      Internal.AndZero(0xFF00FF00);
      Internal.AndZero(0xF0F0F0F0);
      Internal.AndZero(0xCCCCCCCC);
      assert Size(nthr) == 0 && Pow2(0) == 1;
    }
  }

  /** The wiring loops of ck_barrier_dissemination_init: `pflag[i, p, k]` is the thread whose flag (p, k) thread i
      stores, `tflag` are the flags themselves. */
  method Wire(nthr: nat, size: nat, pflag: array3<nat>, tflag: array3<bool>)
    requires 0 < nthr && pflag.Length0 == tflag.Length0 == nthr
    requires pflag.Length1 == tflag.Length1 == 2 && pflag.Length2 == tflag.Length2 == size
    modifies pflag, tflag
    ensures forall i, p, k | 0 <= i < nthr && 0 <= p < 2 && 0 <= k < size ::
              pflag[i, p, k] == Partner(nthr, i, k) && !tflag[i, p, k]
  {
    var powerOfTwo := And(nthr, nthr - 1) == 0;
    for i := 0 to nthr
      invariant forall j, p, k | 0 <= j < i && 0 <= p < 2 && 0 <= k < size ::
                  pflag[j, p, k] == Partner(nthr, j, k) && !tflag[j, p, k]
    {
      var offset := 1;
      for k := 0 to size
        invariant offset == Pow2(k)
        invariant forall j, p, r | 0 <= j < i && 0 <= p < 2 && 0 <= r < size ::
                    pflag[j, p, r] == Partner(nthr, j, r) && !tflag[j, p, r]
        invariant forall p, r | 0 <= p < 2 && 0 <= r < k :: pflag[i, p, r] == Partner(nthr, i, r) && !tflag[i, p, r]
      {
        var j;
        if powerOfTwo {
          PartnerByMask(nthr, i, offset);
          j := And(i + offset, nthr - 1);
        } else {
          j := (i + offset) % nthr;
        }
        pflag[i, 0, k] := j;
        pflag[i, 1, k] := j;
        tflag[i, 0, k] := false;
        tflag[i, 1, k] := false;
        offset := 2 * offset;
      }
    }
  }

  /** `ck_barrier_dissemination_init`. */
  method InitBarrier(nthr: nat, pflag: array3<nat>, tflag: array3<bool>) returns (size: nat)
    requires 0 < nthr < Internal.WORDS && pflag.Length0 == tflag.Length0 == nthr
    requires pflag.Length1 == tflag.Length1 == 2 && pflag.Length2 == tflag.Length2 == Size(nthr)
    modifies pflag, tflag
    ensures size == pflag.Length2 && (nthr <= Pow2(31) ==> Rounds(nthr, size))
    ensures forall i, p, k | 0 <= i < nthr && 0 <= p < 2 && 0 <= k < size ::
              pflag[i, p, k] == Partner(nthr, i, k) && !tflag[i, p, k]
  {
    hide Partner;
    hide Pow2;
    hide Internal.Log;
    hide Internal.Power2;
    size := Size(nthr);
    SizeIsRounds(nthr);
    Wire(nthr, size, pflag, tflag);
  }
}
