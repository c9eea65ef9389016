/** The phase-fair lock serves everybody: from every reachable state the threads that are in or wait can all get
    in and leave again. */
module PhaseFairProgress {
  import opened PhaseFair

  /** Steps that a thread has still to take until it is out again, spins not counted. */
  function Left(pc: Pc): nat {
    match pc
    case Idle => 0
    case ReadWait(_, _, _) => 2
    case Reading(_) => 1
    case WriteWait(_) => 5
    case WriteReady(_) => 4
    case WriteFlush(_, _) => 3
    case Writing(_, _) => 2
    case WriteLeave(_) => 1
  }

  /** Every step of a thread on its way is a spin, or takes it one place further and leaves the others where
      they are. */
  lemma StepGoesOn(s: State, s': State, t: nat)
    requires Step(s, s', t) && t < |s.pcs| && !s.pcs[t].Idle?
    ensures |s'.pcs| == |s.pcs| && forall u: nat | u < |s.pcs| && u != t :: s'.pcs[u] == s.pcs[u]
    ensures s' == s || Left(s'.pcs[t]) + 1 == Left(s.pcs[t])
  {
    hide PhaseBits;
    hide WriterBits;
  }

  ghost predicate CanGoOn(s: State, t: nat) {
    exists s' :: Step(s, s', t) && s' != s
  }

  /** A thread in the critical section can leave it. */
  lemma InsiderCanMove(s: State, t: nat)
    requires Inv(s) && t < |s.pcs| && (s.pcs[t].Reading? || s.pcs[t].Writing?)
    ensures CanGoOn(s, t)
  {
    hide PhaseBits;
    hide WriterBits;
    assert ReaderInv(s, t);
    var pc := s.pcs[t];
    var s' := if pc.Reading? then Go(s, t, Idle).(rout := s.rout + 0x100, done := s.done[pc.n := true])
              else Go(s, t, WriteLeave(pc.ticket)).(rin := s.rin - s.rin % 16, announced := false, cleared := true);
    assert s'.pcs[t] != pc;
    assert Step(s, s', t);
  }

  predicate IsInside(s: State, t: nat) {
    t < |s.pcs| && (s.pcs[t].Reading? || s.pcs[t].Writing?)
  }

  predicate IsBusy(s: State, t: nat) {
    t < |s.pcs| && !s.pcs[t].Idle?
  }

  ghost predicate AllOut(s: State) {
    forall t: nat :: !IsBusy(s, t)
  }

  /** Whoever is busy: somebody busy can go on. */
  lemma SomeBusyCanMove(run: seq<State>, t: nat) returns (u: nat)
    requires IsRun(run) && IsBusy(run[|run| - 1], t)
    ensures IsBusy(run[|run| - 1], u) && CanGoOn(run[|run| - 1], u)
  {
    hide Step;
    var s := run[|run| - 1];
    if w: nat :| IsInside(s, w) {
      ReachableInv(run, |run| - 1);
      u := w;
      InsiderCanMove(s, u);
    } else {
      forall w | 0 <= w < |s.pcs| ensures !s.pcs[w].Reading? && !s.pcs[w].Writing? {
        assert !IsInside(s, w);
      }
      SomebodyCanMove(run, |run| - 1, t);
      u :| CanMove(s, u);
    }
  }

  function AllLefts(pcs: seq<Pc>): nat {
    if pcs == [] then 0 else AllLefts(pcs[..|pcs| - 1]) + Left(pcs[|pcs| - 1])
  }

  lemma {:induction false} OneNearer(pcs: seq<Pc>, pcs': seq<Pc>, u: nat)
    requires |pcs| == |pcs'| && u < |pcs| && Left(pcs'[u]) + 1 == Left(pcs[u])
    requires forall v: nat | v < |pcs| && v != u :: pcs'[v] == pcs[v]
    ensures AllLefts(pcs') + 1 == AllLefts(pcs)
  {
    hide Left;
    var last := |pcs| - 1;
    if u < last {
      OneNearer(pcs[..last], pcs'[..last], u);
    } else {
      assert pcs[..last] == pcs'[..last];
    }
  }

  lemma Extended(run: seq<State>, s': State, t: nat)
    requires IsRun(run) && Step(run[|run| - 1], s', t)
    ensures IsRun(run + [s'])
  {
    hide Step;
    hide Init;
    var longer := run + [s'];
    forall i: nat | i + 1 < |longer| ensures StepAt(longer, i) {
      if i + 1 < |run| { assert StepAt(run, i); }
    }
  }

  lemma GoOn(run: seq<State>, t: nat) returns (s': State)
    requires IsRun(run) && IsBusy(run[|run| - 1], t)
    ensures IsRun(run + [s']) && AllLefts(s'.pcs) < AllLefts(run[|run| - 1].pcs)
    ensures |s'.pcs| == |run[|run| - 1].pcs|
  {
    var u := SomeBusyCanMove(run, t);
    var s := run[|run| - 1];
    hide Step;
    hide AllLefts;
    s' :| Step(s, s', u) && s' != s;
    StepGoesOn(s, s', u);
    OneNearer(s.pcs, s'.pcs, u);
    Extended(run, s', u);
  }

  /** Every run can go on, without new arrivals, until everybody is out. */
  lemma EverybodyIsServed(run: seq<State>) returns (longer: seq<State>)
    requires IsRun(run)
    ensures run <= longer && IsRun(longer) && AllOut(longer[|longer| - 1])
    ensures |longer| <= |run| + AllLefts(run[|run| - 1].pcs)
  {
    assert |run| > 0;
    hide IsRun;
    hide AllLefts;
    longer := run;
    var s := run[|run| - 1];
    while !AllOut(s)
      invariant 0 < |run| && run <= longer && IsRun(longer) && s == longer[|longer| - 1]
      invariant |longer| + AllLefts(s.pcs) <= |run| + AllLefts(run[|run| - 1].pcs)
      decreases AllLefts(s.pcs)
    {
      var t: nat :| IsBusy(s, t);
      s := GoOn(longer, t);
      longer := longer + [s];
    }
  }
}
