/** The dissemination barrier lets everybody through: every step that is no spin takes a thread one place further,
    and somebody who is furthest behind can always take one. */
module DisseminationProgress {
  import opened Bits
  import opened Dissemination

  /** How far a thread is in its episode, of which 2 size + 2 steps take it through. */
  function Stage(size: nat, pc: Pc): nat {
    match pc
    case Outside => 0
    case Storing(k) => 2 * k + 1
    case Waiting(k) => 2 * k + 2
    case Leaving => 2 * size + 1
  }

  function Place(size: nat, th: Thread): nat {
    th.done * (2 * size + 2) + Stage(size, th.pc)
  }

  /** A step is a spin or takes its thread exactly one place further: no round is made twice or left out. */
  lemma StepGoesOn(s: State, s': State, t: nat)
    requires Inv(s) && Step(s, s', t)
    ensures s'.size == s.size && |s'.threads| == |s.threads| && t < |s.threads|
    ensures forall u: nat | u < |s.threads| && u != t :: s'.threads[u] == s.threads[u]
    ensures s' == s || Place(s.size, s'.threads[t]) == Place(s.size, s.threads[t]) + 1
  {
    hide Heard;
    hide FlagInv;
    hide Place;
    hide Shape;
    assert ThreadInv(s, t);
    hide Inv;
    PlaceOfNext(s.size, s.threads[t], s'.threads[t]);
  }

  lemma PlaceOfNext(size: nat, th: Thread, th': Thread)
    requires th.pc.Storing? || th.pc.Waiting? ==> th.pc.round < size
    ensures th'.done == th.done && Stage(size, th'.pc) == Stage(size, th.pc) + 1 ==>
              Place(size, th') == Place(size, th) + 1
    ensures th'.done == th.done + 1 && th'.pc.Outside? && th.pc.Leaving? ==> Place(size, th') == Place(size, th) + 1
  {
    assert (th.done + 1) * (2 * size + 2) == th.done * (2 * size + 2) + (2 * size + 2);
  }

  lemma CanEnter(s: State, t: nat)
    requires t < |s.threads| && s.threads[t].pc.Outside?
    ensures exists s' :: Step(s, s', t) && s' != s
  {
    var s' := s.(threads := s.threads[t := s.threads[t].(pc := StartRound(s.size, 0))]);
    assert s'.threads[t].pc != s.threads[t].pc;
    assert Enter(s, s', t) && Step(s, s', t);
  }

  lemma CanObserve(s: State, t: nat)
    requires t < |s.threads| && s.threads[t].pc.Waiting?
    requires var f := Flag(t, s.threads[t].parity, s.threads[t].pc.round);
             f in s.flags && s.flags[f] == s.threads[t].sense
    ensures exists s' :: Step(s, s', t) && s' != s
  {
    var s' := s.(threads := s.threads[t := s.threads[t].(pc := StartRound(s.size, s.threads[t].pc.round + 1))]);
    assert s'.threads[t].pc != s.threads[t].pc;
    assert Observe(s, s', t) && Step(s, s', t);
  }

  predicate IsSlowest(s: State, u: nat) {
    u < |s.threads| && forall v | 0 <= v < |s.threads| :: s.threads[u].done <= s.threads[v].done
  }

  /** If the furthest thread behind waits in vain, then for one that is about to store, or has yet to enter. */
  lemma WhoHoldsUp(s: State, m: nat) returns (from: nat)
    requires Inv(s) && m < |s.threads| && s.threads[m].pc.Waiting?
    requires forall u | 0 <= u < |s.threads| :: Before(s, s.threads[m], s.threads[u])
    ensures var f := Flag(m, s.threads[m].parity, s.threads[m].pc.round);
            && f in s.flags
            && (s.flags[f] != s.threads[m].sense ==>
                  && from < |s.threads| && s.threads[from].done == s.threads[m].done
                  && (s.threads[from].pc.Storing? || s.threads[from].pc.Outside?))
  {
    assert ThreadInv(s, m);
    FlagTellsEpisode(s, m);
    hide Inv;
    from := Back(|s.threads|, m, Pow2(s.threads[m].pc.round));
    assert Before(s, s.threads[m], s.threads[from]);
  }

  lemma FurthestIsSlowest(s: State) returns (m: nat)
    requires 0 < |s.threads|
    ensures IsSlowest(s, m) && forall u | 0 <= u < |s.threads| :: Before(s, s.threads[m], s.threads[u])
  {
    m := FurthestBehind(s, |s.threads|);
    forall v | 0 <= v < |s.threads| ensures s.threads[m].done <= s.threads[v].done {
      assert Before(s, s.threads[m], s.threads[v]);
    }
  }

  /** Somebody with the fewest episodes behind him can go on. */
  lemma SlowestCanMove(s: State) returns (u: nat)
    requires Inv(s)
    ensures IsSlowest(s, u) && exists s' :: Step(s, s', u) && s' != s
  {
    assert Shape(s);
    hide Inv;
    hide Step;
    hide Before;
    u := FurthestIsSlowest(s);
    if s.threads[u].pc.Outside? {
      CanEnter(s, u);
    } else if !s.threads[u].pc.Waiting? {
      CanAct(s, u);
    } else {
      var from := WhoHoldsUp(s, u);
      if s.flags[Flag(u, s.threads[u].parity, s.threads[u].pc.round)] == s.threads[u].sense {
        CanObserve(s, u);
      } else {
        u := from;
        if s.threads[u].pc.Storing? { CanAct(s, u); } else { CanEnter(s, u); }
      }
    }
  }

  // ----- everybody gets through

  /** What the first n threads lack to place `goal`. */
  function Lacking(s: State, n: nat, goal: nat): nat
    requires n <= |s.threads|
  {
    if n == 0 then 0
    else Lacking(s, n - 1, goal)
         + (if Place(s.size, s.threads[n - 1]) < goal then goal - Place(s.size, s.threads[n - 1]) else 0)
  }

  lemma {:induction false} LessLacking(s: State, s': State, u: nat, n: nat, goal: nat)
    requires n <= |s.threads| == |s'.threads| && s'.size == s.size && u < |s.threads|
    requires forall v: nat | v < |s.threads| && v != u :: s'.threads[v] == s.threads[v]
    requires Place(s.size, s'.threads[u]) == Place(s.size, s.threads[u]) + 1 <= goal
    ensures Lacking(s', n, goal) == Lacking(s, n, goal) - if u < n then 1 else 0
  {
    hide Place;
    if n > 0 { LessLacking(s, s', u, n - 1, goal); }
  }

  lemma Extended(run: seq<State>, s': State, t: nat)
    requires IsRun(run) && Step(run[|run| - 1], s', t)
    ensures IsRun(run + [s'])
  {
    hide Step;
    hide Init;
    var longer := run + [s'];
    forall i: nat | i + 1 < |longer| ensures StepAt(longer, i) {
      if i + 1 < |run| { assert StepAt(run, i); }
    }
  }

  /** Thread t has left fewer episodes. */
  predicate IsBehind(s: State, t: nat, episodes: nat) {
    t < |s.threads| && s.threads[t].done < episodes
  }

  ghost predicate AllHaveLeft(s: State, episodes: nat) {
    forall t: nat :: !IsBehind(s, t, episodes)
  }

  lemma GoOn(run: seq<State>, s: State, t: nat, episodes: nat) returns (s': State)
    requires IsRun(run) && s == run[|run| - 1] && IsBehind(s, t, episodes)
    ensures IsRun(run + [s']) && s'.size == s.size && |s'.threads| == |s.threads|
    ensures var goal := episodes * (2 * s.size + 2);
            Lacking(s', |s'.threads|, goal) < Lacking(s, |s.threads|, goal)
  {
    ReachableInv(run, |run| - 1);
    hide IsRun;
    var u := SlowestCanMove(s);
    assert ThreadInv(s, u);
    hide Inv;
    hide Step;
    s' :| Step(s, s', u) && s' != s;
    StepGoesOn(s, s', u);
    BelowGoal(s.size, s.threads[u], episodes);
    LessLacking(s, s', u, |s.threads|, episodes * (2 * s.size + 2));
    Extended(run, s', u);
  }

  /** Every run can go on until every thread has left any given number of episodes. */
  lemma EverybodyLeaves(run: seq<State>, episodes: nat) returns (longer: seq<State>)
    requires IsRun(run)
    ensures run <= longer && IsRun(longer)
    ensures AllHaveLeft(longer[|longer| - 1], episodes)
  {
    assert |run| > 0;
    hide IsRun;
    hide Lacking;
    longer := run;
    var s := run[|run| - 1];
    var goal := episodes * (2 * s.size + 2);
    while !AllHaveLeft(s, episodes)
      invariant 0 < |run| && run <= longer && IsRun(longer) && s == longer[|longer| - 1]
      invariant goal == episodes * (2 * s.size + 2)
      decreases Lacking(s, |s.threads|, goal)
    {
      var t: nat :| IsBehind(s, t, episodes);
      var s' := GoOn(longer, s, t, episodes);
      longer, s := longer + [s'], s';
    }
  }

  lemma BelowGoal(size: nat, th: Thread, episodes: nat)
    requires th.done < episodes
    requires th.pc.Storing? || th.pc.Waiting? ==> th.pc.round < size
    ensures Place(size, th) + 1 <= episodes * (2 * size + 2)
  {
    var m := episodes - th.done - 1;
    assert episodes * (2 * size + 2) == th.done * (2 * size + 2) + (2 * size + 2) + m * (2 * size + 2);
    assert 0 <= m * (2 * size + 2);
  }
}
