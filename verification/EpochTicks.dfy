/** Epoch reclamation with readers about: a poll that finds every active record in the current epoch moves the
    epoch on and runs what was deferred two epochs ago, so that three such polls run everything. */
module EpochTicks {
  import opened Epoch
  import opened EpochInvariant
  import opened EpochSteps
  import opened EpochProgress
  import EpochSafety

  // ----- a poll with readers in the current epoch

  predicate IsActive(recs: seq<Record>, u: nat) {
    u < |recs| && recs[u].active > 0
  }

  /** Somebody is active, every active record announces the global epoch, and thread t is idle. */
  ghost predicate Observed(s: State, t: nat) {
    && Live(s, t) && s.pcs[t] == Idle && |s.recs[t].pending| == LISTS
    && (exists u: nat :: IsActive(s.recs, u)) && AllIn(s.recs, s.global)
  }

  /** The lists of the epochs g - 1 and g - 2. */
  predicate IsDue(k: nat, g: nat) {
    k == (g + LISTS - 1) % LISTS || k == (g + LISTS - 2) % LISTS
  }

  /** What a poll has done: the global epoch is one further, the callbacks of the two epochs before the old one
      may run, and nothing else has changed. */
  ghost predicate Ticked(s: State, s': State, t: nat) {
    && |s'.recs| == |s.recs| == |s'.pcs| == |s.pcs| && t < |s.recs| && s'.sections == s.sections
    && s'.global == s.global + 1 && s'.pcs == s.pcs && s'.objs.Keys == s.objs.Keys
    && (forall u: nat | u < |s.recs| && u != t :: s'.recs[u] == s.recs[u])
    && s'.recs[t] == s.recs[t].(pending := s'.recs[t].pending) && |s.recs[t].pending| == |s'.recs[t].pending| == LISTS
    && (forall k: nat | k < LISTS :: s'.recs[t].pending[k] == if IsDue(k, s.global) then [] else s.recs[t].pending[k])
    && (forall o | o in s.objs ::
          s'.objs[o] == if exists k: nat :: k < LISTS && IsDue(k, s.global) && o in s.recs[t].pending[k]
                        then Done(s.objs[o].guards) else s.objs[o])
  }

  /** The effect of dispatching list k. */
  ghost function Dispatched(s: State, t: nat, k: nat, pc: Pc): State
    requires t < |s.recs| == |s.pcs| && k < |s.recs[t].pending| == LISTS
  {
    var r := s.recs[t];
    Put(s, t, r.(pending := r.pending[k := []]), pc)
      .(objs := map o | o in s.objs :: if o in r.pending[k] then Done(s.objs[o].guards) else s.objs[o])
  }

  /** Some record above `at` is active. */
  ghost predicate ActiveAbove(recs: seq<Record>, at: int) {
    exists u: nat :: u > at && IsActive(recs, u)
  }

  /** How far a scan can have come when every active record is in epoch `delta`. */
  ghost predicate OnTheWay(recs: seq<Record>, w: Walk, op: Op, delta: nat, open: set<SectionId>) {
    && w.op == op && w.delta == delta && w.open == open && -1 <= w.at < |recs|
    && match w.look
       case LookHead => w.at == -1 && !w.af
       case LookState => w.af == ActiveAbove(recs, w.at)
       case LookActive => w.at >= 0 && w.af == ActiveAbove(recs, w.at)
       case LookEpoch => w.at >= 0 && w.af && IsActive(recs, w.at)
  }

  /** The next stage of such a scan. */
  function Further(recs: seq<Record>, w: Walk): Walk
    requires -1 <= w.at < |recs| && (w.look == LookHead || w.at >= 0)
  {
    match w.look
    case LookHead => w.(at := |recs| - 1, look := LookState)
    case LookState => if !recs[w.at].used then w.(at := w.at - 1) else w.(look := LookActive)
    case LookActive => if recs[w.at].active == 0 then w.(at := w.at - 1, look := LookState)
                       else w.(look := LookEpoch, af := true)
    case LookEpoch => w.(at := w.at - 1, look := LookState)
  }

  ghost predicate AllIn(recs: seq<Record>, delta: nat) {
    forall u: nat | IsActive(recs, u) :: recs[u].used && recs[u].epoch == delta
  }

  lemma AboveStep(recs: seq<Record>, at: int)
    requires 0 <= at < |recs|
    ensures ActiveAbove(recs, at - 1) <==> ActiveAbove(recs, at) || IsActive(recs, at)
    ensures !ActiveAbove(recs, |recs| - 1)
  {}

  ghost predicate ActiveAreUsed(recs: seq<Record>) {
    forall u: nat | IsActive(recs, u) :: recs[u].used
  }

  lemma FurtherOnTheWay(recs: seq<Record>, w: Walk, op: Op, delta: nat, open: set<SectionId>)
    requires OnTheWay(recs, w, op, delta, open) && ActiveAreUsed(recs) && (w.look == LookHead || w.at >= 0)
    ensures OnTheWay(recs, Further(recs, w), op, delta, open)
  {
    if w.look != LookHead { AboveStep(recs, w.at); }
    hide ActiveAbove;
    if |recs| > 0 { AboveStep(recs, |recs| - 1); }
    if w.look == LookHead && |recs| == 0 { NobodyThere(recs); }
  }

  lemma NobodyThere(recs: seq<Record>)
    requires |recs| == 0
    ensures !ActiveAbove(recs, -1)
  {}

  /** The record under the cursor is active in another epoch. */
  predicate IsHeldUp(recs: seq<Record>, w: Walk) {
    0 <= w.at < |recs| && w.look == LookEpoch && recs[w.at].epoch != w.delta
  }

  /** A thread whose scan is under way has just one step to take. */
  lemma ScanMoves(s: State, t: nat, w: Walk, op: Op, delta: nat, open: set<SectionId>)
    requires Live(s, t) && s.pcs[t] == Scan(w) && OnTheWay(s.recs, w, op, delta, open)
    requires (w.look == LookHead || w.at >= 0) && !IsHeldUp(s.recs, w)
    ensures ScanStep(s, Go(s, t, Scan(Further(s.recs, w))), t)
    ensures forall s' | Step(s, s', t) :: s' == Go(s, t, Scan(Further(s.recs, w)))
  {
    var next := Go(s, t, Scan(Further(s.recs, w)));
    hide ActiveAbove;
    assert ScanHead(s, next, t) || ScanState(s, next, t) || ScanActive(s, next, t) || ScanEpoch(s, next, t);
    forall s' | Step(s, s', t) ensures s' == next {
      OnlyScans(s, s', t);
    }
  }

  lemma OnlyScans(s: State, s': State, t: nat)
    requires Live(s, t) && s.pcs[t].Scan? && Step(s, s', t)
    ensures ScanHead(s, s', t) || ScanState(s, s', t) || ScanActive(s, s', t) || ScanEpoch(s, s', t)
         || ScanDone(s, s', t)
  {}

  // ----- the stages of the poll

  /** The list of epoch - 2 has been dispatched. */
  ghost function Popped(s: State, t: nat, pc: Pc): State
    requires t < |s.recs| == |s.pcs| && |s.recs[t].pending| == LISTS
  {
    Dispatched(s, t, (s.global + LISTS - 2) % LISTS, pc)
  }

  /** The epoch has been moved on as well, and the list of epoch - 1 dispatched. */
  ghost function Polled(s: State, t: nat): State
    requires t < |s.recs| == |s.pcs| && |s.recs[t].pending| == LISTS
  {
    Dispatched(Popped(s, t, Idle).(global := s.global + 1), t, (s.global + LISTS - 1) % LISTS, Idle)
  }

  ghost predicate InScan(s0: State, s: State, t: nat)
    requires t < |s0.recs| == |s0.pcs| && |s0.recs[t].pending| == LISTS
  {
    && t < |s.pcs| && s.pcs[t].Scan? && s == Popped(s0, t, s.pcs[t])
    && OnTheWay(s.recs, s.pcs[t].walk, Poll(s0.global), s0.global, AllOpen(s0))
  }

  /** What an undisturbed poll that began in s0 goes through. */
  ghost predicate InPoll(s0: State, s: State, t: nat)
    requires t < |s0.recs| == |s0.pcs| && |s0.recs[t].pending| == LISTS
  {
    var g, open := s0.global, AllOpen(s0);
    || s == Go(s0, t, PollPop(g, open))
    || InScan(s0, s, t)
    || s == Popped(s0, t, Advance(Poll(g), g, open))
    || s == Popped(s0, t, PollLast(g, open)).(global := g + 1)
  }

  /** How many steps are left at most. */
  function StepsLeft(s: State, t: nat): nat
    requires t < |s.pcs|
  {
    match s.pcs[t]
    case PollPop(_, _) => 3 * |s.recs| + 5
    case Scan(w) =>
      if w.look == LookHead then 3 * |s.recs| + 4
      else if w.at < 0 then 3
      else 3 * w.at + 6 - (if w.look == LookActive then 1 else if w.look == LookEpoch then 2 else 0)
    case Advance(_, _, _) => 2
    case PollLast(_, _) => 1
    case _ => 0
  }

  /** s' is where the one possible step of thread t leads. */
  ghost predicate OnlyStep(s: State, s': State, t: nat) {
    Step(s, s', t) && forall s'' | Step(s, s'', t) :: s'' == s'
  }

  lemma PopMoves(s0: State, s: State, t: nat)
    requires Observed(s0, t) && s == Go(s0, t, PollPop(s0.global, AllOpen(s0)))
    ensures var s' := Popped(s0, t, NewScan(Poll(s0.global), s0.global, AllOpen(s0)));
            OnlyStep(s, s', t) && InScan(s0, s', t) && |s'.recs| == |s.recs|
  {
    var s' := Popped(s0, t, NewScan(Poll(s0.global), s0.global, AllOpen(s0)));
    hide AllOpen;
    assert PollPops(s, s', t);
    assert DeferStep(s, s', t);
    forall s'' | Step(s, s'', t) ensures s'' == s' {
      assert PollPops(s, s'', t);
    }
  }

  lemma PoppedKeepsRecords(s0: State, s: State, t: nat)
    requires Observed(s0, t) && t < |s.pcs| && s == Popped(s0, t, s.pcs[t])
    ensures Live(s, t) && AllIn(s.recs, s0.global) && s.global == s0.global && |s.recs| == |s0.recs|
    ensures ActiveAbove(s.recs, -1)
  {
    forall u: nat ensures IsActive(s.recs, u) <==> IsActive(s0.recs, u) {}
    forall u: nat | IsActive(s.recs, u) ensures s.recs[u].used && s.recs[u].epoch == s0.global {
      assert IsActive(s0.recs, u);
    }
    var u: nat :| IsActive(s0.recs, u);
    assert IsActive(s.recs, u);
  }

  lemma ScanGoesOn(s0: State, s: State, t: nat)
    requires Observed(s0, t) && InScan(s0, s, t) && (s.pcs[t].walk.look == LookHead || s.pcs[t].walk.at >= 0)
    ensures var s' := Go(s, t, Scan(Further(s.recs, s.pcs[t].walk)));
            OnlyStep(s, s', t) && InScan(s0, s', t) && StepsLeft(s', t) < StepsLeft(s, t)
  {
    PoppedKeepsRecords(s0, s, t);
    hide Dispatched;
    hide AllOpen;
    hide ActiveAbove;
    var w, g := s.pcs[t].walk, s0.global;
    ScanMoves(s, t, w, Poll(g), g, AllOpen(s0));
    FurtherOnTheWay(s.recs, w, Poll(g), g, AllOpen(s0));
    PoppedElsewhere(s0, s.pcs[t], Scan(Further(s.recs, w)), t);
  }

  lemma PoppedElsewhere(s0: State, pc: Pc, pc': Pc, t: nat)
    requires t < |s0.recs| == |s0.pcs| && |s0.recs[t].pending| == LISTS
    ensures Popped(s0, t, pc').pcs == s0.pcs[t := pc'] && |Popped(s0, t, pc).pcs| == |s0.pcs|
    ensures Popped(s0, t, pc') == Go(Popped(s0, t, pc), t, pc')
  {
    assert s0.pcs[t := pc][t := pc'] == s0.pcs[t := pc'];
  }

  lemma ScanEnds(s0: State, s: State, t: nat)
    requires Observed(s0, t) && InScan(s0, s, t) && s.pcs[t].walk.look != LookHead && s.pcs[t].walk.at < 0
    ensures OnlyStep(s, Popped(s0, t, Advance(Poll(s0.global), s0.global, AllOpen(s0))), t)
  {
    PoppedKeepsRecords(s0, s, t);
    hide Dispatched;
    hide AllOpen;
    var s' := Popped(s0, t, Advance(Poll(s0.global), s0.global, AllOpen(s0)));
    PoppedElsewhere(s0, s.pcs[t], s'.pcs[t], t);
    hide ActiveAbove;
    assert ScanDone(s, s', t);
    forall s'' | Step(s, s'', t) ensures s'' == s' {
      OnlyScans(s, s'', t);
    }
  }

  lemma AdvanceMoves(s0: State, s: State, t: nat)
    requires Observed(s0, t) && s == Popped(s0, t, Advance(Poll(s0.global), s0.global, AllOpen(s0)))
    ensures var s' := Popped(s0, t, PollLast(s0.global, AllOpen(s0))).(global := s0.global + 1);
            OnlyStep(s, s', t)
  {
    PoppedKeepsRecords(s0, s, t);
    hide AllOpen;
    hide ActiveAbove;
    var s' := Popped(s0, t, PollLast(s0.global, AllOpen(s0))).(global := s0.global + 1);
    assert Advances(s, s', t);
    forall s'' | Step(s, s'', t) ensures s'' == s' {
      assert Advances(s, s'', t);
    }
  }

  lemma LastMoves(s0: State, s: State, t: nat)
    requires Observed(s0, t) && s == Popped(s0, t, PollLast(s0.global, AllOpen(s0))).(global := s0.global + 1)
    ensures OnlyStep(s, Polled(s0, t), t)
  {
    hide AllOpen;
    hide ActiveAbove;
    var s' := Polled(s0, t);
    assert PollLasts(s, s', t);
    assert DeferStep(s, s', t);
    forall s'' | Step(s, s'', t) ensures s'' == s' {
      assert PollLasts(s, s'', t);
    }
  }

  lemma AtIsInRange(s0: State, s: State, t: nat)
    requires t < |s0.recs| == |s0.pcs| && |s0.recs[t].pending| == LISTS && InScan(s0, s, t)
    ensures -1 <= s.pcs[t].walk.at < |s.recs|
  {}

  /** Every stage but the end has one next step, and leads closer to the end. */
  lemma PollMoves(s0: State, s: State, t: nat) returns (s': State)
    requires Observed(s0, t) && InPoll(s0, s, t)
    ensures t < |s.pcs| == |s'.pcs| && s.pcs[t] != Idle && OnlyStep(s, s', t)
    ensures s' == Polled(s0, t) || (InPoll(s0, s', t) && StepsLeft(s', t) < StepsLeft(s, t))
  {
    var g, open := s0.global, AllOpen(s0);
    hide OnlyStep;
    if InScan(s0, s, t) { AtIsInRange(s0, s, t); }
    hide OnTheWay;
    hide AllOpen;
    hide ActiveAbove;
    if s == Go(s0, t, PollPop(g, open)) {
      s' := Popped(s0, t, NewScan(Poll(g), g, open));
      PopMoves(s0, s, t);
    } else if s == Popped(s0, t, Advance(Poll(g), g, open)) {
      s' := Popped(s0, t, PollLast(g, open)).(global := g + 1);
      AdvanceMoves(s0, s, t);
    } else if s == Popped(s0, t, PollLast(g, open)).(global := g + 1) {
      s' := Polled(s0, t);
      LastMoves(s0, s, t);
    } else if s.pcs[t].walk.look == LookHead || s.pcs[t].walk.at >= 0 {
      s' := Go(s, t, Scan(Further(s.recs, s.pcs[t].walk)));
      ScanGoesOn(s0, s, t);
    } else {
      s' := Popped(s0, t, Advance(Poll(g), g, open));
      ScanEnds(s0, s, t);
      PoppedElsewhere(s0, s.pcs[t], s'.pcs[t], t);
    }
  }

  lemma PolledIsTicked(s0: State, t: nat)
    requires Observed(s0, t)
    ensures Ticked(s0, Polled(s0, t), t)
  {
    var g := s0.global;
    var j, k, r := (g + LISTS - 2) % LISTS, (g + LISTS - 1) % LISTS, s0.recs[t];
    assert j != k;
    assert IsDue(j, g) && IsDue(k, g);
    var s' := Polled(s0, t);
    forall o | o in s0.objs
      ensures s'.objs[o] == if exists i: nat :: i < LISTS && IsDue(i, g) && o in r.pending[i]
                            then Done(s0.objs[o].guards) else s0.objs[o]
    {}
    assert s'.pcs == s0.pcs;
  }

  // ----- whole polls

  /** Thread t polls from instant a to instant b, and nobody else takes a step. */
  ghost predicate UndisturbedPoll(run: seq<State>, a: nat, b: nat, t: nat) {
    && a + 1 < b < |run| && PollLoads(run[a], run[a + 1], t)
    && (forall i: nat | a <= i < b :: StepBy(run, i, t))
    && (forall i: nat | a < i < b :: t < |run[i].pcs| && run[i].pcs[t] != Idle)
    && t < |run[b].pcs| && run[b].pcs[t] == Idle
  }

  ghost predicate StepBy(run: seq<State>, i: nat, t: nat) {
    i + 1 < |run| && Step(run[i], run[i + 1], t)
  }

  lemma {:induction false} StagesOfPoll(run: seq<State>, a: nat, b: nat, i: nat, t: nat)
    requires UndisturbedPoll(run, a, b, t) && Observed(run[a], t) && a < i < b
    ensures InPoll(run[a], run[i], t)
    decreases i
  {
    hide InScan;
    hide Step;
    if i > a + 1 {
      StagesOfPoll(run, a, b, i - 1, t);
      assert StepBy(run, i - 1, t);
      var s' := PollMoves(run[a], run[i - 1], t);
      PolledIsTicked(run[a], t);
    }
  }

  /** A poll that nobody disturbs, in which every active record announces the global epoch at the beginning, moves the
      epoch on by one, and runs exactly the callbacks in the lists of the two epochs before. */
  lemma PollTicks(run: seq<State>, a: nat, b: nat, t: nat)
    requires UndisturbedPoll(run, a, b, t) && Observed(run[a], t)
    ensures Ticked(run[a], run[b], t)
  {
    hide Step;
    StagesOfPoll(run, a, b, b - 1, t);
    assert StepBy(run, b - 1, t);
    var s' := PollMoves(run[a], run[b - 1], t);
    PolledIsTicked(run[a], t);
    if run[b] != Polled(run[a], t) {
      hide InPoll;
      var s'' := PollMoves(run[a], run[b], t);
      assert false;
    }
  }

  lemma ObservedHasLists(run: seq<State>, i: nat, t: nat)
    requires IsRun(run) && i < |run| && Live(run[i], t) && run[i].pcs[t] == Idle
    requires exists u: nat :: IsActive(run[i].recs, u)
    requires forall u: nat | IsActive(run[i].recs, u) :: run[i].recs[u].epoch == run[i].global
    ensures Observed(run[i], t) && Inv(run[i])
  {
    hide Next;
    EpochSafety.ReachableInv(run, i);
    assert RecordInv(run[i], t);
    forall u: nat | IsActive(run[i].recs, u) ensures run[i].recs[u].used {
      assert RecordInv(run[i], u);
    }
  }

  /** From every reachable state in which somebody is active and every active record announces the global epoch, a poll
      can be made to its end, and does this. */
  lemma PollCanTick(run: seq<State>, i: nat, t: nat) returns (path: seq<State>)
    requires IsRun(run) && i < |run| && Live(run[i], t) && run[i].pcs[t] == Idle
    requires exists u: nat :: IsActive(run[i].recs, u)
    requires forall u: nat | IsActive(run[i].recs, u) :: run[i].recs[u].epoch == run[i].global
    ensures IsPath(path, t) && path[0] == run[i] && Ticked(run[i], End(path), t)
  {
    ObservedHasLists(run, i, t);
    hide IsRun;
    hide Inv;
    var s0 := run[i];
    var s := Go(s0, t, PollPop(s0.global, AllOpen(s0)));
    assert PollLoads(s0, s, t) && ScanStep(s0, s, t) && Step(s0, s, t);
    Extended([s0], t, s);
    path := [s0] + [s];
    hide Step;
    hide AllOpen;
    PolledIsTicked(s0, t);
    while s != Polled(s0, t)
      invariant IsPath(path, t) && path[0] == s0 && End(path) == s
      invariant s == Polled(s0, t) || InPoll(s0, s, t)
      decreases if s == Polled(s0, t) then 0 else 1, if t < |s.pcs| then StepsLeft(s, t) else 0
    {
      hide InPoll;
      hide Polled;
      var s' := PollMoves(s0, s, t);
      Extended(path, t, s');
      path, s := path + [s'], s';
    }
  }

  // ----- a poll that is held up

  /** The scan has not passed record u. */
  ghost predicate NotPast(s0: State, s: State, t: nat, u: nat)
    requires t < |s0.recs| == |s0.pcs| && |s0.recs[t].pending| == LISTS
  {
    && InScan(s0, s, t) && u < |s.recs|
    && var w := s.pcs[t].walk; w.look == LookHead || u <= w.at
  }

  lemma HeldUpSooner(s0: State, s: State, t: nat, u: nat)
    requires Live(s0, t) && |s0.recs[t].pending| == LISTS && NotPast(s0, s, t, u)
    requires IsActive(s.recs, u) && ActiveAreUsed(s.recs) && s.recs[u].epoch != s0.global
    requires !IsHeldUp(s.recs, s.pcs[t].walk)
    ensures -1 <= s.pcs[t].walk.at < |s.recs| && (s.pcs[t].walk.look == LookHead || s.pcs[t].walk.at >= 0)
    ensures var s' := Go(s, t, Scan(Further(s.recs, s.pcs[t].walk)));
            Step(s, s', t) && NotPast(s0, s', t, u) && StepsLeft(s', t) < StepsLeft(s, t)
  {
    var w, g := s.pcs[t].walk, s0.global;
    assert Live(s, t);
    hide Dispatched;
    hide AllOpen;
    hide ActiveAbove;
    ScanMoves(s, t, w, Poll(g), g, AllOpen(s0));
    FurtherOnTheWay(s.recs, w, Poll(g), g, AllOpen(s0));
    PoppedElsewhere(s0, s.pcs[t], Scan(Further(s.recs, w)), t);
  }

  lemma GivesUp(s0: State, s: State, t: nat)
    requires Live(s0, t) && |s0.recs[t].pending| == LISTS && InScan(s0, s, t) && IsHeldUp(s.recs, s.pcs[t].walk)
    ensures Step(s, Popped(s0, t, Idle), t)
  {
    hide AllOpen;
    hide ActiveAbove;
    PoppedElsewhere(s0, s.pcs[t], Idle, t);
    hide Popped;
    assert Live(s, t) by { assert s.recs == Popped(s0, t, s.pcs[t]).recs; PoppedIsLive(s0, t, s.pcs[t]); }
    assert ScanEpoch(s, Popped(s0, t, Idle), t) && ScanStep(s, Popped(s0, t, Idle), t);
  }

  lemma PoppedIsLive(s0: State, t: nat, pc: Pc)
    requires Live(s0, t) && |s0.recs[t].pending| == LISTS
    ensures Live(Popped(s0, t, pc), t)
  {}

  /** From every reachable state in which some active record announces an older epoch, an undisturbed poll runs the
      callbacks in the list of epoch - 2, gives up and changes nothing else. */
  lemma PollGivesUp(run: seq<State>, i: nat, t: nat, u: nat) returns (path: seq<State>)
    requires IsRun(run) && i < |run| && Live(run[i], t) && run[i].pcs[t] == Idle
    requires IsActive(run[i].recs, u) && run[i].recs[u].epoch != run[i].global
    ensures IsPath(path, t) && path[0] == run[i] && |run[i].recs[t].pending| == LISTS
    ensures var s, s' := run[i], End(path);
            && s'.global == s.global && s'.pcs == s.pcs && s'.sections == s.sections
            && (forall v: nat | v < |s.recs| && v != t :: v < |s'.recs| && s'.recs[v] == s.recs[v])
            && t < |s'.recs| == |s.recs|
            && s'.recs[t] == s.recs[t].(pending := s.recs[t].pending[(s.global + LISTS - 2) % LISTS := []])
            && s'.objs == map o | o in s.objs :: if o in s.recs[t].pending[(s.global + LISTS - 2) % LISTS]
                                                 then Done(s.objs[o].guards) else s.objs[o]
  {
    EpochSafety.ReachableInv(run, i);
    assert RecordInv(run[i], t);
    forall v: nat | IsActive(run[i].recs, v) ensures run[i].recs[v].used { assert RecordInv(run[i], v); }
    hide IsRun;
    hide Inv;
    var s0 := run[i];
    path := PollPopsFirst(s0, t);
    var s := End(path);
    PoppedRecords(s0, t, s.pcs[t]);
    while !IsHeldUp(s.recs, s.pcs[t].walk)
      invariant IsPath(path, t) && path[0] == s0 && End(path) == s && NotPast(s0, s, t, u)
      invariant IsActive(s.recs, u) && ActiveAreUsed(s.recs) && s.recs[u].epoch != s0.global
      decreases StepsLeft(s, t)
    {
      hide Step;
      HeldUpSooner(s0, s, t, u);
      var s' := Go(s, t, Scan(Further(s.recs, s.pcs[t].walk)));
      Extended(path, t, s');
      path, s := path + [s'], s';
    }
    GivesUp(s0, s, t);
    hide Step;
    Extended(path, t, Popped(s0, t, Idle));
    path := path + [Popped(s0, t, Idle)];
    assert s0.pcs[t := Idle] == s0.pcs;
  }

  lemma PoppedRecords(s0: State, t: nat, pc: Pc)
    requires Live(s0, t) && |s0.recs[t].pending| == LISTS
    ensures var s := Popped(s0, t, pc);
            && |s.recs| == |s0.recs|
            && forall u: nat | u < |s0.recs| ::
                 s.recs[u].active == s0.recs[u].active && s.recs[u].used == s0.recs[u].used
                 && s.recs[u].epoch == s0.recs[u].epoch
  {}

  lemma PollPopsFirst(s0: State, t: nat) returns (path: seq<State>)
    requires Live(s0, t) && s0.pcs[t] == Idle && |s0.recs[t].pending| == LISTS
    ensures IsPath(path, t) && path[0] == s0 && InScan(s0, End(path), t) && End(path).pcs[t].walk.look == LookHead
  {
    hide AllOpen;
    var a := Go(s0, t, PollPop(s0.global, AllOpen(s0)));
    var b := Popped(s0, t, NewScan(Poll(s0.global), s0.global, AllOpen(s0)));
    assert PollLoads(s0, a, t) && ScanStep(s0, a, t) && Step(s0, a, t);
    assert PollPops(a, b, t) && DeferStep(a, b, t) && Step(a, b, t);
    hide Step;
    Extended([s0], t, a);
    Extended([s0] + [a], t, b);
    path := [s0] + [a] + [b];
  }
}
