/** What an enqueue and a dequeue of ck_ring.h come to when nobody interferes, in whatever state the others are. */
module RingProgress {
  import opened Bits
  import opened Ring

  /** Consecutive steps of thread t in its operation. */
  ghost predicate IsPath(path: seq<State>, t: nat) {
    |path| > 0 && forall i | 0 <= i < |path| - 1 :: Moves(path[i], path[i + 1], t)
  }

  ghost predicate Moves(s: State, s': State, t: nat) {
    EnqStep(s, s', t) || DeqStep(s, s', t)
  }

  ghost function End(path: seq<State>): State
    requires |path| > 0
  {
    path[|path| - 1]
  }

  lemma Path3(a: State, b: State, c: State, d: State, t: nat)
    requires Moves(a, b, t) && Moves(b, c, t) && Moves(c, d, t)
    ensures IsPath([a, b, c, d], t)
  {
    hide Moves;
  }

  lemma Joined(p: seq<State>, q: seq<State>, t: nat)
    requires IsPath(p, t) && IsPath(q, t) && End(p) == q[0]
    ensures IsPath(p + q[1..], t) && (p + q[1..])[0] == p[0] && End(p + q[1..]) == End(q)
  {
    hide Moves;
    var r := p + q[1..];
    forall i | 0 <= i < |r| - 1 ensures Moves(r[i], r[i + 1], t) {
      if i >= |p| - 1 { assert Moves(q[i - |p| + 1], q[i - |p| + 2], t); }
    }
  }

  predicate IsFull(s: State) {
    s.pHead == s.cHead + s.size - 1
  }

  // ----- enqueue

  /** On a full ring the call returns false and leaves everything as it is. */
  lemma EnqueueFails(run: seq<State>, i: nat, t: nat, v: Value) returns (path: seq<State>)
    requires IsRun(run) && i < |run| && t < |run[i].pcs| && run[i].pcs[t] == EnqStart(v) && IsFull(run[i])
    ensures IsPath(path, t) && path[0] == run[i] && End(path) == Go(run[i], t, EnqDone(false))
  {
    ReachableInv(run, i);
    var s := run[i];
    hide IsRun;
    var a, b := Go(s, t, EnqHead(v, s.pHead)), Go(s, t, EnqSlow(v, s.pHead, s.cHead, s.pHead));
    var c := Go(s, t, EnqDone(false));
    assert b == Go(a, t, b.pcs[t]) && c == Go(b, t, c.pcs[t]);
    assert EnqLoadHead(s, a, t) && EnqLoadConsumer(a, b, t) && EnqRecheck(b, c, t);
    Path3(s, a, b, c, t);
    path := [s, a, b, c];
  }

  /** The value has the next ticket. */
  ghost predicate Ticketed(s: State, s': State, t: nat, v: Value) {
    && t < |s.pcs| && s'.size == s.size && s'.cHead == s.cHead && s'.pTail == s.pTail && s'.pHead == s.pHead + 1
    && s'.vals == s.vals + [v] && s'.pcs == s.pcs[t := EnqWrite(v, s.pHead)] && s'.out == s.out && s'.slots == s.slots
    && s'.owner == s.owner + [t]
  }

  lemma Reserve(s: State, t: nat, v: Value) returns (path: seq<State>)
    requires Inv(s) && t < |s.pcs| && s.pcs[t] == EnqStart(v) && !IsFull(s)
    ensures IsPath(path, t) && path[0] == s && Ticketed(s, End(path), t, v) && Inv(End(path))
  {
    var a, b := Go(s, t, EnqHead(v, s.pHead)), Go(s, t, EnqCas(v, s.pHead, s.cHead));
    var c := Go(s, t, EnqWrite(v, s.pHead)).(pHead := s.pHead + 1, vals := s.vals + [v], owner := s.owner + [t]);
    assert b == Go(a, t, b.pcs[t]) && c.pcs == b.pcs[t := c.pcs[t]];
    assert EnqLoadHead(s, a, t) && EnqLoadConsumer(a, b, t) && EnqReserve(b, c, t);
    hide Inv;
    Path3(s, a, b, c, t);
    path := [s, a, b, c];
    StepKeeps(s, a, t);
    StepKeeps(a, b, t);
    StepKeeps(b, c, t);
  }

  lemma Stores(s: State, t: nat, v: Value, k: nat) returns (s': State)
    requires Inv(s) && t < |s.pcs| && s.pcs[t] == EnqWrite(v, k)
    ensures Moves(s, s', t) && s' == Go(s, t, EnqWait(v, k)).(slots := s'.slots) && Inv(s')
  {
    SlotInRange(s, k);
    s' := Go(s, t, EnqWait(v, k)).(slots := s.slots[Slot(s, k) := v]);
    assert EnqStore(s, s', t);
    StepKeeps(s, s', t);
  }

  lemma Commits(s: State, t: nat, v: Value, k: nat) returns (path: seq<State>)
    requires Inv(s) && t < |s.pcs| && s.pcs[t] == EnqWait(v, k) && s.pTail == k
    ensures IsPath(path, t) && path[0] == s && End(path) == Go(s, t, EnqDone(true)).(pTail := k + 1)
  {
    var a := Go(s, t, EnqCommit(v, k));
    var b := Go(s, t, EnqDone(true)).(pTail := k + 1);
    assert a.pcs[t := EnqDone(true)] == b.pcs;
    assert EnqLoadTail(s, a, t) && EnqStoreTail(a, b, t);
    path := [s, a, b];
  }

  /** With room in the ring the value gets the next ticket. If nobody has a ticket still to be committed, the call
      returns true and the value is last in the queue; otherwise it waits for the others behind its stored value. */
  lemma EnqueueSucceeds(run: seq<State>, i: nat, t: nat, v: Value) returns (path: seq<State>)
    requires IsRun(run) && i < |run| && t < |run[i].pcs| && run[i].pcs[t] == EnqStart(v) && !IsFull(run[i])
    ensures IsPath(path, t) && path[0] == run[i]
    ensures var s, s' := run[i], End(path);
            && s.cHead <= s.pTail <= |s.vals| && s'.vals == s.vals + [v] && s'.pHead == s.pHead + 1
            && s'.cHead == s.cHead && s'.out == s.out
            && if s.pTail == s.pHead then s'.pTail == s'.pHead && s'.pcs == s.pcs[t := EnqDone(true)]
                                          && Queue(s') == Queue(s) + [v]
               else s'.pTail == s.pTail && s'.pcs == s.pcs[t := EnqWait(v, s.pHead)]
  {
    ReachableInv(run, i);
    var s := run[i];
    hide IsRun;
    path := Reserve(s, t, v);
    var a := End(path);
    assert Counters(s);
    hide Inv;
    hide Moves;
    var b := Stores(a, t, v, s.pHead);
    Joined(path, [a, b], t);
    path := path + [a, b][1..];
    assert a.pcs[t := EnqWait(v, s.pHead)] == s.pcs[t := EnqWait(v, s.pHead)];
    if s.pTail == s.pHead {
      var q := Commits(b, t, v, s.pHead);
      Joined(path, q, t);
      path := path + q[1..];
      assert End(path).pcs == s.pcs[t := EnqDone(true)];
    }
  }

  // ----- dequeue

  /** A dequeue fails exactly on the empty ring, and takes the oldest value otherwise. */
  lemma DequeueAlone(run: seq<State>, i: nat, t: nat, once: bool) returns (path: seq<State>)
    requires IsRun(run) && i < |run| && t < |run[i].pcs| && run[i].pcs[t] == DeqStart(once)
    ensures IsPath(path, t) && path[0] == run[i]
    ensures var s, s' := run[i], End(path);
            && s.cHead <= s.pTail <= |s.vals| && s'.cHead <= s'.pTail <= |s'.vals|
            && if Queue(s) == [] then s' == Go(s, t, DeqDone(false, s.cHead, 0))
               else s'.pcs == s.pcs[t := DeqDone(true, s.cHead, Queue(s)[0])] && Queue(s') == Queue(s)[1..]
                    && s'.pHead == s.pHead && s'.out == s.out + [Queue(s)[0]]
  {
    ReachableInv(run, i);
    var s := run[i];
    hide IsRun;
    var a := Go(s, t, DeqHead(once, s.cHead));
    assert DeqLoadHead(s, a, t);
    if s.cHead == s.pTail {
      var b := Go(s, t, DeqDone(false, s.cHead, 0));
      assert b == Go(a, t, b.pcs[t]);
      assert DeqLoadTail(a, b, t);
      path := [s, a, b];
    } else {
      path := TakesOldest(s, a, t, once);
    }
  }

  lemma TakesOldest(s: State, a: State, t: nat, once: bool) returns (path: seq<State>)
    requires Inv(s) && t < |s.pcs| && s.pcs[t] == DeqStart(once) && s.cHead < s.pTail
    requires a == Go(s, t, DeqHead(once, s.cHead)) && Moves(s, a, t)
    ensures IsPath(path, t) && path[0] == s
    ensures var s' := End(path);
            && s'.pcs == s.pcs[t := DeqDone(true, s.cHead, Queue(s)[0])] && s'.cHead == s.cHead + 1
            && s'.pTail == s.pTail && s'.pHead == s.pHead && s'.vals == s.vals && s'.out == s.out + [Queue(s)[0]]
            && Queue(s') == Queue(s)[1..]
  {
    SlotInRange(s, s.cHead);
    assert SlotInv(s, s.cHead);
    var v := s.slots[Slot(s, s.cHead)];
    assert v == Queue(s)[0];
    var b, c := Go(s, t, DeqRead(once, s.cHead)), Go(s, t, DeqCas(once, s.cHead, v));
    var d := Go(s, t, DeqDone(true, s.cHead, v)).(cHead := s.cHead + 1, out := s.out + [v]);
    assert b == Go(a, t, b.pcs[t]) && c == Go(b, t, c.pcs[t]) && d.pcs == c.pcs[t := d.pcs[t]];
    hide Inv;
    assert DeqLoadTail(a, b, t) && DeqLoadSlot(b, c, t) && DeqTake(c, d, t);
    Path3(a, b, c, d, t);
    Joined([s, a], [a, b, c, d], t);
    path := [s, a] + [a, b, c, d][1..];
    assert Queue(d) == Queue(s)[1..];
  }

  // ----- retries

  lemma Extended(path: seq<State>, t: nat, s': State)
    requires IsPath(path, t) && Moves(End(path), s', t)
    ensures IsPath(path + [s'], t) && End(path + [s']) == s' && (path + [s'])[0] == path[0]
  {
    hide Moves;
    var longer := path + [s'];
    forall i | 0 <= i < |longer| - 1 ensures Moves(longer[i], longer[i + 1], t) {
      if i < |path| - 1 { assert Moves(path[i], path[i + 1], t); }
    }
  }

  /** Steps left at most until an undisturbed enqueue has a ticket or has failed, wherever in its loop it is. */
  function EnqLeft(s: State, pc: Pc): nat {
    match pc
    case EnqStart(_) => 3
    case EnqHead(_, p) => if p == s.pHead then 2 else 4
    case EnqCas(_, p, _) => if p == s.pHead then 1 else 3
    case EnqSlow(_, p, _, _) => if p == s.pHead then 1 else 3
    case _ => 0
  }

  /** The next step of an enqueue that is still trying. */
  function Tries(s: State, t: nat): State
    requires t < |s.pcs| && Trying(s.pcs[t])
  {
    var pc := s.pcs[t];
    match pc
    case EnqStart(v) => Go(s, t, EnqHead(v, s.pHead))
    case EnqHead(v, p) => Go(s, t, if s.cHead <= p && p - s.cHead < s.size - 1 then EnqCas(v, p, s.cHead)
                                   else EnqSlow(v, p, s.cHead, s.pHead))
    case EnqCas(v, p, _) =>
      if s.pHead == p then Go(s, t, EnqWrite(v, p)).(pHead := p + 1, vals := s.vals + [v], owner := s.owner + [t])
      else Go(s, t, EnqHead(v, s.pHead))
    case EnqSlow(v, p, _, _) => Go(s, t, if p == s.pHead then EnqDone(false) else EnqHead(v, s.pHead))
  }

  lemma TryGoesOn(s: State, t: nat)
    requires Inv(s) && t < |s.pcs| && Trying(s.pcs[t])
    ensures var s' := Tries(s, t);
            && Moves(s, s', t) && Inv(s') && |s'.pcs| == |s.pcs|
            && if Trying(s'.pcs[t]) then s'.pcs[t].v == s.pcs[t].v && s' == Go(s, t, s'.pcs[t])
                                         && EnqLeft(s', s'.pcs[t]) < EnqLeft(s, s.pcs[t])
               else s' == Go(s, t, EnqDone(false)) || Ticketed(s, s', t, s.pcs[t].v)
  {
    var s' := Tries(s, t);
    assert PcInv(s, t);
    assert EnqLoadHead(s, s', t) || EnqLoadConsumer(s, s', t) || EnqReserve(s, s', t) || EnqRecheck(s, s', t);
    hide Inv;
    StepKeeps(s, s', t);
  }

  /** An enqueue that has begun in whatever way, and with whatever stale counters, has failed or has the next ticket for
      its value after four more steps of its own at most. */
  lemma EnqueueStopsTrying(run: seq<State>, i: nat, t: nat) returns (path: seq<State>)
    requires IsRun(run) && i < |run| && t < |run[i].pcs| && Trying(run[i].pcs[t])
    ensures IsPath(path, t) && path[0] == run[i] && |path| <= 5
    ensures var s, s' := run[i], End(path);
            s' == Go(s, t, EnqDone(false)) || Ticketed(s, s', t, s.pcs[t].v)
  {
    ReachableInv(run, i);
    hide IsRun;
    hide Inv;
    hide Moves;
    hide EnqLeft;
    var s0, s, v := run[i], run[i], run[i].pcs[t].v;
    assert Go(s0, t, s0.pcs[t]) == s0;
    path := [s];
    while Trying(s.pcs[t])
      invariant IsPath(path, t) && path[0] == s0 && End(path) == s && Inv(s) && t < |s.pcs|
      invariant Trying(s.pcs[t]) ==> s.pcs[t].v == v && s == Go(s0, t, s.pcs[t])
      invariant !Trying(s.pcs[t]) ==> s == Go(s0, t, EnqDone(false)) || Ticketed(s0, s, t, v)
      invariant |path| + (if Trying(s.pcs[t]) then EnqLeft(s, s.pcs[t]) else 0) <= 5
      decreases if Trying(s.pcs[t]) then 1 + EnqLeft(s, s.pcs[t]) else 0
    {
      TryGoesOn(s, t);
      var s' := Tries(s, t);
      hide Tries;
      GoneTwice(s0, s, s', t);
      Extended(path, t, s');
      path, s := path + [s'], s';
    }
  }

  lemma GoneTwice(s0: State, s: State, s': State, t: nat)
    requires t < |s0.pcs| && s == Go(s0, t, if t < |s.pcs| then s.pcs[t] else Idle)
    ensures t < |s'.pcs| && s' == Go(s, t, s'.pcs[t]) ==> s' == Go(s0, t, s'.pcs[t])
    ensures s' == Go(s, t, EnqDone(false)) ==> s' == Go(s0, t, EnqDone(false))
    ensures forall v :: Ticketed(s, s', t, v) ==> Ticketed(s0, s', t, v)
  {}

  function DeqLeft(s: State, pc: Pc): nat {
    match pc
    case DeqStart(_) => 4
    case DeqHead(_, c) => if c == s.cHead then 3 else 6
    case DeqRead(_, c) => if c == s.cHead then 2 else 5
    case DeqCas(_, c, _) => if c == s.cHead then 1 else 4
    case _ => 0
  }

  predicate Taking(pc: Pc) {
    pc.DeqStart? || pc.DeqHead? || pc.DeqRead? || pc.DeqCas?
  }

  function TakesOn(s: State, t: nat): State
    requires t < |s.pcs| && Taking(s.pcs[t]) && 0 < s.size
    requires s.pcs[t].DeqRead? ==> Slot(s, s.pcs[t].consumer) < |s.slots|
  {
    var pc := s.pcs[t];
    match pc
    case DeqStart(once) => Go(s, t, DeqHead(once, s.cHead))
    case DeqHead(once, c) => Go(s, t, if c == s.pTail then DeqDone(false, c, 0) else DeqRead(once, c))
    case DeqRead(once, c) => Go(s, t, DeqCas(once, c, s.slots[Slot(s, c)]))
    case DeqCas(once, c, v) =>
      if s.cHead == c then Go(s, t, DeqDone(true, c, v)).(cHead := c + 1, out := s.out + [v])
      else if once then Go(s, t, DeqDone(false, c, 0))
      else Go(s, t, DeqHead(false, s.cHead))
  }

  /** The dequeue of thread t is over, and has taken the front of the queue of s if it has taken anything. */
  ghost predicate DequeueIsOver(s: State, s': State, t: nat) {
    && s.cHead <= s.pTail <= |s.vals| && s'.cHead <= s'.pTail <= |s'.vals| && t < |s'.pcs| && s'.pcs[t].DeqDone?
    && if s'.pcs[t].ok then Queue(s) == [s'.pcs[t].v] + Queue(s') else Queue(s') == Queue(s)
  }

  lemma TakeGoesOn(s: State, t: nat)
    requires Inv(s) && t < |s.pcs| && Taking(s.pcs[t])
    ensures 0 < s.size && (s.pcs[t].DeqRead? ==> Slot(s, s.pcs[t].consumer) < |s.slots|)
    ensures var s' := TakesOn(s, t);
            && Moves(s, s', t) && Inv(s') && |s'.pcs| == |s.pcs|
            && if Taking(s'.pcs[t]) then s' == Go(s, t, s'.pcs[t]) && DeqLeft(s', s'.pcs[t]) < DeqLeft(s, s.pcs[t])
               else DequeueIsOver(s, s', t)
  {
    assert PcInv(s, t);
    if s.pcs[t].DeqRead? { SlotInRange(s, s.pcs[t].consumer); }
    var s' := TakesOn(s, t);
    assert DeqLoadHead(s, s', t) || DeqLoadTail(s, s', t) || DeqLoadSlot(s, s', t) || DeqTake(s, s', t);
    if s.pcs[t].DeqCas? && s.cHead == s.pcs[t].consumer {
      assert Queue(s) == [s.pcs[t].v] + Queue(s');
    }
    hide Inv;
    StepKeeps(s, s', t);
  }

  /** A dequeue that has begun in whatever way is over after six more steps of its own at most. */
  lemma DequeueEnds(run: seq<State>, i: nat, t: nat) returns (path: seq<State>)
    requires IsRun(run) && i < |run| && t < |run[i].pcs| && Taking(run[i].pcs[t])
    ensures IsPath(path, t) && path[0] == run[i] && |path| <= 7 && DequeueIsOver(run[i], End(path), t)
  {
    ReachableInv(run, i);
    hide IsRun;
    hide Inv;
    hide Moves;
    hide DeqLeft;
    hide DequeueIsOver;
    var s0, s := run[i], run[i];
    assert Go(s0, t, s0.pcs[t]) == s0;
    path := [s];
    while Taking(s.pcs[t])
      invariant IsPath(path, t) && path[0] == s0 && End(path) == s && Inv(s) && t < |s.pcs|
      invariant if Taking(s.pcs[t]) then s == Go(s0, t, s.pcs[t]) else DequeueIsOver(s0, s, t)
      invariant |path| + (if Taking(s.pcs[t]) then DeqLeft(s, s.pcs[t]) else 0) <= 7
      decreases if Taking(s.pcs[t]) then 1 + DeqLeft(s, s.pcs[t]) else 0
    {
      TakeGoesOn(s, t);
      var s' := TakesOn(s, t);
      hide TakesOn;
      GoneTwice(s0, s, s', t);
      SameQueue(s0, s, s', t);
      Extended(path, t, s');
      path, s := path + [s'], s';
    }
  }

  lemma SameQueue(s0: State, s: State, s': State, t: nat)
    requires t < |s0.pcs| && s == Go(s0, t, if t < |s.pcs| then s.pcs[t] else Idle)
    ensures DequeueIsOver(s, s', t) ==> DequeueIsOver(s0, s', t)
  {}
}
