/** The multi-producer multi-consumer ring of ck_ring.h: one shared load, store or
    compare-and-swap per step, any number of threads, counters that do not wrap. */
module Ring {
  import opened Bits

  /** The contents of a slot, a pointer-sized word. */
  type Value = nat

  /** Where a thread stands in _ck_ring_enqueue_mp (or reserve and commit) and _ck_ring_dequeue_mc.
      `head` in EnqSlow is history: p_head at the moment c_head was loaded. */
  datatype Pc =
    | Idle
    | EnqStart(v: Value)
    | EnqHead(v: Value, producer: nat)
    | EnqCas(v: Value, producer: nat, consumer: nat)
    | EnqSlow(v: Value, producer: nat, consumer: nat, head: nat)
    | EnqWrite(v: Value, ticket: nat)
    | EnqWait(v: Value, ticket: nat)
    | EnqCommit(v: Value, ticket: nat)
    | EnqDone(ok: bool)
    | DeqStart(once: bool)
    | DeqHead(once: bool, consumer: nat)
    | DeqRead(once: bool, consumer: nat)
    | DeqCas(once: bool, consumer: nat, v: Value)
    | DeqDone(ok: bool, consumer: nat, v: Value)

  /** `ck_ring` with its buffer and its threads. History: `vals[k]` and `owner[k]` are the value
      and the thread of ticket k, `out` the values dequeued so far, in order. */
  datatype State = State(
    size: nat,
    cHead: nat,
    pTail: nat,
    pHead: nat,
    slots: seq<Value>,
    pcs: seq<Pc>,
    vals: seq<Value>,
    owner: seq<nat>,
    out: seq<Value>)

  function Slot(s: State, k: nat): nat
    requires 0 < s.size
  {
    And(k, s.size - 1)
  }

  ghost predicate Init(s: State) {
    && IsPow2(s.size) && s.cHead == s.pTail == s.pHead == 0 && |s.slots| == s.size
    && (forall t | 0 <= t < |s.pcs| :: s.pcs[t] == Idle)
    && s.vals == [] && s.owner == [] && s.out == []
  }

  function Go(s: State, t: nat, pc: Pc): State
    requires t < |s.pcs|
  {
    s.(pcs := s.pcs[t := pc])
  }

  // ----- the client: calls and returns

  ghost predicate CallEnqueue(s: State, s': State, t: nat, v: Value) {
    t < |s.pcs| && s.pcs[t].Idle? && s' == Go(s, t, EnqStart(v))
  }

  ghost predicate CallDequeue(s: State, s': State, t: nat, once: bool) {
    t < |s.pcs| && s.pcs[t].Idle? && s' == Go(s, t, DeqStart(once))
  }

  ghost predicate Return(s: State, s': State, t: nat) {
    t < |s.pcs| && (s.pcs[t].EnqDone? || s.pcs[t].DeqDone?) && s' == Go(s, t, Idle)
  }

  // ----- enqueue

  ghost predicate EnqLoadHead(s: State, s': State, t: nat) {
    t < |s.pcs| && s.pcs[t].EnqStart? && s' == Go(s, t, EnqHead(s.pcs[t].v, s.pHead))
  }

  /** Loads c_head. The unsigned difference is below the mask only if the producer is not stale. */
  ghost predicate EnqLoadConsumer(s: State, s': State, t: nat) {
    && t < |s.pcs| && s.pcs[t].EnqHead? && 0 < s.size
    && var pc := s.pcs[t];
       s' == Go(s, t, if s.cHead <= pc.producer && pc.producer - s.cHead < s.size - 1
                      then EnqCas(pc.v, pc.producer, s.cHead)
                      else EnqSlow(pc.v, pc.producer, s.cHead, s.pHead))
  }

  ghost predicate EnqReserve(s: State, s': State, t: nat) {
    && t < |s.pcs| && s.pcs[t].EnqCas?
    && var pc := s.pcs[t];
       s' == if s.pHead == pc.producer
             then Go(s, t, EnqWrite(pc.v, pc.producer))
                    .(pHead := pc.producer + 1, vals := s.vals + [pc.v], owner := s.owner + [t])
             else Go(s, t, EnqHead(pc.v, s.pHead))
  }

  /** The second load of p_head: unchanged means full, otherwise the snapshot was stale. */
  ghost predicate EnqRecheck(s: State, s': State, t: nat) {
    && t < |s.pcs| && s.pcs[t].EnqSlow?
    && var pc := s.pcs[t];
       s' == Go(s, t, if pc.producer == s.pHead then EnqDone(false) else EnqHead(pc.v, s.pHead))
  }

  ghost predicate EnqStore(s: State, s': State, t: nat) {
    && t < |s.pcs| && s.pcs[t].EnqWrite? && 0 < s.size && Slot(s, s.pcs[t].ticket) < |s.slots|
    && var pc := s.pcs[t];
       s' == Go(s, t, EnqWait(pc.v, pc.ticket)).(slots := s.slots[Slot(s, pc.ticket) := pc.v])
  }

  ghost predicate EnqLoadTail(s: State, s': State, t: nat) {
    && t < |s.pcs| && s.pcs[t].EnqWait?
    && var pc := s.pcs[t];
       s' == if s.pTail == pc.ticket then Go(s, t, EnqCommit(pc.v, pc.ticket)) else s
  }

  ghost predicate EnqStoreTail(s: State, s': State, t: nat) {
    && t < |s.pcs| && s.pcs[t].EnqCommit?
    && s' == Go(s, t, EnqDone(true)).(pTail := s.pcs[t].ticket + 1)
  }

  // ----- dequeue

  ghost predicate DeqLoadHead(s: State, s': State, t: nat) {
    t < |s.pcs| && s.pcs[t].DeqStart? && s' == Go(s, t, DeqHead(s.pcs[t].once, s.cHead))
  }

  ghost predicate DeqLoadTail(s: State, s': State, t: nat) {
    && t < |s.pcs| && s.pcs[t].DeqHead?
    && var pc := s.pcs[t];
       s' == Go(s, t, if pc.consumer == s.pTail then DeqDone(false, pc.consumer, 0) else DeqRead(pc.once, pc.consumer))
  }

  /** Copies the slot before it is known to be the caller's. */
  ghost predicate DeqLoadSlot(s: State, s': State, t: nat) {
    && t < |s.pcs| && s.pcs[t].DeqRead? && 0 < s.size && Slot(s, s.pcs[t].consumer) < |s.slots|
    && var pc := s.pcs[t];
       s' == Go(s, t, DeqCas(pc.once, pc.consumer, s.slots[Slot(s, pc.consumer)]))
  }

  ghost predicate DeqTake(s: State, s': State, t: nat) {
    && t < |s.pcs| && s.pcs[t].DeqCas?
    && var pc := s.pcs[t];
       s' == if s.cHead == pc.consumer
             then Go(s, t, DeqDone(true, pc.consumer, pc.v)).(cHead := pc.consumer + 1, out := s.out + [pc.v])
             else if pc.once then Go(s, t, DeqDone(false, pc.consumer, 0))
             else Go(s, t, DeqHead(false, s.cHead))
  }

  ghost predicate EnqStep(s: State, s': State, t: nat) {
    || EnqLoadHead(s, s', t) || EnqLoadConsumer(s, s', t) || EnqReserve(s, s', t) || EnqRecheck(s, s', t)
    || EnqStore(s, s', t) || EnqLoadTail(s, s', t) || EnqStoreTail(s, s', t)
  }

  ghost predicate DeqStep(s: State, s': State, t: nat) {
    DeqLoadHead(s, s', t) || DeqLoadTail(s, s', t) || DeqLoadSlot(s, s', t) || DeqTake(s, s', t)
  }

  ghost predicate ClientStep(s: State, s': State, t: nat) {
    || (exists v :: CallEnqueue(s, s', t, v)) || (exists once :: CallDequeue(s, s', t, once))
    || Return(s, s', t)
  }

  ghost predicate Step(s: State, s': State, t: nat) {
    EnqStep(s, s', t) || DeqStep(s, s', t) || ClientStep(s, s', t)
  }

  ghost predicate Next(s: State, s': State) {
    exists t :: Step(s, s', t)
  }

  ghost predicate StepAt(run: seq<State>, i: nat)
    requires i + 1 < |run|
  {
    Next(run[i], run[i + 1])
  }

  ghost predicate IsRun(run: seq<State>) {
    |run| > 0 && Init(run[0]) && forall i: nat | i + 1 < |run| :: StepAt(run, i)
  }

  // ----- the invariant

  /** Two tickets less than a whole ring apart have different slots. */
  lemma SlotsDiffer(s: State, j: nat, k: nat)
    requires IsPow2(s.size) && 0 < s.size && j < k < j + s.size
    ensures Slot(s, j) < s.size && Slot(s, k) < s.size && Slot(s, j) != Slot(s, k)
  {
    var e: nat :| s.size == Pow2(e);
    AndMask(j, e);
    AndMask(k, e);
    ModsDiffer(j, k, s.size);
  }

  lemma SlotInRange(s: State, k: nat)
    requires IsPow2(s.size) && 0 < s.size
    ensures Slot(s, k) < s.size
  {
    var e: nat :| s.size == Pow2(e);
    AndMask(k, e);
  }

  ghost predicate Holds(pc: Pc, k: nat) {
    (pc.EnqWrite? || pc.EnqWait? || pc.EnqCommit?) && pc.ticket == k
  }

  /** `ck_ring_valid`, and the order of the two producer counters. */
  ghost predicate Counters(s: State) {
    && IsPow2(s.size) && |s.slots| == s.size
    && s.cHead <= s.pTail <= s.pHead <= s.cHead + s.size - 1
    && |s.vals| == |s.owner| == s.pHead
  }

  ghost predicate PcInv(s: State, t: nat)
    requires t < |s.pcs| && Counters(s)
  {
    var pc := s.pcs[t];
    match pc
    case EnqHead(v, p) => p <= s.pHead
    case EnqCas(v, p, c) => c <= p <= s.pHead && c <= s.cHead && p - c < s.size - 1
    case EnqSlow(v, p, c, h) =>
      p <= h <= s.pHead && c <= h <= c + s.size - 1 && c <= s.cHead && (c <= p ==> p - c >= s.size - 1)
    case EnqWrite(v, k) => s.pTail <= k < s.pHead && s.owner[k] == t && s.vals[k] == v
    case EnqWait(v, k) =>
      s.pTail <= k < s.pHead && s.owner[k] == t && s.vals[k] == v && Slot(s, k) < s.size && s.slots[Slot(s, k)] == v
    case EnqCommit(v, k) =>
      s.pTail == k < s.pHead && s.owner[k] == t && s.vals[k] == v && Slot(s, k) < s.size && s.slots[Slot(s, k)] == v
    case DeqHead(_, c) => c <= s.cHead
    case DeqRead(_, c) => c <= s.cHead && c < s.pTail
    case DeqCas(_, c, v) => c <= s.cHead && c < s.pTail && (c == s.cHead ==> v == s.vals[c])
    case DeqDone(ok, c, v) => ok ==> c < s.cHead && v == s.vals[c]
    case _ => true
  }

  /** Every reserved, uncommitted ticket is held by the thread that reserved it. */
  ghost predicate HeldInv(s: State, k: nat)
    requires Counters(s)
  {
    s.pTail <= k < s.pHead ==> s.owner[k] < |s.pcs| && Holds(s.pcs[s.owner[k]], k)
  }

  /** Every committed ticket's value is in its slot until it is consumed. */
  ghost predicate SlotInv(s: State, k: nat)
    requires Counters(s)
  {
    s.cHead <= k < s.pTail ==> Slot(s, k) < s.size && s.slots[Slot(s, k)] == s.vals[k]
  }

  ghost predicate Inv(s: State) {
    && Counters(s)
    && (forall t: nat | t < |s.pcs| :: PcInv(s, t))
    && (forall k: nat :: HeldInv(s, k))
    && (forall k: nat :: SlotInv(s, k))
    && s.out == s.vals[..s.cHead]
  }

  lemma InitHolds(s: State)
    requires Init(s)
    ensures Inv(s)
  {}

  /** A step that only moves thread t, to a place where its knowledge holds. */
  lemma LocalStepKeeps(s: State, s': State, t: nat, pc: Pc)
    requires Inv(s) && t < |s.pcs| && s' == Go(s, t, pc) && PcInv(s', t)
    requires forall k: nat :: Holds(s.pcs[t], k) <==> Holds(pc, k)
    ensures Inv(s')
  {
    forall u: nat | u < |s'.pcs| ensures PcInv(s', u) {
      if u != t { assert PcInv(s, u); }
    }
    forall k: nat ensures HeldInv(s', k) && SlotInv(s', k) {
      assert HeldInv(s, k) && SlotInv(s, k);
    }
  }

  lemma EnqReserveKeeps(s: State, s': State, t: nat)
    requires Inv(s) && EnqReserve(s, s', t)
    ensures Inv(s')
  {
    assert PcInv(s, t);
    if s.pHead != s.pcs[t].producer {
      LocalStepKeeps(s, s', t, s'.pcs[t]);
    } else {
      forall u: nat | u < |s'.pcs| ensures PcInv(s', u) {
        assert PcInv(s, u);
      }
      forall k: nat ensures HeldInv(s', k) && SlotInv(s', k) {
        assert HeldInv(s, k) && SlotInv(s, k);
      }
    }
  }

  /** Writing the slot of a reserved ticket touches no committed entry and no other reserved one. */
  lemma EnqStoreKeeps(s: State, s': State, t: nat)
    requires Inv(s) && EnqStore(s, s', t)
    ensures Inv(s')
  {
    assert PcInv(s, t);
    var k := s.pcs[t].ticket;
    forall j: nat | s.cHead <= j < s.pHead && j != k ensures Slot(s, j) != Slot(s, k) {
      if j < k { SlotsDiffer(s, j, k); } else { SlotsDiffer(s, k, j); }
    }
    forall u: nat | u < |s'.pcs| ensures PcInv(s', u) {
      assert PcInv(s, u);
      if u == t { SlotInRange(s, k); }
    }
    forall j: nat ensures HeldInv(s', j) && SlotInv(s', j) {
      assert HeldInv(s, j) && SlotInv(s, j);
    }
  }

  lemma EnqStoreTailKeeps(s: State, s': State, t: nat)
    requires Inv(s) && EnqStoreTail(s, s', t)
    ensures Inv(s')
  {
    assert PcInv(s, t);
    forall u: nat | u < |s'.pcs| ensures PcInv(s', u) {
      assert PcInv(s, u);
    }
    forall k: nat ensures HeldInv(s', k) && SlotInv(s', k) {
      assert HeldInv(s, k) && SlotInv(s, k);
    }
  }

  lemma DeqLoadSlotKeeps(s: State, s': State, t: nat)
    requires Inv(s) && DeqLoadSlot(s, s', t)
    ensures Inv(s')
  {
    assert PcInv(s, t) && SlotInv(s, s.pcs[t].consumer);
    LocalStepKeeps(s, s', t, s'.pcs[t]);
  }

  lemma DeqTakeKeeps(s: State, s': State, t: nat)
    requires Inv(s) && DeqTake(s, s', t)
    ensures Inv(s')
  {
    assert PcInv(s, t);
    if s.cHead != s.pcs[t].consumer {
      LocalStepKeeps(s, s', t, s'.pcs[t]);
    } else {
      forall u: nat | u < |s'.pcs| ensures PcInv(s', u) {
        assert PcInv(s, u);
      }
      forall k: nat ensures HeldInv(s', k) && SlotInv(s', k) {
        assert HeldInv(s, k) && SlotInv(s, k);
      }
      assert s'.vals[..s'.cHead] == s.vals[..s.cHead] + [s.vals[s.cHead]];
    }
  }

  lemma EnqStepKeeps(s: State, s': State, t: nat)
    requires Inv(s) && EnqStep(s, s', t)
    ensures Inv(s')
  {
    assert PcInv(s, t);
    if EnqReserve(s, s', t) { EnqReserveKeeps(s, s', t); }
    else if EnqStore(s, s', t) { EnqStoreKeeps(s, s', t); }
    else if EnqStoreTail(s, s', t) { EnqStoreTailKeeps(s, s', t); }
    else if s' != s { LocalStepKeeps(s, s', t, s'.pcs[t]); }
  }

  lemma StepKeeps(s: State, s': State, t: nat)
    requires Inv(s) && Step(s, s', t)
    ensures Inv(s')
  {
    if EnqStep(s, s', t) { EnqStepKeeps(s, s', t); }
    else if DeqTake(s, s', t) { DeqTakeKeeps(s, s', t); }
    else if DeqLoadSlot(s, s', t) { DeqLoadSlotKeeps(s, s', t); }
    else {
      assert PcInv(s, t);
      LocalStepKeeps(s, s', t, s'.pcs[t]);
    }
  }

  lemma {:induction false} ReachableInv(run: seq<State>, i: nat)
    requires IsRun(run) && i < |run|
    ensures Inv(run[i])
  {
    if i == 0 {
      InitHolds(run[0]);
    } else {
      ReachableInv(run, i - 1);
      assert StepAt(run, i - 1);
      var t :| Step(run[i - 1], run[i], t);
      StepKeeps(run[i - 1], run[i], t);
    }
  }

  // ----- the three kinds of steps that operations make

  /** Inside the loop of an enqueue, before a ticket is reserved. */
  ghost predicate Trying(pc: Pc) {
    pc.EnqStart? || pc.EnqHead? || pc.EnqCas? || pc.EnqSlow?
  }

  ghost predicate InDequeue(pc: Pc) {
    pc.DeqStart? || pc.DeqHead? || pc.DeqRead? || pc.DeqCas? || pc.DeqDone?
  }

  /** The value is still the caller's: no ticket is reserved for it yet. */
  ghost predicate Offering(pc: Pc, v: Value) {
    Trying(pc) && pc.v == v
  }

  /** Inside an enqueue of v that does not fail. */
  ghost predicate InEnqueue(pc: Pc, v: Value) {
    || Offering(pc, v) || pc == EnqDone(true)
    || ((pc.EnqWrite? || pc.EnqWait? || pc.EnqCommit?) && pc.v == v)
  }

  ghost predicate Reserves(s: State, s': State, t: nat) {
    && t < |s.pcs| == |s'.pcs| && s.pcs[t].EnqCas? && s'.pcs[t] == EnqWrite(s.pcs[t].v, s.pHead)
    && s'.pHead == s.pHead + 1 && s'.vals == s.vals + [s.pcs[t].v] && s'.cHead == s.cHead && s'.pTail == s.pTail
  }

  ghost predicate Takes(s: State, s': State, t: nat) {
    && t < |s.pcs| == |s'.pcs| && s.pcs[t].DeqCas? && s.cHead < |s.vals|
    && s'.pcs[t] == DeqDone(true, s.cHead, s.vals[s.cHead])
    && s'.cHead == s.cHead + 1 && s'.pHead == s.pHead && s'.pTail == s.pTail && s'.vals == s.vals
  }

  ghost predicate Shuffles(s: State, s': State, t: nat) {
    && t < |s.pcs| == |s'.pcs| && s'.cHead == s.cHead && s'.pHead == s.pHead && s'.vals == s.vals
    && s'.pTail == (if s.pcs[t].EnqCommit? then s.pcs[t].ticket + 1 else s.pTail)
    && (s.pcs[t].EnqCommit? ==> s'.pcs[t] == EnqDone(true))
    && !(s'.pcs[t].DeqDone? && s'.pcs[t].ok)
    && (Trying(s.pcs[t]) && !s'.pcs[t].EnqDone? ==> Trying(s'.pcs[t]) && s'.pcs[t].v == s.pcs[t].v)
    && (s'.pcs[t].EnqSlow? ==> s.pcs[t].EnqHead? && s'.pcs[t].consumer == s.cHead && s'.pcs[t].head == s.pHead)
    && (s'.pcs[t] == EnqDone(false) ==> s.pcs[t].EnqSlow? && s.pcs[t].head >= s.pcs[t].consumer + s.size - 1)
    && (InDequeue(s.pcs[t]) <==> InDequeue(s'.pcs[t]))
    && (forall v :: InEnqueue(s.pcs[t], v) && s'.pcs[t] != EnqDone(false) ==> InEnqueue(s'.pcs[t], v))
  }

  lemma KindOfEnqStep(s: State, s': State, t: nat)
    requires Inv(s) && EnqStep(s, s', t)
    ensures s' == s || Reserves(s, s', t) || Shuffles(s, s', t)
  {
    assert PcInv(s, t);
    if !EnqReserve(s, s', t) && s' != s { assert Shuffles(s, s', t); }
  }

  lemma KindOfDeqStep(s: State, s': State, t: nat)
    requires Inv(s) && DeqStep(s, s', t)
    ensures s' == s || Takes(s, s', t) || Shuffles(s, s', t)
  {
    assert PcInv(s, t);
    if !DeqTake(s, s', t) { assert Shuffles(s, s', t); }
  }

  lemma OnlyOwnPc(s: State, s': State, t: nat)
    requires Step(s, s', t)
    ensures s'.size == s.size && |s'.pcs| == |s.pcs|
    ensures forall u: nat | u < |s.pcs| && u != t :: s'.pcs[u] == s.pcs[u]
  {}

  lemma KindOfStep(s: State, s': State, t: nat)
    requires Inv(s) && (EnqStep(s, s', t) || DeqStep(s, s', t))
    ensures Inv(s') && s'.size == s.size && |s'.pcs| == |s.pcs|
    ensures forall u: nat | u < |s.pcs| && u != t :: s'.pcs[u] == s.pcs[u]
    ensures s' == s || Reserves(s, s', t) || Takes(s, s', t) || Shuffles(s, s', t)
  {
    StepKeeps(s, s', t);
    OnlyOwnPc(s, s', t);
    if EnqStep(s, s', t) { KindOfEnqStep(s, s', t); } else { KindOfDeqStep(s, s', t); }
  }

  // ----- what the ring promises

  /** The committed entries, oldest first. */
  function Queue(s: State): seq<Value>
    requires s.cHead <= s.pTail <= |s.vals|
  {
    s.vals[s.cHead..s.pTail]
  }

  /** A dequeue of thread t took the value v. */
  ghost predicate Took(s: State, s': State, t: nat, v: Value) {
    t < |s.pcs| == |s'.pcs| && s.pcs[t].DeqCas? && s'.pcs[t].DeqDone? && s'.pcs[t].ok && s'.pcs[t].v == v
  }

  /** Every step of an operation is a step of a bounded first-in first-out queue: the commit of the oldest reserved
      ticket appends its value, a successful dequeue takes the front, anything else changes nothing. */
  lemma RefinesBoundedQueue(s: State, s': State, t: nat)
    requires Inv(s) && (EnqStep(s, s', t) || DeqStep(s, s', t))
    ensures Inv(s') && |Queue(s)| < s.size
    ensures if s.pcs[t].EnqCommit? then Queue(s') == Queue(s) + [s.pcs[t].v] && s'.pcs[t] == EnqDone(true)
            else if exists v :: Took(s, s', t, v)
            then Queue(s) != [] && Took(s, s', t, Queue(s)[0]) && Queue(s') == Queue(s)[1..]
            else Queue(s') == Queue(s)
  {
    KindOfStep(s, s', t);
    assert PcInv(s, t);
    if Takes(s, s', t) {
      assert Took(s, s', t, s.vals[s.cHead]);
      assert Queue(s') == Queue(s)[1..];
    } else if s.pcs[t].EnqCommit? {
      assert Queue(s') == Queue(s) + [s.pcs[t].v];
    } else {
      assert Queue(s') == Queue(s);
    }
  }

  /** Values come out in ticket order: the dequeued values are those of the first tickets. */
  lemma DequeuesInTicketOrder(run: seq<State>, i: nat)
    requires IsRun(run) && i < |run|
    ensures run[i].cHead <= |run[i].vals| && run[i].out == run[i].vals[..run[i].cHead]
    ensures run[i].cHead <= run[i].pTail <= run[i].pHead
    ensures run[i].pHead < run[i].cHead + run[i].size
  {
    ReachableInv(run, i);
  }

  // ----- failures are justified

  /** A dequeue that finds the ring empty finds it empty at that very moment. */
  lemma EmptyMeansEmpty(s: State, s': State, t: nat)
    requires Inv(s) && DeqLoadTail(s, s', t) && s'.pcs[t] == DeqDone(false, s.pcs[t].consumer, 0)
    ensures s.cHead == s.pTail
  {
    assert PcInv(s, t);
  }

  /** A try-dequeue fails on its compare-and-swap only if somebody else took the entry meanwhile. */
  lemma TryFailsByContention(s: State, s': State, t: nat)
    requires Inv(s) && DeqTake(s, s', t) && s'.pcs[t] == DeqDone(false, s.pcs[t].consumer, 0)
    ensures s.pcs[t].once && s.pcs[t].consumer < s.cHead && s.out[s.pcs[t].consumer] == s.vals[s.pcs[t].consumer]
  {
    assert PcInv(s, t);
  }

  ghost predicate StateHad(run: seq<State>, i: nat, j: nat, consumer: nat, head: nat) {
    exists m :: i <= m <= j < |run| && run[m].cHead == consumer && run[m].pHead == head
  }

  lemma EntersSlowPath(s: State, s': State, t: nat)
    requires Next(s, s') && t < |s.pcs| && t < |s'.pcs| && Trying(s.pcs[t]) && s'.pcs[t].EnqSlow?
    ensures s'.pcs[t] == s.pcs[t] || (s'.cHead == s'.pcs[t].consumer && s'.pHead == s'.pcs[t].head)
  {
    var u :| Step(s, s', u);
    if u == t { assert EnqLoadConsumer(s, s', t); } else { OnlyOwnPc(s, s', u); }
  }

  /** On the slow path, the two counters were together what the thread remembers, during its call. */
  lemma {:induction false} SlowPathSawBoth(run: seq<State>, i: nat, j: nat, t: nat)
    requires IsRun(run) && i <= j < |run| && t < |run[i].pcs| && run[i].pcs[t].EnqStart?
    requires forall m: nat | i <= m <= j :: t < |run[m].pcs| && Trying(run[m].pcs[t])
    requires run[j].pcs[t].EnqSlow?
    ensures StateHad(run, i, j, run[j].pcs[t].consumer, run[j].pcs[t].head)
    decreases j
  {
    assert StepAt(run, j - 1);
    EntersSlowPath(run[j - 1], run[j], t);
    if run[j].pcs[t] == run[j - 1].pcs[t] {
      SlowPathSawBoth(run, i, j - 1, t);
      var m :| i <= m <= j - 1 && run[m].cHead == run[j].pcs[t].consumer && run[m].pHead == run[j].pcs[t].head;
    }
  }

  lemma FailsOnRecheck(s: State, s': State, t: nat)
    requires Inv(s) && Next(s, s') && t < |s.pcs| && t < |s'.pcs| && Trying(s.pcs[t]) && s'.pcs[t] == EnqDone(false)
    ensures s.pcs[t].EnqSlow? && s.pcs[t].head == s.pcs[t].consumer + s.size - 1
  {
    var u :| Step(s, s', u);
    if u == t {
      assert EnqRecheck(s, s', t) && PcInv(s, t);
    } else {
      OnlyOwnPc(s, s', u);
    }
  }

  /** An enqueue called at state i that fails at step j found the ring full: at some state in
      between, size - 1 tickets were reserved and not consumed. */
  lemma FullMeansFull(run: seq<State>, i: nat, j: nat, t: nat)
    requires IsRun(run) && i <= j && j + 1 < |run| && t < |run[i].pcs| && run[i].pcs[t].EnqStart?
    requires forall m: nat | i <= m <= j :: t < |run[m].pcs| && Trying(run[m].pcs[t])
    requires t < |run[j + 1].pcs| && run[j + 1].pcs[t] == EnqDone(false)
    ensures exists m :: i <= m <= j && run[m].pHead == run[m].cHead + run[j].size - 1
  {
    ReachableInv(run, j);
    assert StepAt(run, j);
    FailsOnRecheck(run[j], run[j + 1], t);
    SlowPathSawBoth(run, i, j, t);
    var m :| i <= m <= j < |run| && run[m].cHead == run[j].pcs[t].consumer && run[m].pHead == run[j].pcs[t].head;
  }

  /** While a reserved ticket is uncommitted, exactly one thread holds the oldest one, and it is
      writing its slot or free to commit: waiting producers never wait for each other in a circle. */
  lemma OldestTicketCanCommit(run: seq<State>, i: nat)
    requires IsRun(run) && i < |run| && run[i].pTail < run[i].pHead
    ensures exists t: nat ::
              && t < |run[i].pcs| && Holds(run[i].pcs[t], run[i].pTail)
              && (forall u: nat | u < |run[i].pcs| && Holds(run[i].pcs[u], run[i].pTail) :: u == t)
              && exists s' :: EnqStep(run[i], s', t) && s' != run[i]
  {
    ReachableInv(run, i);
    var s := run[i];
    assert HeldInv(s, s.pTail);
    var t := s.owner[s.pTail];
    var pc := s.pcs[t];
    forall u: nat | u < |s.pcs| && Holds(s.pcs[u], s.pTail) ensures u == t {
      assert PcInv(s, u);
    }
    SlotInRange(s, s.pTail);
    var s' := if pc.EnqWrite? then Go(s, t, EnqWait(pc.v, pc.ticket)).(slots := s.slots[Slot(s, pc.ticket) := pc.v])
              else if pc.EnqWait? then Go(s, t, EnqCommit(pc.v, pc.ticket))
              else Go(s, t, EnqDone(true)).(pTail := pc.ticket + 1);
    assert s'.pcs[t] != pc;
    assert EnqStore(s, s', t) || EnqLoadTail(s, s', t) || EnqStoreTail(s, s', t);
    assert EnqStep(s, s', t);
  }
}
