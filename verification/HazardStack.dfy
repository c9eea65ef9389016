/** The hazard-pointer stack of ck_hp_stack.h with the reclamation of ck_hp.c: one shared load,
    store or compare-and-swap per step, any number of threads, each with one hazard pointer. */
module HazardStack {
  import opened Wrappers

  type Node = nat

  /** Where a thread stands in push, pop or reclaim. In a retry of pop, `first` tells the load before
      the inner loop from those in it. `hazards` counts what ck_hp_member_cache has stored. */
  datatype Pc =
    | Idle
    | PushLoad(n: Node)
    | PushLink(n: Node, seen: Option<Node>)
    | PushCas(n: Node, seen: Option<Node>)
    | PopLoad
    | PopHazard(e: Node)
    | PopCheck(e: Node)
    | PopNext(e: Node)
    | PopCas(e: Node, succ: Option<Node>)
    | RetrySet(u: Option<Node>, first: bool)
    | RetryLoad(u: Option<Node>, first: bool)
    | PopDone(result: Option<Node>)
    | Scan(at: nat, cache: set<Node>, hazards: nat)
    | Sweep(cache: set<Node>)

  /** History: what has become of a node. Only a free one may be pushed. */
  datatype Status = Free | Pushing(t: nat) | InStack | Popped(t: nat) | Retired(t: nat)

  /** `slots[t]` is thread t's hazard pointer and `pending[t]` its retired nodes. `cacheSize` is
      CK_HP_CACHE. `overwritten` are the threads whose cache has been written one past its end, over
      the field `global` of their record. History: `stack`, the nodes from the top down, and `status`. */
  datatype State = State(
    head: Option<Node>,
    next: seq<Option<Node>>,
    slots: seq<Option<Node>>,
    pending: seq<set<Node>>,
    pcs: seq<Pc>,
    cacheSize: nat,
    overwritten: set<nat>,
    stack: seq<Node>,
    status: seq<Status>)

  function Top(stack: seq<Node>): Option<Node> {
    if stack == [] then None else Some(stack[0])
  }

  /** The chain of next pointers spells out the stack. */
  ghost predicate Linked(s: State) {
    && s.head == Top(s.stack)
    && (forall i | 0 <= i < |s.stack| :: s.stack[i] < |s.next| && s.next[s.stack[i]] == Top(s.stack[i + 1..]))
    && (forall i, j | 0 <= i < j < |s.stack| :: s.stack[i] != s.stack[j])
  }

  ghost predicate Init(s: State) {
    && Linked(s) && |s.status| == |s.next| && |s.slots| == |s.pending| == |s.pcs| && s.overwritten == {}
    && (forall n | 0 <= n < |s.status| :: s.status[n] == if n in s.stack then InStack else Free)
    && (forall t | 0 <= t < |s.pcs| :: s.pcs[t] == Idle && s.slots[t] == None && s.pending[t] == {})
  }

  function Go(s: State, t: nat, pc: Pc): State
    requires t < |s.pcs|
  {
    s.(pcs := s.pcs[t := pc])
  }

  ghost predicate At(s: State, t: nat) {
    t < |s.pcs| == |s.slots| == |s.pending| && |s.status| == |s.next|
  }

  /** `ck_hp_register`. */
  ghost predicate Register(s: State, s': State) {
    s' == s.(pcs := s.pcs + [Idle], slots := s.slots + [None], pending := s.pending + [{}])
  }

  // ----- push: ck_stack_push_upmc

  ghost predicate CallPush(s: State, s': State, t: nat, n: Node) {
    && At(s, t) && s.pcs[t].Idle? && n < |s.status| && s.status[n].Free?
    && s' == Go(s, t, PushLoad(n)).(status := s.status[n := Pushing(t)])
  }

  ghost predicate PushLoads(s: State, s': State, t: nat) {
    At(s, t) && s.pcs[t].PushLoad? && s' == Go(s, t, PushLink(s.pcs[t].n, s.head))
  }

  ghost predicate PushLinks(s: State, s': State, t: nat) {
    && At(s, t) && s.pcs[t].PushLink? && s.pcs[t].n < |s.next|
    && s' == Go(s, t, PushCas(s.pcs[t].n, s.pcs[t].seen)).(next := s.next[s.pcs[t].n := s.pcs[t].seen])
  }

  ghost predicate Pushes(s: State, s': State, t: nat) {
    && At(s, t) && s.pcs[t].PushCas? && s.pcs[t].n < |s.status|
    && var n := s.pcs[t].n;
       s' == if s.head == s.pcs[t].seen
             then Go(s, t, Idle).(head := Some(n), stack := [n] + s.stack, status := s.status[n := InStack])
             else Go(s, t, PushLink(n, s.head))
  }

  // ----- pop: ck_hp_stack_pop_mpmc

  ghost predicate CallPop(s: State, s': State, t: nat) {
    At(s, t) && s.pcs[t].Idle? && s' == Go(s, t, PopLoad)
  }

  ghost predicate PopLoads(s: State, s': State, t: nat) {
    && At(s, t) && s.pcs[t].PopLoad?
    && s' == Go(s, t, if s.head.None? then PopDone(None) else PopHazard(s.head.value))
  }

  ghost predicate PopSets(s: State, s': State, t: nat) {
    && At(s, t) && s.pcs[t].PopHazard?
    && s' == Go(s, t, PopCheck(s.pcs[t].e)).(slots := s.slots[t := Some(s.pcs[t].e)])
  }

  /** The hazard counts from here on, if the node is still on top. */
  ghost predicate PopChecks(s: State, s': State, t: nat) {
    && At(s, t) && s.pcs[t].PopCheck?
    && s' == Go(s, t, if s.head == Some(s.pcs[t].e) then PopNext(s.pcs[t].e) else PopLoad)
  }

  /** Loads `entry->next`, from a node that may have been popped meanwhile. */
  ghost predicate PopReads(s: State, s': State, t: nat) {
    && At(s, t) && s.pcs[t].PopNext? && s.pcs[t].e < |s.next|
    && s' == Go(s, t, PopCas(s.pcs[t].e, s.next[s.pcs[t].e]))
  }

  ghost predicate Pops(s: State, s': State, t: nat) {
    && At(s, t) && s.pcs[t].PopCas? && s.pcs[t].e < |s.status|
    && var e := s.pcs[t].e;
       s' == if s.head == Some(e)
             then Go(s, t, PopDone(Some(e)))
                  .(head := s.pcs[t].succ, stack := if s.stack == [] then [] else s.stack[1..],
                    status := s.status[e := Popped(t)])
             else Go(s, t, if s.head.None? then PopDone(None) else RetrySet(s.head, true))
  }

  ghost predicate RetrySets(s: State, s': State, t: nat) {
    && At(s, t) && s.pcs[t].RetrySet?
    && s' == Go(s, t, RetryLoad(s.pcs[t].u, s.pcs[t].first)).(slots := s.slots[t := s.pcs[t].u])
  }

  /** Loads head again: validated if it is what the hazard says. The load before the inner loop does
      not test for NULL, those in it do. */
  ghost predicate RetryLoads(s: State, s': State, t: nat) {
    && At(s, t) && s.pcs[t].RetryLoad?
    && var pc := s.pcs[t];
       s' == Go(s, t, if s.head.None? && !pc.first then PopDone(None)
                      else if pc.u.Some? && s.head == pc.u then PopNext(pc.u.value)
                      else RetrySet(s.head, false))
  }

  ghost predicate Return(s: State, s': State, t: nat) {
    At(s, t) && s.pcs[t].PopDone? && s' == Go(s, t, Idle)
  }

  /** `ck_hp_clear`, outside an operation. It reads the degree through `global`. */
  ghost predicate ClearHazard(s: State, s': State, t: nat) {
    At(s, t) && s.pcs[t].Idle? && t !in s.overwritten && s' == s.(slots := s.slots[t := None])
  }

  // ----- reclamation

  /** `ck_hp_retire` of a node that the thread has popped. */
  ghost predicate Retire(s: State, s': State, t: nat, n: Node) {
    && At(s, t) && s.pcs[t].Idle? && n < |s.status| && s.status[n] == Popped(t)
    && s' == s.(pending := s.pending[t := s.pending[t] + {n}], status := s.status[n := Retired(t)])
  }

  /** `ck_hp_reclaim` starts with the newest subscriber, which it finds through `global`. */
  ghost predicate StartReclaim(s: State, s': State, t: nat) {
    At(s, t) && s.pcs[t].Idle? && t !in s.overwritten && s' == Go(s, t, Scan(|s.slots|, {}, 0))
  }

  /** One subscriber. The bounds check of the source lets one hazard too many pass: with a full cache it
      goes into the word behind, the field `global`. After that nothing is looked at, and the marker
      that should say so is always NULL. */
  ghost predicate ScanSlot(s: State, s': State, t: nat) {
    && At(s, t) && s.pcs[t].Scan?
    && var pc := s.pcs[t];
       && pc.at <= |s.slots|
       && s' == Go(s, t,
            if pc.at == 0 then Sweep(pc.cache)
            else if pc.hazards > s.cacheSize || s.slots[pc.at - 1].None? then Scan(pc.at - 1, pc.cache, pc.hazards)
            else Scan(pc.at - 1, pc.cache + {s.slots[pc.at - 1].value}, pc.hazards + 1))
            .(overwritten := s.overwritten + if PastTheEnd(s, pc) then {t} else {})
  }

  /** The next hazard is stored at cache[CK_HP_CACHE]. */
  predicate PastTheEnd(s: State, pc: Pc)
    requires pc.Scan?
  {
    0 < pc.at <= |s.slots| && pc.hazards == s.cacheSize && s.slots[pc.at - 1].Some?
  }

  /** A retired node that is not in the cache is destroyed, and may be used again. */
  ghost predicate Destroys(s: State, s': State, t: nat, n: Node) {
    && At(s, t) && s.pcs[t].Sweep? && n in s.pending[t] && n !in s.pcs[t].cache && n < |s.status|
    && s' == s.(pending := s.pending[t := s.pending[t] - {n}], status := s.status[n := Free])
  }

  ghost predicate EndReclaim(s: State, s': State, t: nat) {
    && At(s, t) && s.pcs[t].Sweep? && s.pending[t] <= s.pcs[t].cache
    && s' == Go(s, t, Idle)
  }

  // ----- runs

  ghost predicate PushStep(s: State, s': State, t: nat) {
    || (exists n :: CallPush(s, s', t, n)) || PushLoads(s, s', t) || PushLinks(s, s', t) || Pushes(s, s', t)
  }

  ghost predicate PopStep(s: State, s': State, t: nat) {
    || CallPop(s, s', t) || PopLoads(s, s', t) || PopSets(s, s', t) || PopChecks(s, s', t)
    || PopReads(s, s', t) || Pops(s, s', t) || RetrySets(s, s', t) || RetryLoads(s, s', t)
    || Return(s, s', t) || ClearHazard(s, s', t)
  }

  ghost predicate ReclaimStep(s: State, s': State, t: nat) {
    || (exists n :: Retire(s, s', t, n)) || StartReclaim(s, s', t) || ScanSlot(s, s', t)
    || (exists n :: Destroys(s, s', t, n)) || EndReclaim(s, s', t)
  }

  ghost predicate Step(s: State, s': State, t: nat) {
    PushStep(s, s', t) || PopStep(s, s', t) || ReclaimStep(s, s', t)
  }

  ghost predicate Next(s: State, s': State) {
    (exists t :: Step(s, s', t)) || Register(s, s')
  }

  ghost predicate StepAt(run: seq<State>, i: nat) {
    i + 1 < |run| && Next(run[i], run[i + 1])
  }

  ghost predicate IsRun(run: seq<State>) {
    |run| > 0 && Init(run[0]) && forall i: nat | i + 1 < |run| :: StepAt(run, i)
  }

  // ----- invariant

  /** Thread t has published n and then found it on top: it is about to read the node, or to rely on
      what it has read. */
  predicate Protects(s: State, t: nat, n: Node) {
    t < |s.pcs| && ((s.pcs[t].PopNext? && s.pcs[t].e == n) || (s.pcs[t].PopCas? && s.pcs[t].e == n))
  }

  /** Every hazard is cached, the last one perhaps in the word behind the cache. */
  predicate AllCached(s: State) {
    |s.slots| <= s.cacheSize + 1
  }

  ghost predicate Shape(s: State) {
    && Linked(s) && |s.pcs| == |s.slots| == |s.pending| && |s.status| == |s.next|
    && (forall n: nat | n < |s.status| :: s.status[n].InStack? <==> n in s.stack)
  }

  ghost predicate PushInv(s: State, t: nat)
    requires t < |s.pcs|
  {
    var pc := s.pcs[t];
    && (pc.PushLoad? || pc.PushLink? || pc.PushCas? ==> pc.n < |s.status| && s.status[pc.n] == Pushing(t))
    && (pc.PushCas? ==> pc.n < |s.next| && s.next[pc.n] == pc.seen)
  }

  /** A node that may still be read: in the stack, or out of it and not yet destroyed. */
  predicate Readable(s: State, n: Node) {
    n < |s.status| && (s.status[n].InStack? || s.status[n].Popped? || s.status[n].Retired?)
  }

  ghost predicate PopInv(s: State, t: nat)
    requires t < |s.pcs|
  {
    var pc := s.pcs[t];
    && (pc.PopCheck? ==> t < |s.slots| && s.slots[t] == Some(pc.e))
    && (pc.RetryLoad? ==> t < |s.slots| && s.slots[t] == pc.u)
    && (pc.PopNext? || pc.PopCas? ==> t < |s.slots| && s.slots[t] == Some(pc.e) && Readable(s, pc.e))
    && (pc.PopCas? ==> pc.e < |s.next| && pc.succ == s.next[pc.e])
  }

  ghost predicate PendingInv(s: State, t: nat)
    requires t < |s.pending|
  {
    forall n | n in s.pending[t] :: n < |s.status| && s.status[n] == Retired(t)
  }

  ghost predicate ScanInv(s: State, t: nat)
    requires t < |s.pcs| == |s.slots| == |s.pending|
  {
    var pc := s.pcs[t];
    && (pc.Scan? ==>
          && pc.at + pc.hazards <= |s.slots|
          && forall u: nat, n: nat | Protects(s, u, n) && n in s.pending[t] :: u < pc.at || n in pc.cache)
    && (pc.Sweep? ==>
          forall u: nat, n: nat | Protects(s, u, n) && n in s.pending[t] :: n in pc.cache)
  }

  ghost predicate Inv(s: State) {
    && Shape(s)
    && (forall t: nat | t < |s.pcs| :: PushInv(s, t))
    && (forall t: nat | t < |s.pcs| :: PopInv(s, t))
    && (forall t: nat | t < |s.pcs| :: PendingInv(s, t))
    && (forall t: nat | t < |s.pcs| :: ScanInv(s, t))
  }

  lemma InitHolds(s: State)
    requires Init(s)
    ensures Inv(s)
  {}

  /** A reclaim in progress is not disturbed as long as nothing it may destroy becomes protected. */
  lemma ScanStill(s: State, s': State, u: nat)
    requires u < |s.pcs| == |s.slots| == |s.pending| <= |s'.pcs| == |s'.slots| == |s'.pending|
    requires ScanInv(s, u) && (s'.pcs[u] == s.pcs[u] || (!s'.pcs[u].Scan? && !s'.pcs[u].Sweep?))
    requires forall v: nat, n: nat ::
               Protects(s', v, n) && n in s'.pending[u] && (s.pcs[u].Scan? || s.pcs[u].Sweep?) ==>
                 Protects(s, v, n) && n in s.pending[u]
    ensures ScanInv(s', u)
  {}

  // ----- steps that only move a thread on

  /** No memory changes, and nothing new is protected. */
  lemma MoveKeeps(s: State, s': State, t: nat, pc: Pc)
    requires Inv(s) && At(s, t) && s' == Go(s, t, pc).(overwritten := s'.overwritten)
    requires PushInv(s', t) && PopInv(s', t) && ScanInv(s', t)
    requires forall n: nat :: Protects(s', t, n) ==> Protects(s, t, n) || (n < |s.status| && s.status[n].InStack?)
    ensures Inv(s')
  {
    forall u: nat | u < |s'.pcs| ensures PushInv(s', u) && PopInv(s', u) && PendingInv(s', u) {
      assert PushInv(s, u) && PopInv(s, u) && PendingInv(s, u);
    }
    forall u: nat | u < |s'.pcs| ensures ScanInv(s', u) {
      assert ScanInv(s, u) && PendingInv(s, u);
      if u != t { ScanStill(s, s', u); }
    }
  }

  lemma PopMoveKeeps(s: State, s': State, t: nat)
    requires Inv(s)
    requires || CallPop(s, s', t) || PopLoads(s, s', t) || PopChecks(s, s', t) || PopReads(s, s', t)
             || RetryLoads(s, s', t) || Return(s, s', t) || PushLoads(s, s', t)
    ensures Inv(s')
  {
    assert PushInv(s, t) && PopInv(s, t);
    MoveKeeps(s, s', t, s'.pcs[t]);
  }

  lemma ReclaimMoveKeeps(s: State, s': State, t: nat)
    requires Inv(s) && (StartReclaim(s, s', t) || EndReclaim(s, s', t))
    ensures Inv(s')
  {
    assert PushInv(s, t) && PopInv(s, t);
    forall u: nat, n: nat | Protects(s', u, n) ensures Protects(s, u, n) {}
    MoveKeeps(s, s', t, s'.pcs[t]);
  }

  lemma ScanSlotKeeps(s: State, s': State, t: nat)
    requires Inv(s) && AllCached(s) && ScanSlot(s, s', t)
    ensures Inv(s')
  {
    var pc := s.pcs[t];
    assert ScanInv(s, t);
    forall u: nat, n: nat | Protects(s', u, n) ensures Protects(s, u, n) && s.slots[u] == Some(n) {
      assert PopInv(s, u);
    }
    MoveKeeps(s, s', t, s'.pcs[t]);
  }

  // ----- steps that store

  lemma SlotStoreKeeps(s: State, s': State, t: nat)
    requires Inv(s) && (PopSets(s, s', t) || RetrySets(s, s', t) || ClearHazard(s, s', t))
    ensures Inv(s')
  {
    forall u: nat | u < |s'.pcs| ensures PushInv(s', u) && PopInv(s', u) && PendingInv(s', u) {
      assert PushInv(s, u) && PopInv(s, u) && PendingInv(s, u);
    }
    forall u: nat | u < |s'.pcs| ensures ScanInv(s', u) {
      assert ScanInv(s, u);
      ScanStill(s, s', u);
    }
  }

  lemma RegisterKeeps(s: State, s': State)
    requires Inv(s) && Register(s, s')
    ensures Inv(s')
  {
    forall u: nat | u < |s'.pcs| ensures PushInv(s', u) && PopInv(s', u) && PendingInv(s', u) && ScanInv(s', u) {
      if u < |s.pcs| {
        assert PushInv(s, u) && PopInv(s, u) && PendingInv(s, u) && ScanInv(s, u);
        ScanStill(s, s', u);
      }
    }
  }

  lemma CallPushKeeps(s: State, s': State, t: nat, n: Node)
    requires Inv(s) && CallPush(s, s', t, n)
    ensures Inv(s')
  {
    forall u: nat | u < |s'.pcs| ensures PushInv(s', u) && PopInv(s', u) && PendingInv(s', u) && ScanInv(s', u) {
      assert PushInv(s, u) && PopInv(s, u) && PendingInv(s, u) && ScanInv(s, u);
      ScanStill(s, s', u);
    }
  }

  /** A node that is being pushed is in nobody else's way. */
  lemma PushLinksKeeps(s: State, s': State, t: nat)
    requires Inv(s) && PushLinks(s, s', t)
    ensures Inv(s')
  {
    assert PushInv(s, t);
    forall u: nat | u < |s'.pcs| ensures PushInv(s', u) && PopInv(s', u) && PendingInv(s', u) && ScanInv(s', u) {
      assert PushInv(s, u) && PopInv(s, u) && PendingInv(s, u) && ScanInv(s, u);
      ScanStill(s, s', u);
    }
    assert Linked(s');
  }

  lemma PushesKeeps(s: State, s': State, t: nat)
    requires Inv(s) && Pushes(s, s', t)
    ensures Inv(s')
  {
    assert PushInv(s, t);
    forall u: nat | u < |s'.pcs| ensures PushInv(s', u) && PopInv(s', u) && PendingInv(s', u) && ScanInv(s', u) {
      assert PushInv(s, u) && PopInv(s, u) && PendingInv(s, u) && ScanInv(s, u);
      ScanStill(s, s', u);
    }
    if s.head == s.pcs[t].seen {
      LinkedAfterPush(s, s', s.pcs[t].n);
    }
  }

  lemma LinkedAfterPush(s: State, s': State, n: Node)
    requires Linked(s) && n !in s.stack && n < |s.next| && s.next[n] == s.head
    requires s'.stack == [n] + s.stack && s'.head == Some(n) && s'.next == s.next
    ensures Linked(s')
  {
    assert s'.stack[1..] == s.stack;
    forall i | 0 <= i < |s'.stack| ensures s'.stack[i] < |s'.next| && s'.next[s'.stack[i]] == Top(s'.stack[i + 1..]) {
      if i > 0 { assert s'.stack[i + 1..] == s.stack[i..]; }
    }
  }

  lemma LinkedAfterPop(s: State, s': State)
    requires Linked(s) && s.stack != []
    requires s'.stack == s.stack[1..] && s'.head == s.next[s.stack[0]] && s'.next == s.next
    ensures Linked(s')
  {
    forall i | 0 <= i < |s'.stack| ensures s'.stack[i] < |s'.next| && s'.next[s'.stack[i]] == Top(s'.stack[i + 1..]) {
      assert s'.stack[i + 1..] == s.stack[i + 2..];
    }
  }

  /** The node on top is the one that was validated, and its successor is the one that was read. */
  lemma PopsTop(s: State, t: nat)
    requires Inv(s) && At(s, t) && s.pcs[t].PopCas? && s.head == Some(s.pcs[t].e)
    ensures s.stack != [] && s.stack[0] == s.pcs[t].e && s.pcs[t].succ == Top(s.stack[1..])
    ensures s.status[s.pcs[t].e].InStack?
  {
    assert PopInv(s, t);
    assert s.stack[0] in s.stack;
  }

  lemma PopKeepsShape(s: State, s': State, t: nat)
    requires Inv(s) && Pops(s, s', t)
    ensures Shape(s')
    ensures |s'.status| == |s.status| && s'.next == s.next && s'.slots == s.slots && s'.pending == s.pending
    ensures s'.status == s.status || (Readable(s, s.pcs[t].e) && s'.status == s.status[s.pcs[t].e := Popped(t)]
                                      && s.status[s.pcs[t].e].InStack?)
    ensures forall u: nat, n: nat | Protects(s', u, n) :: Protects(s, u, n)
    ensures !s'.pcs[t].PopNext? && !s'.pcs[t].PopCas? && !s'.pcs[t].PopCheck? && !s'.pcs[t].RetryLoad?
  {
    var e := s.pcs[t].e;
    if s.head == Some(e) {
      PopsTop(s, t);
      LinkedAfterPop(s, s');
      forall n: nat | n < |s'.status| ensures s'.status[n].InStack? <==> n in s'.stack {
        if n in s.stack && n != e { assert n in s.stack[1..]; }
      }
    }
  }

  lemma PopsKeeps(s: State, s': State, t: nat)
    requires Inv(s) && Pops(s, s', t)
    ensures Inv(s')
  {
    PopKeepsShape(s, s', t);
    hide Linked;
    forall u: nat | u < |s'.pcs| ensures PushInv(s', u) && PopInv(s', u) && PendingInv(s', u) && ScanInv(s', u) {
      assert PushInv(s, u) && PopInv(s, u) && PendingInv(s, u) && ScanInv(s, u);
      ScanStill(s, s', u);
    }
  }

  lemma RetireKeeps(s: State, s': State, t: nat, n: Node)
    requires Inv(s) && Retire(s, s', t, n)
    ensures Inv(s')
  {
    forall u: nat | u < |s'.pcs| ensures PushInv(s', u) && PopInv(s', u) && PendingInv(s', u) && ScanInv(s', u) {
      assert PushInv(s, u) && PopInv(s, u) && PendingInv(s, u) && ScanInv(s, u);
      ScanStill(s, s', u);
    }
  }

  /** A node that is destroyed is protected by nobody. */
  lemma DestroyedIsUnprotected(s: State, s': State, t: nat, n: Node, u: nat)
    requires Inv(s) && Destroys(s, s', t, n)
    ensures !Protects(s, u, n)
  {
    assert ScanInv(s, t);
  }

  lemma DestroysKeeps(s: State, s': State, t: nat, n: Node)
    requires Inv(s) && Destroys(s, s', t, n)
    ensures Inv(s')
  {
    assert PendingInv(s, t);
    forall u: nat | u < |s'.pcs| ensures PushInv(s', u) && PopInv(s', u) && PendingInv(s', u) && ScanInv(s', u) {
      DestroyedIsUnprotected(s, s', t, n, u);
      assert PushInv(s, u) && PopInv(s, u) && PendingInv(s, u) && ScanInv(s, u);
      ScanStill(s, s', u);
    }
  }

  lemma PushStepKeeps(s: State, s': State, t: nat)
    requires Inv(s) && PushStep(s, s', t)
    ensures Inv(s')
  {
    hide Inv;
    if n :| CallPush(s, s', t, n) { CallPushKeeps(s, s', t, n); }
    else if PushLoads(s, s', t) { PopMoveKeeps(s, s', t); }
    else if PushLinks(s, s', t) { PushLinksKeeps(s, s', t); }
    else { PushesKeeps(s, s', t); }
  }

  lemma PopStepKeeps(s: State, s': State, t: nat)
    requires Inv(s) && PopStep(s, s', t)
    ensures Inv(s')
  {
    hide Inv;
    if Pops(s, s', t) { PopsKeeps(s, s', t); }
    else if PopSets(s, s', t) || RetrySets(s, s', t) || ClearHazard(s, s', t) { SlotStoreKeeps(s, s', t); }
    else { PopMoveKeeps(s, s', t); }
  }

  lemma ReclaimStepKeeps(s: State, s': State, t: nat)
    requires Inv(s) && AllCached(s) && ReclaimStep(s, s', t)
    ensures Inv(s')
  {
    hide Inv;
    if n :| Retire(s, s', t, n) { RetireKeeps(s, s', t, n); }
    else if n :| Destroys(s, s', t, n) { DestroysKeeps(s, s', t, n); }
    else if ScanSlot(s, s', t) { ScanSlotKeeps(s, s', t); }
    else { ReclaimMoveKeeps(s, s', t); }
  }

  lemma NextKeeps(s: State, s': State)
    requires Inv(s) && AllCached(s) && Next(s, s')
    ensures Inv(s')
  {
    hide Inv;
    hide PushStep;
    hide PopStep;
    hide ReclaimStep;
    if t :| Step(s, s', t) {
      if PushStep(s, s', t) { PushStepKeeps(s, s', t); }
      else if PopStep(s, s', t) { PopStepKeeps(s, s', t); }
      else { ReclaimStepKeeps(s, s', t); }
    } else {
      RegisterKeeps(s, s');
    }
  }

  // ----- what the stack promises, as long as all hazards are cached

  ghost predicate AlwaysCached(run: seq<State>) {
    forall i: nat | i < |run| :: AllCached(run[i])
  }

  lemma {:induction false} ReachableInv(run: seq<State>, i: nat)
    requires IsRun(run) && AlwaysCached(run) && i < |run|
    ensures Inv(run[i])
  {
    hide Inv;
    hide Next;
    if i == 0 {
      InitHolds(run[0]);
    } else {
      ReachableInv(run, i - 1);
      assert StepAt(run, i - 1) && AllCached(run[i - 1]);
      NextKeeps(run[i - 1], run[i]);
    }
  }

  lemma PopStack(s: State, s': State, t: nat)
    requires Inv(s) && Pops(s, s', t) && s'.pcs[t].PopDone? && s'.pcs[t].result.Some?
    ensures s.stack == [s'.pcs[t].result.value] + s'.stack
  {
    PopsTop(s, t);
    assert s.stack == [s.stack[0]] + s.stack[1..];
  }

  /** No ABA: a pop whose compare-and-swap succeeds takes the top of the stack and installs its true
      successor, however long ago it read the node. */
  lemma PopTakesTheTop(run: seq<State>, i: nat, t: nat)
    requires IsRun(run) && AlwaysCached(run) && i + 1 < |run| && Pops(run[i], run[i + 1], t)
    requires run[i + 1].pcs[t].PopDone? && run[i + 1].pcs[t].result.Some?
    ensures run[i].stack == [run[i + 1].pcs[t].result.value] + run[i + 1].stack
    ensures Linked(run[i + 1])
  {
    hide Next;
    hide IsRun;
    ReachableInv(run, i);
    ReachableInv(run, i + 1);
    PopStack(run[i], run[i + 1], t);
  }

  /** Last in, first out: every other step leaves the stack alone or pushes one node on top, and a pop
      that finds nothing found the stack empty. */
  lemma OtherStepsPushOrLeave(run: seq<State>, i: nat, t: nat)
    requires IsRun(run) && AlwaysCached(run) && i + 1 < |run| && Step(run[i], run[i + 1], t)
    requires !Pops(run[i], run[i + 1], t)
    ensures run[i + 1].stack == run[i].stack
         || (run[i].pcs[t].PushCas? && run[i + 1].pcs[t].Idle? && run[i + 1].stack == [run[i].pcs[t].n] + run[i].stack)
    ensures Linked(run[i + 1])
  {
    hide Next;
    ReachableInv(run, i + 1);
  }

  lemma HeadIsTop(s: State)
    requires Inv(s)
    ensures s.head == Top(s.stack)
  {}

  lemma EmptyMeansEmpty(run: seq<State>, i: nat, t: nat)
    requires IsRun(run) && AlwaysCached(run) && i + 1 < |run| && PopStep(run[i], run[i + 1], t)
    requires run[i + 1].pcs[t] == PopDone(None) && run[i].pcs[t] != PopDone(None)
    ensures run[i].stack == []
  {
    hide Next;
    hide IsRun;
    hide Inv;
    ReachableInv(run, i);
    HeadIsTop(run[i]);
  }

  /** Reclamation destroys no node that a popper has validated and still relies on. */
  lemma ReclaimSparesProtectedNodes(run: seq<State>, i: nat, t: nat, n: Node, u: nat)
    requires IsRun(run) && AlwaysCached(run) && i + 1 < |run| && Destroys(run[i], run[i + 1], t, n)
    ensures !Protects(run[i], u, n)
  {
    hide Next;
    ReachableInv(run, i);
    DestroyedIsUnprotected(run[i], run[i + 1], t, n, u);
  }

  /** Whenever a popper reads a node, the node has not been destroyed, let alone been reused. */
  lemma ReadsAreSafe(run: seq<State>, i: nat, t: nat, n: Node)
    requires IsRun(run) && AlwaysCached(run) && i < |run| && Protects(run[i], t, n)
    ensures Readable(run[i], n)
  {
    ReachableInv(run, i);
    assert PopInv(run[i], t);
  }
}
