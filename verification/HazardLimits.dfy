/** How many threads the hazard cache of ck_hp.c is good for: exactly as many as it has entries. */
module HazardLimits {
  import opened Wrappers
  import opened HazardStack

  // ----- within the limit

  /** A run of at most m registered threads, with a cache of n entries. */
  ghost predicate Bounded(run: seq<State>, m: nat, n: nat) {
    IsRun(run) && forall i: nat | i < |run| :: |run[i].slots| <= m && run[i].cacheSize == n
  }

  /** Nothing is written past the end of a cache. */
  ghost predicate StaysInside(run: seq<State>) {
    forall i: nat | i < |run| :: run[i].overwritten == {}
  }

  /** No node is destroyed that a popper has validated and still relies on. */
  ghost predicate SparesProtected(run: seq<State>) {
    forall i: nat, t: nat, node: Node, u: nat :: !DestroysUnder(run, i, t, node, u)
  }

  /** At step i thread t destroys a node under popper u. */
  ghost predicate DestroysUnder(run: seq<State>, i: nat, t: nat, node: Node, u: nat) {
    i + 1 < |run| && Destroys(run[i], run[i + 1], t, node) && Protects(run[i], u, node)
  }

  lemma NothingWrittenPast(s: State, s': State)
    requires Inv(s) && |s.slots| <= s.cacheSize && Next(s, s')
    ensures s'.overwritten == s.overwritten
  {
    if t: nat :| ScanSlot(s, s', t) {
      assert ScanInv(s, t);
    }
  }

  lemma {:induction false} EnoughStaysInside(run: seq<State>, m: nat, n: nat, i: nat)
    requires Bounded(run, m, n) && m <= n && i < |run|
    ensures run[i].overwritten == {}
  {
    hide Next;
    hide Inv;
    if i > 0 {
      EnoughStaysInside(run, m, n, i - 1);
      ReachableInv(run, i - 1);
      assert StepAt(run, i - 1);
      NothingWrittenPast(run[i - 1], run[i]);
    }
  }

  lemma EnoughSpares(run: seq<State>, m: nat, n: nat)
    requires Bounded(run, m, n) && m <= n + 1
    ensures SparesProtected(run)
  {
    hide IsRun;
    forall i: nat, t: nat, node: Node, u: nat ensures !DestroysUnder(run, i, t, node, u) {
      if DestroysUnder(run, i, t, node, u) {
        ReclaimSparesProtectedNodes(run, i, t, node, u);
      }
    }
  }

  // ----- beyond it: building a run of any number of threads

  /** s ends a run of at most m threads. */
  ghost predicate Reached(s: State, m: nat, n: nat) {
    exists run: seq<State> :: Bounded(run, m, n) && run[|run| - 1] == s
  }

  lemma Extended(run: seq<State>, s': State, t: nat, m: nat, n: nat)
    requires Bounded(run, m, n) && Step(run[|run| - 1], s', t) && |s'.slots| <= m && s'.cacheSize == n
    ensures Bounded(run + [s'], m, n)
  {
    hide Step;
    hide Init;
    var longer := run + [s'];
    forall i: nat | i + 1 < |longer| ensures StepAt(longer, i) {
      if i + 1 < |run| { assert StepAt(run, i); }
    }
  }

  lemma Goes(s: State, s': State, t: nat, m: nat, n: nat)
    requires Reached(s, m, n) && Step(s, s', t) && |s'.slots| == |s.slots| && s'.cacheSize == s.cacheSize
    ensures Reached(s', m, n)
  {
    hide Step;
    var run: seq<State> :| Bounded(run, m, n) && run[|run| - 1] == s;
    Extended(run, s', t, m, n);
    assert (run + [s'])[|run + [s']| - 1] == s';
  }

  /** The same for the steps that come one by one below. */
  lemma GoesOn(s: State, s': State, t: nat, m: nat, n: nat)
    requires Reached(s, m, n) && |s'.slots| == |s.slots| && s'.cacheSize == s.cacheSize
    requires || PopChecks(s, s', t) || Retire(s, s', t, 0) || StartReclaim(s, s', t) || ScanSlot(s, s', t)
             || Destroys(s, s', t, 0)
    ensures Reached(s', m, n) && Step(s, s', t)
  {
    hide Reached;
    if PopChecks(s, s', t) { assert PopStep(s, s', t); } else { assert ReclaimStep(s, s', t); }
    Goes(s, s', t, m, n);
  }

  /** Thread t begins to pop: its hazard is the node on top. */
  ghost function Published(s: State, t: nat): State
    requires At(s, t) && s.head.Some?
  {
    Go(s, t, PopCheck(s.head.value)).(slots := s.slots[t := s.head])
  }

  lemma Publishes(s: State, t: nat, m: nat, n: nat)
    requires Reached(s, m, n) && At(s, t) && s.pcs[t].Idle? && s.head.Some?
    ensures Reached(Published(s, t), m, n)
  {
    hide Reached;
    hide PushStep;
    hide ReclaimStep;
    var a := Go(s, t, PopLoad);
    var b := Go(s, t, PopHazard(s.head.value));
    assert b == Go(a, t, PopHazard(s.head.value)) && Published(s, t) == Published(b, t);
    assert CallPop(s, a, t) && Step(s, a, t);
    assert PopLoads(a, b, t) && Step(a, b, t);
    assert PopSets(b, Published(s, t), t) && Step(b, Published(s, t), t);
    hide Step;
    Goes(s, a, t, m, n);
    Goes(a, b, t, m, n);
    Goes(b, Published(s, t), t, m, n);
  }

  /** Thread t pops the node on top; its hazard stays set. */
  ghost function Popped(s: State, t: nat): State
    requires At(s, t) && s.head.Some? && s.stack != [] && s.head.value < |s.next|
  {
    s.(slots := s.slots[t := s.head], head := s.next[s.head.value], stack := s.stack[1..],
       status := s.status[s.head.value := Status.Popped(t)])
  }

  lemma Pops(s: State, t: nat, m: nat, n: nat)
    requires Reached(s, m, n) && At(s, t) && s.pcs[t].Idle? && s.head.Some? && s.stack != [] && s.head.value < |s.next|
    ensures Reached(Popped(s, t), m, n)
  {
    hide Reached;
    hide PushStep;
    hide ReclaimStep;
    var e := s.head.value;
    var a := Published(s, t);
    var b := Go(a, t, PopNext(e));
    var c := Go(a, t, PopCas(e, s.next[e]));
    var d := Go(Popped(s, t), t, PopDone(Some(e)));
    assert a.pcs[t] == PopCheck(e) && b.pcs[t] == PopNext(e) && c.pcs[t] == PopCas(e, s.next[e]);
    assert PopChecks(a, b, t) && Step(a, b, t);
    assert c == Go(b, t, PopCas(e, s.next[e])) && PopReads(b, c, t) && Step(b, c, t);
    assert d == Go(c, t, PopDone(Some(e))).(head := s.next[e], stack := s.stack[1..],
                                            status := s.status[e := Status.Popped(t)]);
    assert HazardStack.Pops(c, d, t) && Step(c, d, t);
    assert Popped(s, t) == Go(d, t, Idle) && Return(d, Popped(s, t), t) && Step(d, Popped(s, t), t);
    hide Step;
    Publishes(s, t, m, n);
    Goes(a, b, t, m, n);
    Goes(b, c, t, m, n);
    Goes(c, d, t, m, n);
    Goes(d, Popped(s, t), t, m, n);
  }

  /** Threads lo .. hi - 1 begin to pop. */
  ghost function AllPublished(s: State, lo: nat, hi: nat): State
    requires lo <= hi <= |s.pcs| == |s.slots| && s.head.Some?
  {
    s.(slots := seq(|s.slots|, u requires 0 <= u < |s.slots| => if lo <= u < hi then s.head else s.slots[u]),
       pcs := seq(|s.pcs|, u requires 0 <= u < |s.pcs| => if lo <= u < hi then PopCheck(s.head.value) else s.pcs[u]))
  }

  lemma {:induction false} AllPublish(s: State, lo: nat, hi: nat, m: nat, n: nat)
    requires Reached(s, m, n) && |s.status| == |s.next| && s.head.Some?
    requires lo <= hi <= |s.pcs| == |s.slots| == |s.pending|
    requires forall u | lo <= u < hi :: s.pcs[u].Idle?
    ensures Reached(AllPublished(s, lo, hi), m, n)
    decreases hi
  {
    hide Reached;
    if lo == hi {
      assert AllPublished(s, lo, hi) == s;
    } else {
      AllPublish(s, lo, hi - 1, m, n);
      var before := AllPublished(s, lo, hi - 1);
      Publishes(before, hi - 1, m, n);
      assert AllPublished(s, lo, hi) == Published(before, hi - 1);
    }
  }

  /** Thread t has counted h hazards, all of them `node`, and the subscribers below `at` are to be scanned. */
  ghost function Scanning(s: State, t: nat, at: nat, node: Node, h: nat): State
    requires t < |s.pcs|
  {
    Go(s, t, Scan(at, if h > 0 then {node} else {}, h)).(overwritten := if h > s.cacheSize then {t} else {})
  }

  lemma ScansOne(s: State, t: nat, at: nat, node: Node, h: nat)
    requires At(s, t) && at < |s.slots| && s.slots[at] == Some(node) && h <= s.cacheSize
    ensures ScanSlot(Scanning(s, t, at + 1, node, h), Scanning(s, t, at, node, h + 1), t)
  {
    assert {node} + {node} == {node} && {} + {node} == {node};
  }

  lemma {:induction false} ScansDown(s: State, t: nat, at: nat, node: Node, h: nat, m: nat, n: nat)
    requires At(s, t) && at + h <= |s.slots| && Reached(Scanning(s, t, at + h, node, 0), m, n) && h <= s.cacheSize + 1
    requires forall u | at <= u < at + h :: s.slots[u] == Some(node)
    ensures Reached(Scanning(s, t, at, node, h), m, n)
    decreases h
  {
    hide Reached;
    if h > 0 {
      ScansDown(s, t, at + 1, node, h - 1, m, n);
      ScansOne(s, t, at, node, h - 1);
      assert ReclaimStep(Scanning(s, t, at + 1, node, h - 1), Scanning(s, t, at, node, h), t);
      assert Step(Scanning(s, t, at + 1, node, h - 1), Scanning(s, t, at, node, h), t);
      hide Step;
      Goes(Scanning(s, t, at + 1, node, h - 1), Scanning(s, t, at, node, h), t, m, n);
    }
  }

  // ----- the run

  /** Two nodes on the stack, and k + 2 threads. */
  ghost function Start(k: nat, n: nat): State {
    State(Some(0), [Some(1), None], seq(k + 2, _ => None), seq(k + 2, _ => {}), seq(k + 2, _ => Idle), n, {},
          [0, 1], [InStack, InStack])
  }

  lemma StartIsReached(k: nat, m: nat, n: nat)
    requires k + 2 <= m
    ensures Reached(Start(k, n), m, n)
  {
    var s := Start(k, n);
    assert s.stack[1..] == [1] && s.stack[2..] == [];
    assert Bounded([s], m, n) && [s][|[s]| - 1] == s;
  }

  /** Thread 0 has validated node 0. Thread 1 has popped both nodes, and published the second one last,
      which all other threads have published too. It has retired node 0. */
  ghost function Ready(k: nat, n: nat): State {
    State(None, [Some(1), None], [Some(0)] + seq(k + 1, _ => Some(1)),
          [{}, {0}] + seq(k, _ => {}), [PopNext(0), Idle] + seq(k, _ => PopCheck(1)), n, {},
          [], [Retired(1), Status.Popped(1)])
  }

  lemma ReadyIsReached(k: nat, m: nat, n: nat)
    requires k + 2 <= m
    ensures Reached(Ready(k, n), m, n)
  {
    hide Reached;
    hide Step;
    StartIsReached(k, m, n);
    var a := Start(k, n);
    Publishes(a, 0, m, n);
    var b := Published(a, 0);
    var c := Go(b, 0, PopNext(0));
    GoesOn(b, c, 0, m, n);
    Pops(c, 1, m, n);
    var d := Popped(c, 1);
    AllPublish(d, 2, k + 2, m, n);
    var e := AllPublished(d, 2, k + 2);
    Pops(e, 1, m, n);
    var f := Popped(e, 1);
    var g := f.(pending := f.pending[1 := f.pending[1] + {0}], status := f.status[0 := Retired(1)]);
    GoesOn(f, g, 1, m, n);
    assert [0, 1][1..] == [1] && [1][1..] == [];
    assert {} + {0} == {0};
    assert g.slots == Ready(k, n).slots;
    assert g.pending == Ready(k, n).pending;
    assert g.pcs == Ready(k, n).pcs;
    assert g == Ready(k, n);
  }

  /** Thread 1 reclaims: it has found the hazards of all threads but thread 0. */
  lemma AllButOneScanned(k: nat, m: nat, n: nat)
    requires k + 2 <= m && k <= n
    ensures Reached(Scanning(Ready(k, n), 1, 1, 1, k + 1), m, n)
  {
    hide Reached;
    hide Step;
    var s := Ready(k, n);
    ReadyIsReached(k, m, n);
    GoesOn(s, Scanning(s, 1, k + 2, 1, 0), 1, m, n);
    ScansDown(s, 1, 1, 1, k + 1, m, n);
  }

  lemma EndsOverwritten(s: State, m: nat, n: nat)
    requires Reached(s, m, n) && 1 in s.overwritten
    ensures exists run: seq<State> :: Bounded(run, m, n) && !StaysInside(run)
  {
    hide Init;
    hide Next;
    var run: seq<State> :| Bounded(run, m, n) && run[|run| - 1] == s;
    assert 1 in run[|run| - 1].overwritten;
  }

  lemma EndsDestroying(s: State, s': State, m: nat, n: nat)
    requires Reached(s, m, n) && Step(s, s', 1) && |s'.slots| <= m && s'.cacheSize == n
    requires Destroys(s, s', 1, 0) && Protects(s, 0, 0)
    ensures exists run: seq<State> :: Bounded(run, m, n) && !SparesProtected(run)
  {
    hide Step;
    hide Init;
    hide Next;
    hide Destroys;
    hide Protects;
    var run: seq<State> :| Bounded(run, m, n) && run[|run| - 1] == s;
    Extended(run, s', 1, m, n);
    assert DestroysUnder(run + [s'], |run| - 1, 1, 0, 0);
  }

  lemma LastHazard(n: nat) returns (s: State, s': State)
    requires 1 <= n
    ensures s == Scanning(Ready(n - 1, n), 1, 1, 1, n) && ScanSlot(s, s', 1) && 1 in s'.overwritten
    ensures |s'.slots| == |s.slots| && s'.cacheSize == s.cacheSize
  {
    s := Scanning(Ready(n - 1, n), 1, 1, 1, n);
    s' := Go(s, 1, Scan(0, {1} + {0}, n + 1)).(overwritten := {1});
  }

  /** With one thread more than the cache has entries, a reclaim writes past the cache. */
  lemma OverflowWritesPast(n: nat)
    requires 1 <= n
    ensures exists run: seq<State> :: Bounded(run, n + 1, n) && !StaysInside(run)
  {
    hide Reached;
    hide Step;
    hide StaysInside;
    hide Bounded;
    hide ScanSlot;
    hide Ready;
    hide Scanning;
    AllButOneScanned(n - 1, n + 1, n);
    var s, s' := LastHazard(n);
    GoesOn(s, s', 1, n + 1, n);
    EndsOverwritten(s', n + 1, n);
  }

  /** With two threads more, the full cache hides a hazard: a reclaim destroys a node under the popper
      that has validated it. */
  lemma OverflowIsUnsafe(n: nat)
    ensures exists run: seq<State> :: Bounded(run, n + 2, n) && !SparesProtected(run)
  {
    hide Reached;
    hide Step;
    hide SparesProtected;
    hide Bounded;
    hide Ready;
    hide Scanning;
    hide Protects;
    hide ScanSlot;
    hide Destroys;
    AllButOneScanned(n, n + 2, n);
    var a, b, c, d := LastHazardIsHidden(n);
    GoesOn(a, b, 1, n + 2, n);
    GoesOn(b, c, 1, n + 2, n);
    GoesOn(c, d, 1, n + 2, n);
    EndsDestroying(c, d, n + 2, n);
  }

  lemma LastHazardIsHidden(n: nat) returns (a: State, b: State, c: State, d: State)
    ensures a == Scanning(Ready(n, n), 1, 1, 1, n + 1)
    ensures ScanSlot(a, b, 1) && ScanSlot(b, c, 1) && Destroys(c, d, 1, 0) && Protects(c, 0, 0)
    ensures |a.slots| == |b.slots| == |c.slots| == |d.slots| == n + 2
    ensures a.cacheSize == b.cacheSize == c.cacheSize == d.cacheSize == n
  {
    a := Scanning(Ready(n, n), 1, 1, 1, n + 1);
    b := Go(a, 1, Scan(0, {1}, n + 1));
    c := Go(a, 1, Sweep({1}));
    d := c.(pending := c.pending[1 := c.pending[1] - {0}], status := c.status[0 := Free]);
    assert b.pcs[1] == Scan(0, {1}, n + 1) && a.pcs[1] == Scan(1, {1}, n + 1);
  }

  // ----- the exact condition

  /** Reclamation is safe with at most m registered threads. */
  ghost predicate Safe(m: nat, n: nat) {
    forall run: seq<State> | Bounded(run, m, n) :: StaysInside(run) && SparesProtected(run)
  }

  lemma MoreThreadsAllowed(run: seq<State>, k: nat, m: nat, n: nat)
    requires Bounded(run, k, n) && k <= m
    ensures Bounded(run, m, n)
  {
    hide IsRun;
  }

  /** In every run with at most m registered threads nothing is written past the cache and no protected
      node is destroyed, if and only if m is at most the number of its entries. */
  lemma SafeExactlyWithinCache(m: nat, n: nat)
    requires 1 <= n
    ensures Safe(m, n) <==> m <= n
  {
    hide IsRun;
    if m <= n {
      forall run: seq<State> | Bounded(run, m, n) ensures StaysInside(run) && SparesProtected(run) {
        forall i: nat | i < |run| ensures run[i].overwritten == {} { EnoughStaysInside(run, m, n, i); }
        EnoughSpares(run, m, n);
      }
    } else {
      OverflowWritesPast(n);
      var run: seq<State> :| Bounded(run, n + 1, n) && !StaysInside(run);
      MoreThreadsAllowed(run, n + 1, m, n);
    }
  }

  /** The word behind the cache still serves as an entry for the reclaim that overwrites it: nodes are
      destroyed too early if and only if two threads more than entries may be registered. */
  lemma SparesExactlyWithOneMore(m: nat, n: nat)
    ensures (forall run: seq<State> | Bounded(run, m, n) :: SparesProtected(run)) <==> m <= n + 1
  {
    hide IsRun;
    if m <= n + 1 {
      forall run: seq<State> | Bounded(run, m, n) ensures SparesProtected(run) { EnoughSpares(run, m, n); }
    } else {
      OverflowIsUnsafe(n);
      var run: seq<State> :| Bounded(run, n + 2, n) && !SparesProtected(run);
      MoreThreadsAllowed(run, n + 2, m, n);
    }
  }
}
