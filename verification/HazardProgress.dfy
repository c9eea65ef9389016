/** What push, pop and reclaim of the hazard-pointer stack come to when nobody interferes, in whatever state the
    others are. */
module HazardProgress {
  import opened Wrappers
  import opened HazardStack

  /** Consecutive steps of thread t. */
  ghost predicate IsPath(path: seq<State>, t: nat) {
    |path| > 0 && forall i | 0 <= i < |path| - 1 :: Step(path[i], path[i + 1], t)
  }

  ghost function End(path: seq<State>): State
    requires |path| > 0
  {
    path[|path| - 1]
  }

  lemma Extended(path: seq<State>, t: nat, s': State)
    requires IsPath(path, t) && Step(End(path), s', t)
    ensures IsPath(path + [s'], t) && End(path + [s']) == s' && (path + [s'])[0] == path[0]
  {
    hide Step;
    var longer := path + [s'];
    forall i | 0 <= i < |longer| - 1 ensures Step(longer[i], longer[i + 1], t) {
      if i < |path| - 1 { assert Step(path[i], path[i + 1], t); }
    }
  }

  // ----- push

  /** A push puts its node on top. */
  lemma PushAlone(run: seq<State>, i: nat, t: nat, n: Node) returns (path: seq<State>)
    requires IsRun(run) && AlwaysCached(run) && i < |run| && t < |run[i].pcs| && run[i].pcs[t].Idle?
    requires n < |run[i].status| && run[i].status[n].Free?
    ensures IsPath(path, t) && path[0] == run[i]
    ensures var s, s' := run[i], End(path);
            && s'.pcs == s.pcs && s'.stack == [n] + s.stack && s'.status == s.status[n := InStack] && s'.head == Some(n)
            && s'.slots == s.slots && s'.pending == s.pending
  {
    hide Next;
    ReachableInv(run, i);
    hide IsRun;
    var s := run[i];
    assert |s.pcs| == |s.slots| == |s.pending| && |s.status| == |s.next|;
    hide Inv;
    hide PopStep;
    hide ReclaimStep;
    var a := Go(s, t, PushLoad(n)).(status := s.status[n := Pushing(t)]);
    var b := Go(a, t, PushLink(n, s.head));
    var c := Go(b, t, PushCas(n, s.head)).(next := s.next[n := s.head]);
    var d := Go(c, t, Idle).(head := Some(n), stack := [n] + s.stack, status := a.status[n := InStack]);
    assert CallPush(s, a, t, n) && PushLoads(a, b, t) && PushLinks(b, c, t) && Pushes(c, d, t);
    assert Step(s, a, t) && Step(a, b, t) && Step(b, c, t) && Step(c, d, t);
    hide Step;
    Extended([s], t, a);
    Extended([s] + [a], t, b);
    Extended([s] + [a] + [b], t, c);
    Extended([s] + [a] + [b] + [c], t, d);
    path := [s] + [a] + [b] + [c] + [d];
    assert d.pcs == s.pcs && d.status == s.status[n := InStack];
  }

  // ----- pop

  /** A pop returns nothing exactly on the empty stack, and takes the node on top otherwise. */
  lemma PopAlone(run: seq<State>, i: nat, t: nat) returns (path: seq<State>)
    requires IsRun(run) && AlwaysCached(run) && i < |run| && t < |run[i].pcs| && run[i].pcs[t].Idle?
    ensures IsPath(path, t) && path[0] == run[i]
    ensures var s, s' := run[i], End(path);
            && s'.pcs == s.pcs[t := PopDone(Top(s.stack))] && s'.pending == s.pending
            && s'.stack == if s.stack == [] then [] else s.stack[1..]
    ensures var s, s' := run[i], End(path);
            s.stack != [] ==> s.stack[0] < |s.status| && s'.status == s.status[s.stack[0] := Popped(t)]
  {
    hide Next;
    ReachableInv(run, i);
    hide IsRun;
    var s := run[i];
    assert |s.pcs| == |s.slots| == |s.pending| && |s.status| == |s.next|;
    HeadIsTop(s);
    var a := Go(s, t, PopLoad);
    assert CallPop(s, a, t) && Step(s, a, t);
    Extended([s], t, a);
    if s.stack == [] {
      var b := Go(a, t, PopDone(None));
      assert PopLoads(a, b, t) && Step(a, b, t);
      Extended([s] + [a], t, b);
      path := [s] + [a] + [b];
      assert b.pcs == s.pcs[t := PopDone(None)];
    } else {
      assert s.stack[0] < |s.next|;
      path := TakesTop(s, a, t, s.stack[0]);
    }
  }

  lemma TakesTop(s: State, a: State, t: nat, e: Node) returns (path: seq<State>)
    requires |s.pcs| == |s.slots| == |s.pending| && |s.status| == |s.next| && t < |s.pcs| && e < |s.next|
    requires a == Go(s, t, PopLoad) && IsPath([s] + [a], t) && s.stack != [] && s.head == Some(e)
    ensures IsPath(path, t) && path[0] == s
    ensures var s' := End(path);
            && s'.pcs == s.pcs[t := PopDone(Some(e))] && s'.pending == s.pending && s'.stack == s.stack[1..]
            && s'.status == s.status[e := Popped(t)]
  {
    hide PushStep;
    hide ReclaimStep;
    var b := Go(a, t, PopHazard(e));
    var c := Go(b, t, PopCheck(e)).(slots := b.slots[t := Some(e)]);
    var d := Go(c, t, PopNext(e));
    var f := Go(d, t, PopCas(e, s.next[e]));
    var g := Go(f, t, PopDone(Some(e))).(head := s.next[e], stack := s.stack[1..], status := s.status[e := Popped(t)]);
    assert PopLoads(a, b, t) && PopSets(b, c, t) && PopChecks(c, d, t) && PopReads(d, f, t) && Pops(f, g, t);
    assert Step(a, b, t) && Step(b, c, t) && Step(c, d, t) && Step(d, f, t) && Step(f, g, t);
    hide Step;
    Extended([s] + [a], t, b);
    Extended([s] + [a] + [b], t, c);
    Extended([s] + [a] + [b] + [c], t, d);
    Extended([s] + [a] + [b] + [c] + [d], t, f);
    Extended([s] + [a] + [b] + [c] + [d] + [f], t, g);
    path := [s] + [a] + [b] + [c] + [d] + [f] + [g];
    assert g.pcs == s.pcs[t := PopDone(Some(e))];
  }

  // ----- retries

  /** Steps left at most until an undisturbed pop is over, from wherever it is. */
  function PopLeft(head: Option<Node>, pc: Pc): nat {
    match pc
    case PopLoad => 5
    case PopHazard(e) => if head == Some(e) then 4 else 7
    case PopCheck(e) => if head == Some(e) then 3 else 6
    case PopNext(e) => if head == Some(e) then 2 else 8
    case PopCas(e, _) => if head == Some(e) then 1 else 7
    case RetrySet(u, first) => if head.None? then (if first then 4 else 2) else if head == u then 4 else 6
    case RetryLoad(u, first) => if head.None? then (if first then 3 else 1) else if head == u then 3 else 5
    case _ => 0
  }

  predicate Popping(pc: Pc) {
    pc.PopLoad? || pc.PopHazard? || pc.PopCheck? || pc.PopNext? || pc.PopCas? || pc.RetrySet? || pc.RetryLoad?
  }

  /** The next step of a pop. */
  function NextOfPop(s: State, t: nat): State
    requires At(s, t) && Popping(s.pcs[t])
    requires s.pcs[t].PopNext? || s.pcs[t].PopCas? ==> s.pcs[t].e < |s.next|
  {
    var pc := s.pcs[t];
    match pc
    case PopLoad => Go(s, t, if s.head.None? then PopDone(None) else PopHazard(s.head.value))
    case PopHazard(e) => Go(s, t, PopCheck(e)).(slots := s.slots[t := Some(e)])
    case PopCheck(e) => Go(s, t, if s.head == Some(e) then PopNext(e) else PopLoad)
    case PopNext(e) => Go(s, t, PopCas(e, s.next[e]))
    case PopCas(e, succ) =>
      if s.head == Some(e)
      then Go(s, t, PopDone(Some(e))).(head := succ, stack := if s.stack == [] then [] else s.stack[1..],
                                       status := s.status[e := Popped(t)])
      else Go(s, t, if s.head.None? then PopDone(None) else RetrySet(s.head, true))
    case RetrySet(u, first) => Go(s, t, RetryLoad(u, first)).(slots := s.slots[t := u])
    case RetryLoad(u, first) => Go(s, t, if s.head.None? && !first then PopDone(None)
                                         else if u.Some? && s.head == u then PopNext(u.value)
                                         else RetrySet(s.head, false))
  }

  lemma PopGoesOn(s: State, t: nat)
    requires Inv(s) && At(s, t) && Popping(s.pcs[t])
    ensures s.pcs[t].PopNext? || s.pcs[t].PopCas? ==> s.pcs[t].e < |s.next|
    ensures var s' := NextOfPop(s, t);
            && PopStep(s, s', t) && At(s', t)
            && if s'.pcs[t].PopDone?
               then s'.pcs[t].result == Top(s.stack) && s'.stack == if s.stack == [] then [] else s.stack[1..]
               else Popping(s'.pcs[t]) && s'.head == s.head && s'.stack == s.stack
                    && PopLeft(s.head, s'.pcs[t]) < PopLeft(s.head, s.pcs[t])
  {
    assert PopInv(s, t);
    HeadIsTop(s);
    if s.pcs[t].PopCas? && s.head == Some(s.pcs[t].e) { PopsTop(s, t); }
  }

  /** Where an undisturbed pop has got to, seen from s0. */
  ghost predicate PopUnderWay(s0: State, s: State, t: nat) {
    && At(s, t)
    && if Popping(s.pcs[t]) then Inv(s) && AllCached(s) && s.stack == s0.stack
       else s.pcs[t] == PopDone(Top(s0.stack)) && s.stack == if s0.stack == [] then [] else s0.stack[1..]
  }

  lemma PopMoves(s0: State, s: State, t: nat)
    requires PopUnderWay(s0, s, t) && Popping(s.pcs[t])
    ensures s.pcs[t].PopNext? || s.pcs[t].PopCas? ==> s.pcs[t].e < |s.next|
    ensures var s' := NextOfPop(s, t);
            && PopUnderWay(s0, s', t) && Step(s, s', t)
            && (Popping(s'.pcs[t]) ==> PopLeft(s'.head, s'.pcs[t]) < PopLeft(s.head, s.pcs[t]))
  {
    PopGoesOn(s, t);
    hide Inv;
    hide PushStep;
    hide PopStep;
    hide ReclaimStep;
    var s' := NextOfPop(s, t);
    assert Step(s, s', t) && Next(s, s');
    NextKeeps(s, s');
  }

  lemma WhereInPop(s0: State, s: State, t: nat)
    requires PopUnderWay(s0, s, t)
    ensures At(s, t) && (Popping(s.pcs[t]) || s.pcs[t].PopDone?)
    ensures s.pcs[t].PopDone? ==>
              s.pcs[t] == PopDone(Top(s0.stack)) && s.stack == if s0.stack == [] then [] else s0.stack[1..]
    ensures s.pcs[t].PopNext? || s.pcs[t].PopCas? ==> s.pcs[t].e < |s.next|
  {
    if Popping(s.pcs[t]) { assert PopInv(s, t); }
  }

  lemma PopBegins(run: seq<State>, i: nat, t: nat)
    requires IsRun(run) && AlwaysCached(run) && i < |run| && t < |run[i].pcs| && Popping(run[i].pcs[t])
    ensures PopUnderWay(run[i], run[i], t)
  {
    ReachableInv(run, i);
  }

  function PopRank(s: State, t: nat): nat {
    if t < |s.pcs| && Popping(s.pcs[t]) then PopLeft(s.head, s.pcs[t]) else 0
  }

  /** A pop that has begun in whatever way is over after eight more steps of its own at most, and takes the
      node that is on top then, or nothing from the empty stack. */
  lemma PopFinishes(run: seq<State>, i: nat, t: nat) returns (path: seq<State>)
    requires IsRun(run) && AlwaysCached(run) && i < |run| && t < |run[i].pcs| && Popping(run[i].pcs[t])
    ensures IsPath(path, t) && path[0] == run[i] && |path| <= 9
    ensures var s, s' := run[i], End(path);
            && t < |s'.pcs| && s'.pcs[t] == PopDone(Top(s.stack))
            && s'.stack == if s.stack == [] then [] else s.stack[1..]
  {
    hide IsRun;
    hide Step;
    hide Inv;
    hide PopUnderWay;
    var s0, s := run[i], run[i];
    PopBegins(run, i, t);
    WhereInPop(s0, s, t);
    path := [s];
    while !s.pcs[t].PopDone?
      invariant IsPath(path, t) && path[0] == s0 && End(path) == s && At(s, t) && PopUnderWay(s0, s, t)
      invariant Popping(s.pcs[t]) || s.pcs[t].PopDone?
      invariant |path| + PopRank(s, t) <= 9
      decreases if Popping(s.pcs[t]) then 1 + PopRank(s, t) else 0
    {
      hide NextOfPop;
      hide PopLeft;
      PopMoves(s0, s, t);
      var s' := NextOfPop(s, t);
      WhereInPop(s0, s', t);
      Extended(path, t, s');
      path, s := path + [s'], s';
    }
    WhereInPop(s0, s, t);
  }

  /** The same for a push: it is over after four more steps at most, and its node is on top. */
  lemma PushFinishes(run: seq<State>, i: nat, t: nat) returns (path: seq<State>)
    requires IsRun(run) && AlwaysCached(run) && i < |run| && t < |run[i].pcs|
    requires run[i].pcs[t].PushLoad? || run[i].pcs[t].PushLink? || run[i].pcs[t].PushCas?
    ensures IsPath(path, t) && path[0] == run[i] && |path| <= 5
    ensures var s, s' := run[i], End(path); t < |s'.pcs| && s'.pcs[t].Idle? && s'.stack == [s.pcs[t].n] + s.stack
  {
    hide Next;
    ReachableInv(run, i);
    hide IsRun;
    var s0, s := run[i], run[i];
    var n := s.pcs[t].n;
    assert At(s, t) && n < |s.next| by { assert PushInv(s, t); }
    hide Inv;
    path := [s];
    while !s.pcs[t].Idle?
      invariant IsPath(path, t) && path[0] == s0 && End(path) == s && At(s, t) && n < |s.next|
      invariant if s.pcs[t].Idle? then s.stack == [n] + s0.stack
                else (s.pcs[t].PushLoad? || s.pcs[t].PushLink? || s.pcs[t].PushCas?) && s.pcs[t].n == n
                     && s.stack == s0.stack
      invariant |path| + PushLeft(s.head, s.pcs[t]) <= 5
      decreases PushLeft(s.head, s.pcs[t])
    {
      var pc := s.pcs[t];
      var s' := if pc.PushLoad? then Go(s, t, PushLink(n, s.head))
                else if pc.PushLink? then Go(s, t, PushCas(n, pc.seen)).(next := s.next[n := pc.seen])
                else if s.head == pc.seen
                then Go(s, t, Idle).(head := Some(n), stack := [n] + s.stack, status := s.status[n := InStack])
                else Go(s, t, PushLink(n, s.head));
      hide PopStep;
      hide ReclaimStep;
      assert PushLoads(s, s', t) || PushLinks(s, s', t) || Pushes(s, s', t);
      assert Step(s, s', t);
      hide Step;
      Extended(path, t, s');
      path, s := path + [s'], s';
    }
  }

  function PushLeft(head: Option<Node>, pc: Pc): nat {
    match pc
    case PushLoad(_) => 3
    case PushLink(_, seen) => if seen == head then 2 else 4
    case PushCas(_, seen) => if seen == head then 1 else 3
    case _ => 0
  }

  // ----- reclaim

  /** Some hazard pointer from index `at` on is set to n. */
  ghost predicate ShownFrom(slots: seq<Option<Node>>, at: nat, n: Node) {
    exists u: nat :: at <= u < |slots| && slots[u] == Some(n)
  }

  /** The scan of thread t has come down to slot `at`. */
  ghost predicate Scanning(s: State, s': State, t: nat, at: nat) {
    && |s.pcs| == |s'.pcs| && t < |s.pcs| && s'.pcs[t].Scan? && s'.pcs[t].at == at <= |s.slots|
    && s'.pcs[t].hazards + at <= |s.slots|
    && s' == Go(s, t, s'.pcs[t]).(overwritten := s'.overwritten)
    && forall n :: n in s'.pcs[t].cache <==> ShownFrom(s.slots, at, n)
  }

  lemma ScanMoves(s: State, here: State, t: nat, at: nat) returns (next: State)
    requires At(s, t) && AllCached(s) && Scanning(s, here, t, at) && at > 0
    ensures Step(here, next, t) && Scanning(s, next, t, at - 1)
  {
    hide PushStep;
    hide PopStep;
    var pc := here.pcs[t];
    next := Go(here, t, if here.slots[at - 1].None? then Scan(at - 1, pc.cache, pc.hazards)
                        else Scan(at - 1, pc.cache + {here.slots[at - 1].value}, pc.hazards + 1))
             .(overwritten := here.overwritten + if PastTheEnd(here, pc) then {t} else {});
    assert ScanSlot(here, next, t) && ReclaimStep(here, next, t);
    forall n ensures n in next.pcs[t].cache <==> ShownFrom(s.slots, at - 1, n) {
      assert ShownFrom(s.slots, at - 1, n) <==> ShownFrom(s.slots, at, n) || s.slots[at - 1] == Some(n);
    }
  }

  lemma ScansAll(s: State, t: nat) returns (path: seq<State>)
    requires At(s, t) && AllCached(s) && s.pcs[t].Idle? && t !in s.overwritten
    ensures IsPath(path, t) && path[0] == s && Scanning(s, End(path), t, 0)
  {
    var here := Go(s, t, Scan(|s.slots|, {}, 0));
    assert StartReclaim(s, here, t) && ReclaimStep(s, here, t) && Step(s, here, t);
    Extended([s], t, here);
    path := [s] + [here];
    var at: nat := |s.slots|;
    while at > 0
      invariant at <= |s.slots| && IsPath(path, t) && path[0] == s && End(path) == here && Scanning(s, here, t, at)
    {
      hide Step;
      var next := ScanMoves(s, here, t, at);
      Extended(path, t, next);
      path, here, at := path + [next], next, at - 1;
    }
  }

  /** The nodes of `gone`, which thread t had retired, have been destroyed. */
  ghost predicate Swept(s: State, s': State, t: nat, pc: Pc, gone: set<Node>) {
    && At(s, t) && gone <= s.pending[t] && |s'.status| == |s.status|
    && s' == Go(s, t, pc).(overwritten := s'.overwritten, pending := s.pending[t := s.pending[t] - gone],
                           status := s'.status)
    && forall n: nat | n < |s.status| :: s'.status[n] == if n in gone then Free else s.status[n]
  }

  lemma DestroysOne(s: State, here: State, t: nat, cache: set<Node>, gone: set<Node>, n: Node) returns (next: State)
    requires Swept(s, here, t, Sweep(cache), gone) && n in s.pending[t] && n !in gone && n !in cache && n < |s.status|
    ensures Step(here, next, t) && Swept(s, next, t, Sweep(cache), gone + {n})
  {
    hide PushStep;
    hide PopStep;
    next := here.(pending := here.pending[t := here.pending[t] - {n}], status := here.status[n := Free]);
    assert n in here.pending[t] && here.pcs[t] == Sweep(cache);
    assert Destroys(here, next, t, n);
    assert ReclaimStep(here, next, t);
    assert s.pending[t] - gone - {n} == s.pending[t] - (gone + {n});
    assert next.pending == s.pending[t := s.pending[t] - (gone + {n})];
  }

  lemma SweepsAll(s: State, path0: seq<State>, t: nat, cache: set<Node>) returns (path: seq<State>)
    requires IsPath(path0, t) && Swept(s, End(path0), t, Sweep(cache), {})
    requires forall n | n in s.pending[t] :: n < |s.status|
    ensures IsPath(path, t) && path[0] == path0[0] && Swept(s, End(path), t, Idle, s.pending[t] - cache)
  {
    path := path0;
    var here, gone := End(path0), {};
    while !(s.pending[t] - gone <= cache)
      invariant IsPath(path, t) && path[0] == path0[0] && End(path) == here
      invariant Swept(s, here, t, Sweep(cache), gone) && gone !! cache
      decreases |s.pending[t] - gone|
    {
      hide Step;
      var n :| n in s.pending[t] - gone && n !in cache;
      assert s.pending[t] - (gone + {n}) == s.pending[t] - gone - {n};
      var next := DestroysOne(s, here, t, cache, gone, n);
      Extended(path, t, next);
      path, here, gone := path + [next], next, gone + {n};
    }
    assert gone == s.pending[t] - cache;
    Ends(s, here, t, cache, gone);
    Extended(path, t, Go(here, t, Idle));
    path := path + [Go(here, t, Idle)];
  }

  lemma Ends(s: State, here: State, t: nat, cache: set<Node>, gone: set<Node>)
    requires Swept(s, here, t, Sweep(cache), gone) && s.pending[t] - gone <= cache
    ensures Step(here, Go(here, t, Idle), t) && Swept(s, Go(here, t, Idle), t, Idle, gone)
  {
    hide PushStep;
    hide PopStep;
    assert EndReclaim(here, Go(here, t, Idle), t) && ReclaimStep(here, Go(here, t, Idle), t);
  }

  /** A reclaim destroys exactly those of its retired nodes that no thread's hazard pointer shows. */
  lemma ReclaimAlone(run: seq<State>, i: nat, t: nat) returns (path: seq<State>)
    requires IsRun(run) && AlwaysCached(run) && i < |run| && t < |run[i].pcs| && run[i].pcs[t].Idle?
    requires t !in run[i].overwritten
    ensures IsPath(path, t) && path[0] == run[i]
    ensures var s, s' := run[i], End(path);
            && t < |s.pending| == |s'.pending| && s'.pcs == s.pcs && s'.stack == s.stack && s'.slots == s.slots
            && (forall n :: n in s'.pending[t] <==> n in s.pending[t] && ShownFrom(s.slots, 0, n))
            && (forall n | n in s.pending[t] && !ShownFrom(s.slots, 0, n) ::
                  n < |s'.status| && s'.status[n] == Free)
  {
    hide Next;
    ReachableInv(run, i);
    hide IsRun;
    var s := run[i];
    assert At(s, t) && AllCached(s) && PendingInv(s, t);
    hide Inv;
    path := ScansAll(s, t);
    var here := End(path);
    var cache := here.pcs[t].cache;
    var next := Go(here, t, Sweep(cache));
    assert ScanSlot(here, next, t) && ReclaimStep(here, next, t) && Step(here, next, t) by {
      hide PushStep;
      hide PopStep;
    }
    hide Step;
    Extended(path, t, next);
    assert s.pcs[t := here.pcs[t]][t := Sweep(cache)] == s.pcs[t := Sweep(cache)];
    assert s.pending[t] - {} == s.pending[t];
    assert s.pending[t := s.pending[t] - {}] == s.pending;
    assert Swept(s, next, t, Sweep(cache), {});
    path := SweepsAll(s, path + [next], t, cache);
  }

  // ----- reclaim beside others

  /** Some hazard pointer shows n at an instant between a and b. */
  ghost predicate WasShown(run: seq<State>, a: nat, b: nat, n: Node) {
    exists m: nat :: a <= m <= b && m < |run| && ShownFrom(run[m].slots, 0, n)
  }

  /** The nodes that the reclaim of thread t has cached. */
  function Cached(pc: Pc): set<Node> {
    match pc
    case Scan(_, cache, _) => cache
    case Sweep(cache) => cache
    case _ => {}
  }

  predicate Reclaiming(pc: Pc) {
    pc.Scan? || pc.Sweep?
  }

  lemma CachesWhatIsShown(s: State, s': State, t: nat, n: Node)
    requires Next(s, s') && t < |s.pcs| && t < |s'.pcs| && Reclaiming(s.pcs[t]) && Reclaiming(s'.pcs[t])
    ensures n in Cached(s'.pcs[t]) ==> n in Cached(s.pcs[t]) || ShownFrom(s.slots, 0, n)
  {
    hide PushStep;
    hide PopStep;
    if u: nat :| Step(s, s', u) {
      if u != t { OthersPlace(s, s', u, t); }
      else { ReclaimerSteps(s, s', t); }
    }
  }

  lemma OthersPlace(s: State, s': State, u: nat, t: nat)
    requires Step(s, s', u) && u != t && t < |s.pcs|
    ensures t < |s'.pcs| && s'.pcs[t] == s.pcs[t]
  {}

  lemma ReclaimerSteps(s: State, s': State, t: nat)
    requires Step(s, s', t) && t < |s.pcs| && Reclaiming(s.pcs[t])
    ensures ReclaimStep(s, s', t)
  {}

  lemma {:induction false} CacheWasShown(run: seq<State>, a: nat, b: nat, t: nat, n: Node)
    requires IsRun(run) && a < b < |run| && StartReclaim(run[a], run[a + 1], t)
    requires forall m: nat | a < m <= b :: t < |run[m].pcs| && Reclaiming(run[m].pcs[t])
    ensures n in Cached(run[b].pcs[t]) ==> WasShown(run, a, b, n)
    decreases b
  {
    hide Next;
    if a + 1 < b && n in Cached(run[b].pcs[t]) {
      CacheWasShown(run, a, b - 1, t, n);
      assert StepAt(run, b - 1);
      CachesWhatIsShown(run[b - 1], run[b], t, n);
    }
  }

  /** Whatever others do meanwhile: a retired node that a reclaim does not destroy was shown by some hazard pointer
      during the call. */
  lemma KeptWasShown(run: seq<State>, a: nat, b: nat, t: nat, n: Node)
    requires IsRun(run) && a < b && b + 1 < |run|
    requires StartReclaim(run[a], run[a + 1], t) && EndReclaim(run[b], run[b + 1], t)
    requires forall m: nat | a < m <= b :: t < |run[m].pcs| && Reclaiming(run[m].pcs[t])
    requires t < |run[b + 1].pending| && n in run[b + 1].pending[t]
    ensures WasShown(run, a, b, n)
  {
    hide IsRun;
    CacheWasShown(run, a, b, t, n);
  }

  /** Every retired node is in the list of the thread that retired it, until it is destroyed. */
  ghost predicate RetiredInv(s: State, n: Node) {
    n < |s.status| && s.status[n].Retired? ==> s.status[n].t < |s.pending| && n in s.pending[s.status[n].t]
  }

  lemma PushStepKeepsRetired(s: State, s': State, t: nat, n: Node)
    requires PushStep(s, s', t) && RetiredInv(s, n)
    ensures RetiredInv(s', n)
  {}

  lemma PopStepKeepsRetired(s: State, s': State, t: nat, n: Node)
    requires PopStep(s, s', t) && RetiredInv(s, n)
    ensures RetiredInv(s', n)
  {}

  lemma ReclaimStepKeepsRetired(s: State, s': State, t: nat, n: Node)
    requires ReclaimStep(s, s', t) && RetiredInv(s, n)
    ensures RetiredInv(s', n)
  {}

  lemma StepKeepsRetired(s: State, s': State, n: Node)
    requires Next(s, s') && RetiredInv(s, n)
    ensures RetiredInv(s', n)
  {
    hide PushStep;
    hide PopStep;
    hide ReclaimStep;
    hide RetiredInv;
    if t: nat :| Step(s, s', t) {
      if PushStep(s, s', t) { PushStepKeepsRetired(s, s', t, n); }
      else if PopStep(s, s', t) { PopStepKeepsRetired(s, s', t, n); }
      else { ReclaimStepKeepsRetired(s, s', t, n); }
    } else {
      RegisterKeepsRetired(s, s', n);
    }
  }

  lemma RegisterKeepsRetired(s: State, s': State, n: Node)
    requires Register(s, s') && RetiredInv(s, n)
    ensures RetiredInv(s', n)
  {}

  lemma {:induction false} RetiredIsPending(run: seq<State>, i: nat, n: Node)
    requires IsRun(run) && i < |run|
    ensures RetiredInv(run[i], n)
  {
    hide Next;
    if i > 0 {
      RetiredIsPending(run, i - 1, n);
      assert StepAt(run, i - 1);
      StepKeepsRetired(run[i - 1], run[i], n);
    }
  }
}
