/** Steps of the logger, one after the other: what the operations of one thread come to while nobody
    disturbs them. */
module LogSteps {
  import Ring
  import opened Bits
  import opened Wrappers
  import opened LogMemory
  import opened LogPool

  // ----- steps of some threads

  ghost predicate StepIn(path: seq<State>, i: nat, ts: set<nat>) {
    i + 1 < |path| && exists t: nat :: t in ts && Step(path[i], path[i + 1], t)
  }

  /** Consecutive steps of threads in ts. */
  ghost predicate IsPath(path: seq<State>, ts: set<nat>) {
    |path| > 0 && forall i: nat | i + 1 < |path| :: StepIn(path, i, ts)
  }

  /** Steps of threads in ts lead from s0 to s. */
  ghost predicate Leads(s0: State, ts: set<nat>, s: State) {
    exists path: seq<State> :: IsPath(path, ts) && path[0] == s0 && path[|path| - 1] == s
  }

  lemma LeadsNowhere(s: State, ts: set<nat>)
    ensures Leads(s, ts, s)
  {
    assert IsPath([s], ts) && [s][0] == s && [s][|[s]| - 1] == s;
  }

  lemma Goes(s0: State, ts: set<nat>, s: State, s': State, t: nat)
    requires t in ts && Leads(s0, ts, s) && Step(s, s', t)
    ensures Leads(s0, ts, s')
  {
    hide Step;
    var path: seq<State> :| IsPath(path, ts) && path[0] == s0 && path[|path| - 1] == s;
    var longer := path + [s'];
    forall i: nat | i + 1 < |longer| ensures StepIn(longer, i, ts) {
      if i + 1 < |path| { assert StepIn(path, i, ts); }
    }
    assert IsPath(longer, ts) && longer[0] == s0 && longer[|longer| - 1] == s';
  }

  /** Such steps continue a run. */
  lemma Continues(run: seq<State>, path: seq<State>, ts: set<nat>) returns (longer: seq<State>)
    requires IsRun(run) && IsPath(path, ts) && path[0] == run[|run| - 1]
    ensures IsRun(longer) && run <= longer && longer[|longer| - 1] == path[|path| - 1]
  {
    hide Step;
    hide Init;
    longer := run + path[1..];
    forall i: nat | i + 1 < |longer| ensures StepAt(longer, i) {
      if i + 1 < |run| {
        assert StepAt(run, i);
      } else {
        assert StepIn(path, i + 1 - |run|, ts);
        assert longer[i] == path[i + 1 - |run|] && longer[i + 1] == path[i + 2 - |run|];
      }
    }
  }

  lemma ContinuesRun(run: seq<State>, ts: set<nat>, s: State) returns (longer: seq<State>)
    requires IsRun(run) && Leads(run[|run| - 1], ts, s)
    ensures IsRun(longer) && run <= longer && longer[|longer| - 1] == s
  {
    hide Init;
    hide StepAt;
    hide StepIn;
    var path: seq<State> :| IsPath(path, ts) && path[0] == run[|run| - 1] && path[|path| - 1] == s;
    longer := Continues(run, path, ts);
  }

  ghost predicate LogMove(s: State, s': State, t: nat) {
    || LogFill(s, s', t) || LogFilled(s, s', t) || LogPublished(s, s', t) || LogAcquired(s, s', t)
    || ConsumeCall(s, s', t) || ConsumeFetched(s, s', t) || ConsumeRead(s, s', t) || ConsumePrint(s, s', t)
    || FreeRing(s, s', t) || UsedRing(s, s', t)
  }

  lemma Moves(s0: State, ts: set<nat>, s: State, s': State, t: nat)
    requires t in ts
    requires Leads(s0, ts, s) && LogMove(s, s', t)
    ensures Leads(s0, ts, s')
  {
    hide Leads;
    hide FreeRing;
    hide UsedRing;
    assert FreeRing(s, s', t) || UsedRing(s, s', t) || LogStep(s, s', t) || ConsumeStep(s, s', t);
    Goes(s0, ts, s, s', t);
  }

  lemma FreeMoves(s0: State, ts: set<nat>, s: State, r: Ring.State, t: nat) returns (s': State)
    requires t in ts
    requires Leads(s0, ts, s) && Thread(s, t) && (s.phases[t].Acquiring? || s.phases[t].Freeing?)
    requires RingStep(s.free, r, t)
    ensures Leads(s0, ts, s') && s' == s.(free := r, place := s'.place)
  {
    hide RingStep;
    hide Leads;
    s' := s.(free := r, place := Moved(s.place, s.free, r, t, (k: nat) => InFree(k)));
    assert FreeRing(s, s', t);
    Moves(s0, ts, s, s', t);
  }

  lemma UsedMoves(s0: State, ts: set<nat>, s: State, r: Ring.State, t: nat) returns (s': State)
    requires t in ts
    requires Leads(s0, ts, s) && Thread(s, t) && (s.phases[t].Publishing? || s.phases[t].Fetching?)
    requires RingStep(s.used, r, t)
    ensures Leads(s0, ts, s')
    ensures s' == s.(used := r, place := s'.place,
                     sent := if s.phases[t].Publishing? && r.pHead == s.used.pHead + 1
                             then s.sent + [s.phases[t].msg] else s.sent)
  {
    hide RingStep;
    hide Leads;
    s' := s.(used := r, place := Moved(s.place, s.used, r, t, (k: nat) => InUsed(k)),
             sent := if s.phases[t].Publishing? && r.pHead == s.used.pHead + 1
                     then s.sent + [s.phases[t].msg] else s.sent);
    assert UsedRing(s, s', t);
    Moves(s0, ts, s, s', t);
  }

  // ----- operations of one thread while the others rest

  /** The value at the front of a ring. */
  function Front(r: Ring.State): nat
    requires 0 < r.size && Ring.Slot(r, r.cHead) < |r.slots|
  {
    r.slots[Ring.Slot(r, r.cHead)]
  }

  /** Thread t can dequeue. */
  ghost predicate HasFront(r: Ring.State, t: nat) {
    t < |r.pcs| && 0 < r.size && Ring.Slot(r, r.cHead) < |r.slots| && r.cHead < r.pTail
  }

  /** The four steps of a dequeue. */
  ghost function Dequeue(r: Ring.State, t: nat, k: nat): Ring.State
    requires HasFront(r, t)
  {
    var c := r.cHead;
    if k == 0 then Ring.Go(r, t, Ring.DeqStart(false))
    else if k == 1 then Ring.Go(r, t, Ring.DeqHead(false, c))
    else if k == 2 then Ring.Go(r, t, Ring.DeqRead(false, c))
    else if k == 3 then Ring.Go(r, t, Ring.DeqCas(false, c, Front(r)))
    else Ring.Go(r, t, Ring.DeqDone(true, c, Front(r))).(cHead := c + 1, out := r.out + [Front(r)])
  }

  lemma DequeueStep(r: Ring.State, t: nat, k: nat)
    requires HasFront(r, t) && k < 4
    ensures RingStep(Dequeue(r, t, k), Dequeue(r, t, k + 1), t)
  {
    var a, b := Dequeue(r, t, k), Dequeue(r, t, k + 1);
    assert Ring.Slot(a, r.cHead) == Ring.Slot(r, r.cHead);
    assert Ring.DeqStep(a, b, t);
  }

  lemma TakesFree(s0: State, ts: set<nat>, s: State, t: nat) returns (s': State)
    requires t in ts
    requires Thread(s, t) && s.phases[t].Acquiring? && HasFront(s.free, t)
    requires Leads(s0, ts, s.(free := Dequeue(s.free, t, 0)))
    ensures Leads(s0, ts, s') && s' == s.(free := Dequeue(s.free, t, 4), place := s'.place)
  {
    hide Leads;
    hide RingStep;
    var r := s.free;
    s' := s.(free := Dequeue(r, t, 0));
    for k := 0 to 4
      invariant Leads(s0, ts, s') && s' == s.(free := Dequeue(r, t, k), place := s'.place)
    {
      DequeueStep(r, t, k);
      s' := FreeMoves(s0, ts, s', Dequeue(r, t, k + 1), t);
    }
  }

  lemma TakesUsed(s0: State, ts: set<nat>, s: State, t: nat) returns (s': State)
    requires t in ts
    requires Thread(s, t) && s.phases[t].Fetching? && HasFront(s.used, t)
    requires Leads(s0, ts, s.(used := Dequeue(s.used, t, 0)))
    ensures Leads(s0, ts, s') && s' == s.(used := Dequeue(s.used, t, 4), place := s'.place)
  {
    hide Leads;
    hide RingStep;
    var r := s.used;
    s' := s.(used := Dequeue(r, t, 0));
    for k := 0 to 4
      invariant Leads(s0, ts, s') && s' == s.(used := Dequeue(r, t, k), place := s'.place)
    {
      DequeueStep(r, t, k);
      s' := UsedMoves(s0, ts, s', Dequeue(r, t, k + 1), t);
    }
  }

  ghost predicate HasRoom(r: Ring.State, t: nat) {
    && t < |r.pcs| && 0 < r.size && Ring.Slot(r, r.pHead) < |r.slots|
    && r.pTail == r.pHead && r.cHead <= r.pHead < r.cHead + r.size - 1
  }

  /** The six steps of an enqueue. */
  ghost function Enqueue(r: Ring.State, t: nat, v: nat, k: nat): Ring.State
    requires HasRoom(r, t)
  {
    var p, c := r.pHead, r.cHead;
    if k == 0 then Ring.Go(r, t, Ring.EnqStart(v))
    else if k == 1 then Ring.Go(r, t, Ring.EnqHead(v, p))
    else if k == 2 then Ring.Go(r, t, Ring.EnqCas(v, p, c))
    else
      var reserved := r.(pHead := p + 1, vals := r.vals + [v], owner := r.owner + [t]);
      if k == 3 then Ring.Go(reserved, t, Ring.EnqWrite(v, p))
      else
        var stored := reserved.(slots := r.slots[Ring.Slot(r, p) := v]);
        if k == 4 then Ring.Go(stored, t, Ring.EnqWait(v, p))
        else if k == 5 then Ring.Go(stored, t, Ring.EnqCommit(v, p))
        else Ring.Go(stored, t, Ring.EnqDone(true)).(pTail := p + 1)
  }

  lemma EnqueueStep(r: Ring.State, t: nat, v: nat, k: nat)
    requires HasRoom(r, t) && k < 6
    ensures RingStep(Enqueue(r, t, v, k), Enqueue(r, t, v, k + 1), t)
  {
    var a, b := Enqueue(r, t, v, k), Enqueue(r, t, v, k + 1);
    assert Ring.Slot(a, r.pHead) == Ring.Slot(r, r.pHead);
    assert Ring.EnqStep(a, b, t);
  }

  lemma PutsUsed(s0: State, ts: set<nat>, s: State, t: nat, v: nat) returns (s': State)
    requires t in ts
    requires Thread(s, t) && s.phases[t].Publishing? && HasRoom(s.used, t)
    requires Leads(s0, ts, s.(used := Enqueue(s.used, t, v, 0)))
    ensures Leads(s0, ts, s')
    ensures s' == s.(used := Enqueue(s.used, t, v, 6), place := s'.place, sent := s.sent + [s.phases[t].msg])
  {
    hide Leads;
    hide RingStep;
    var r := s.used;
    s' := s.(used := Enqueue(r, t, v, 0));
    for k := 0 to 6
      invariant Leads(s0, ts, s')
      invariant s' == s.(used := Enqueue(r, t, v, k), place := s'.place,
                         sent := if k < 3 then s.sent else s.sent + [s.phases[t].msg])
    {
      EnqueueStep(r, t, v, k);
      s' := UsedMoves(s0, ts, s', Enqueue(r, t, v, k + 1), t);
    }
  }

  lemma DequeueEnds(r: Ring.State, t: nat)
    requires HasFront(r, t)
    ensures Dequeue(r, t, 0) == Ring.Go(r, t, Ring.DeqStart(false))
    ensures var d := Dequeue(r, t, 4);
            && d.pcs == r.pcs[t := Ring.DeqDone(true, r.cHead, Front(r))]
            && (r.pcs[t].Idle? ==> Ring.Go(d, t, Ring.Idle) == r.(cHead := r.cHead + 1, out := r.out + [Front(r)]))
  {}

  /** Thread t takes a free cell for a message. */
  lemma Acquires(s0: State, ts: set<nat>, s: State, t: nat, msg: Msg) returns (s': State)
    requires t in ts
    requires Leads(s0, ts, s) && Thread(s, t) && s.phases[t].Ready? && s.free.pcs[t].Idle? && HasFront(s.free, t)
    ensures Leads(s0, ts, s')
    ensures s' == At(s, t, Filling(Front(s.free), msg, 0))
                   .(free := s.free.(cHead := s.free.cHead + 1, out := s.free.out + [Front(s.free)]), place := s'.place)
  {
    DequeueEnds(s.free, t);
    hide Leads;
    hide Dequeue;
    hide HasFront;
    hide Front;
    var a := At(s, t, Acquiring(msg)).(free := Dequeue(s.free, t, 0));
    assert LogCall(s, a, t, msg) && LogStep(s, a, t);
    Goes(s0, ts, s, a, t);
    var b := TakesFree(s0, ts, At(s, t, Acquiring(msg)), t);
    s' := At(b, t, Filling(Front(s.free), msg, 0)).(free := Call(b.free, t, Ring.Idle));
    assert LogAcquired(b, s', t);
    Moves(s0, ts, b, s', t);
    assert s'.free == s.free.(cHead := s.free.cHead + 1, out := s.free.out + [Front(s.free)]);
  }

  lemma {:induction false} Fills(s0: State, ts: set<nat>, s: State, t: nat, msg: Msg, cell: nat, done: nat)
    requires t in ts
    requires Leads(s0, ts, s) && Thread(s, t) && s.phases[t] == Filling(cell, msg, 0) && done <= s.msgSize
    requires Address(s, cell, s.msgSize) <= |s.memory|
    ensures Leads(s0, ts, At(s, t, Filling(cell, msg, done))
                      .(memory := Stored(s.memory, Address(s, cell, 0), Strncpy(msg, s.msgSize)[..done])))
    decreases done
  {
    hide Leads;
    var a, bytes := Address(s, cell, 0), Strncpy(msg, s.msgSize);
    if done == 0 {
      assert Stored(s.memory, a, bytes[..0]) == s.memory;
      assert At(s, t, Filling(cell, msg, 0)) == s;
    } else {
      Fills(s0, ts, s, t, msg, cell, done - 1);
      StoredMore(s.memory, a, bytes[..done - 1], bytes[done - 1]);
      assert bytes[..done] == bytes[..done - 1] + [bytes[done - 1]];
      var before := At(s, t, Filling(cell, msg, done - 1)).(memory := Stored(s.memory, a, bytes[..done - 1]));
      var after := At(s, t, Filling(cell, msg, done)).(memory := Stored(s.memory, a, bytes[..done]));
      assert LogFill(before, after, t);
      Moves(s0, ts, before, after, t);
    }
  }

  lemma EnqueueEnds(r: Ring.State, t: nat, v: nat)
    requires HasRoom(r, t)
    ensures Enqueue(r, t, v, 0) == Ring.Go(r, t, Ring.EnqStart(v))
    ensures var e := Enqueue(r, t, v, 6); |e.pcs| == |r.pcs| && e.pcs[t] == Ring.EnqDone(true)
  {}

  /** Thread t publishes the cell it has filled. */
  lemma Publishes(s0: State, ts: set<nat>, s: State, t: nat, cell: nat, msg: Msg) returns (s': State)
    requires t in ts
    requires Leads(s0, ts, s) && Thread(s, t) && s.phases[t] == Filling(cell, msg, s.msgSize) && s.used.pcs[t].Idle?
    requires HasRoom(s.used, t)
    ensures Leads(s0, ts, s') && |Enqueue(s.used, t, cell, 6).pcs| == |s.used.pcs|
    ensures s' == At(s, t, Ready).(used := Ring.Go(Enqueue(s.used, t, cell, 6), t, Ring.Idle), place := s'.place,
                                   sent := s.sent + [msg])
  {
    hide Leads;
    hide Enqueue;
    hide HasRoom;
    EnqueueEnds(s.used, t, cell);
    var a := At(s, t, Publishing(cell, msg)).(used := Enqueue(s.used, t, cell, 0));
    assert LogFilled(s, a, t);
    Moves(s0, ts, s, a, t);
    var b := PutsUsed(s0, ts, At(s, t, Publishing(cell, msg)), t, cell);
    s' := At(b, t, Ready).(used := Call(b.used, t, Ring.Idle));
    assert LogPublished(b, s', t);
    Moves(s0, ts, b, s', t);
  }

  /** Thread t takes the oldest published cell. */
  lemma Fetches(s0: State, ts: set<nat>, s: State, t: nat) returns (s': State)
    requires t in ts
    requires Leads(s0, ts, s) && Thread(s, t) && s.phases[t].Ready? && s.used.pcs[t].Idle? && HasFront(s.used, t)
    ensures Leads(s0, ts, s')
    ensures s' == At(s, t, Reading(Front(s.used), s.used.cHead, ""))
                   .(used := s.used.(cHead := s.used.cHead + 1, out := s.used.out + [Front(s.used)]), place := s'.place)
  {
    DequeueEnds(s.used, t);
    hide Leads;
    hide Dequeue;
    hide HasFront;
    hide Front;
    var a := At(s, t, Fetching).(used := Dequeue(s.used, t, 0));
    assert ConsumeCall(s, a, t);
    Moves(s0, ts, s, a, t);
    var b := TakesUsed(s0, ts, At(s, t, Fetching), t);
    s' := At(b, t, Reading(Front(s.used), s.used.cHead, "")).(used := Call(b.used, t, Ring.Idle));
    assert ConsumeFetched(b, s', t);
    Moves(s0, ts, b, s', t);
    assert s'.used == s.used.(cHead := s.used.cHead + 1, out := s.used.out + [Front(s.used)]);
  }

  lemma {:induction false} ReadsOn(s0: State, ts: set<nat>, s: State, t: nat, cell: nat, ticket: nat, k: nat)
    requires t in ts
    requires Leads(s0, ts, s) && Thread(s, t) && s.phases[t] == Reading(cell, ticket, "")
    requires Address(s, cell, k) <= |s.memory| && NUL !in s.memory[Address(s, cell, 0)..Address(s, cell, k)]
    ensures Leads(s0, ts, At(s, t, Reading(cell, ticket, s.memory[Address(s, cell, 0)..Address(s, cell, k)])))
    decreases k
  {
    hide Leads;
    var a, b := Address(s, cell, 0), Address(s, cell, k);
    if k == 0 {
      assert s.memory[a..b] == "";
      assert At(s, t, s.phases[t]) == s;
    } else {
      var text := s.memory[a..b - 1];
      assert s.memory[a..b] == text + [s.memory[b - 1]];
      assert s.memory[a..b][k - 1] == s.memory[b - 1];
      assert NUL !in text;
      ReadsOn(s0, ts, s, t, cell, ticket, k - 1);
      var before, after := At(s, t, Reading(cell, ticket, text)), At(s, t, Reading(cell, ticket, s.memory[a..b]));
      assert NextByte(before, before.phases[t]) == Some(s.memory[b - 1]);
      assert ConsumeRead(before, after, t);
      Moves(s0, ts, before, after, t);
    }
  }
}
