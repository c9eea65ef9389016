/** What the calls of the logger come to when nobody disturbs them, in whatever reachable state the others are. */
module LogAlone {
  import Ring
  import opened Bits
  import opened Wrappers
  import opened LogMemory
  import opened LogPool
  import opened LogSteps

  lemma {:induction false} PathKeepsInv(path: seq<State>, ts: set<nat>, k: nat)
    requires IsPath(path, ts) && Inv(path[0]) && k < |path|
    ensures Inv(path[k])
  {
    hide Inv;
    hide Step;
    if k > 0 {
      PathKeepsInv(path, ts, k - 1);
      assert StepIn(path, k - 1, ts);
      var t: nat :| t in ts && Step(path[k - 1], path[k], t);
      StepKeeps(path[k - 1], path[k], t);
    }
  }

  lemma LeadsKeepsInv(s0: State, ts: set<nat>, s: State)
    requires Inv(s0) && Leads(s0, ts, s)
    ensures Inv(s)
  {
    hide Inv;
    hide StepIn;
    var path: seq<State> :| IsPath(path, ts) && path[0] == s0 && path[|path| - 1] == s;
    PathKeepsInv(path, ts, |path| - 1);
  }

  ghost predicate HasQueue(r: Ring.State) {
    r.cHead <= r.pTail <= |r.vals|
  }

  lemma RingsHaveQueues(s: State)
    requires Inv(s)
    ensures HasQueue(s.free) && HasQueue(s.used)
  {}

  /** The front of a ring that is not empty. */
  lemma FrontOfQueue(r: Ring.State, t: nat)
    requires Ring.Inv(r) && t < |r.pcs| && r.cHead < r.pTail
    ensures HasQueue(r) && HasFront(r, t)
    ensures var r' := r.(cHead := r.cHead + 1, out := r.out + [Front(r)]);
            HasQueue(r') && Ring.Queue(r) == [Front(r)] + Ring.Queue(r')
  {
    Ring.SlotInRange(r, r.cHead);
    assert Ring.SlotInv(r, r.cHead);
  }

  lemma RoomInRing(r: Ring.State, t: nat)
    requires Ring.Inv(r) && t < |r.pcs| && r.pTail == r.pHead && r.pHead < r.cHead + r.size - 1
    ensures HasRoom(r, t)
  {
    Ring.SlotInRange(r, r.pHead);
  }

  lemma AfterEnqueue(r: Ring.State, t: nat, v: nat)
    requires HasRoom(r, t) && HasQueue(r) && |r.vals| == r.pHead && r.pcs[t].Idle?
    ensures var e := Enqueue(r, t, v, 6);
            && |e.pcs| == |r.pcs| && HasQueue(e) && Ring.Queue(e) == Ring.Queue(r) + [v]
            && Ring.Go(e, t, Ring.Idle).pcs == r.pcs
            && e.cHead == r.cHead && e.vals == r.vals + [v] && e.pTail == r.pTail + 1
  {
    var e := Enqueue(r, t, v, 6);
    assert e.vals[e.cHead..e.pTail] == r.vals[r.cHead..r.pTail] + [v];
  }

  // ----- enqueue

  /** Thread t has logged msg in `cell`, which was the first free one. */
  ghost predicate Logged(s: State, s': State, msg: Msg, cell: nat) {
    && s'.phases == s.phases && s'.free.pcs == s.free.pcs && s'.used.pcs == s.used.pcs && s'.printed == s.printed
    && HasQueue(s.free) && HasQueue(s'.free) && HasQueue(s.used) && HasQueue(s'.used)
    && Ring.Queue(s.free) == [cell] + Ring.Queue(s'.free) && Ring.Queue(s'.used) == Ring.Queue(s.used) + [cell]
    && s'.sent == s.sent + [msg] && Cell(s'.memory, s.msgSize, cell) == Strncpy(msg, s.msgSize)
    && forall j: nat | j != cell :: Cell(s'.memory, s.msgSize, j) == Cell(s.memory, s.msgSize, j)
  }

  lemma HandIsInside(s: State, t: nat, cell: nat)
    requires Inv(s) && Thread(s, t) && HandHas(s, t, cell)
    ensures cell * s.msgSize + s.msgSize <= |s.memory| && Base(cell, s.msgSize) == cell * s.msgSize
    ensures s.used.pHead < s.used.cHead + s.used.size - 1 && s.free.pHead < s.free.cHead + s.free.size - 1
  {
    HandLeavesRoom(s, t, cell);
    CellInside(s, cell);
  }

  lemma FillsAndPublishes(s0: State, a: State, t: nat, msg: Msg, cell: nat) returns (s': State)
    requires Inv(a) && Leads(s0, {t}, a) && Thread(a, t) && a.phases[t] == Filling(cell, msg, 0)
    requires a.used.pTail == a.used.pHead
    ensures Leads(s0, {t}, s') && HasQueue(a.used) && HasQueue(s'.used)
    ensures s'.phases == a.phases[t := Ready] && s'.free == a.free && s'.used.pcs == a.used.pcs
    ensures s'.printed == a.printed
    ensures Ring.Queue(s'.used) == Ring.Queue(a.used) + [cell] && s'.sent == a.sent + [msg]
    ensures Cell(s'.memory, a.msgSize, cell) == Strncpy(msg, a.msgSize)
    ensures forall j: nat | j != cell :: Cell(s'.memory, a.msgSize, j) == Cell(a.memory, a.msgSize, j)
  {
    assert PhaseInv(a, t) && HandHas(a, t, cell) && |a.used.vals| == a.used.pHead;
    HandIsInside(a, t, cell);
    RoomInRing(a.used, t);
    hide Inv;
    hide Leads;
    hide Enqueue;
    hide HasRoom;
    var n := a.msgSize;
    var bytes := Strncpy(msg, n);
    assert bytes[..n] == bytes;
    Fills(s0, {t}, a, t, msg, cell, n);
    var b := At(a, t, Filling(cell, msg, n)).(memory := Stored(a.memory, Base(cell, n), bytes));
    StoredInCell(a.memory, n, cell, bytes);
    s' := Publishes(s0, {t}, b, t, cell, msg);
    AfterEnqueue(a.used, t, cell);
    assert a.phases[t := b.phases[t]][t := Ready] == a.phases[t := Ready];
  }

  /** With a free cell, and nobody else about to commit a message: an enqueue copies its message into the first free
      cell and publishes it behind all others. */
  lemma LogSucceeds(run: seq<State>, i: nat, t: nat, msg: Msg) returns (s': State, cell: nat)
    requires IsRun(run) && i < |run| && t < |run[i].phases| && run[i].phases[t].Ready?
    requires run[i].free.cHead < run[i].free.pTail && run[i].used.pTail == run[i].used.pHead
    ensures Leads(run[i], {t}, s') && Logged(run[i], s', msg, cell)
  {
    ReachableInv(run, i);
    hide IsRun;
    var s := run[i];
    assert PhaseInv(s, t) && Ring.Inv(s.free) && Thread(s, t);
    RingsHaveQueues(s);
    FrontOfQueue(s.free, t);
    cell := Front(s.free);
    LeadsNowhere(s, {t});
    hide Leads;
    hide Inv;
    hide HasFront;
    hide HasQueue;
    hide Ring.Queue;
    hide Front;
    hide Ring.Inv;
    var a := Acquires(s, {t}, s, t, msg);
    LeadsKeepsInv(s, {t}, a);
    s' := FillsAndPublishes(s, a, t, msg, cell);
    assert s.phases[t := a.phases[t]][t := Ready] == s.phases;
  }

  /** Without a free cell it returns false after three steps of its dequeue, and everything is as before. */
  lemma LogFails(run: seq<State>, i: nat, t: nat, msg: Msg) returns (path: seq<State>)
    requires IsRun(run) && i < |run| && t < |run[i].phases| && run[i].phases[t].Ready?
    requires run[i].free.cHead == run[i].free.pTail
    ensures |path| == 5 && path[0] == run[i] && LogCall(path[0], path[1], t, msg) && path[4] == run[i]
    ensures FreeRing(path[1], path[2], t) && FreeRing(path[2], path[3], t) && LogFull(path[3], path[4], t)
  {
    ReachableInv(run, i);
    hide IsRun;
    var s := run[i];
    assert PhaseInv(s, t) && Thread(s, t);
    hide Inv;
    var r := s.free;
    var a := At(s, t, Acquiring(msg)).(free := Call(r, t, Ring.DeqStart(false)));
    var b := a.(free := Ring.Go(r, t, Ring.DeqHead(false, r.cHead)));
    var c := a.(free := Ring.Go(r, t, Ring.DeqDone(false, r.cHead, 0)));
    assert b.free == Ring.Go(a.free, t, b.free.pcs[t]) && c.free == Ring.Go(b.free, t, c.free.pcs[t]);
    assert Ring.DeqLoadHead(a.free, b.free, t) && Ring.DeqLoadTail(b.free, c.free, t);
    assert Ring.Go(c.free, t, Ring.Idle) == r && At(c, t, Ready).phases == s.phases;
    assert Moved(a.place, a.free, b.free, t, (k: nat) => InFree(k)) == a.place;
    assert Moved(b.place, b.free, c.free, t, (k: nat) => InFree(k)) == b.place;
    path := [s, a, b, c, s];
  }

  // ----- consume

  lemma PutsFree(s0: State, s: State, t: nat, v: nat) returns (s': State)
    requires Thread(s, t) && s.phases[t].Freeing? && HasRoom(s.free, t)
    requires Leads(s0, {t}, s.(free := Enqueue(s.free, t, v, 0)))
    ensures Leads(s0, {t}, s') && s' == s.(free := Enqueue(s.free, t, v, 6), place := s'.place)
  {
    hide Leads;
    hide RingStep;
    var r := s.free;
    s' := s.(free := Enqueue(r, t, v, 0));
    for k := 0 to 6
      invariant Leads(s0, {t}, s') && s' == s.(free := Enqueue(r, t, v, k), place := s'.place)
    {
      EnqueueStep(r, t, v, k);
      s' := FreeMoves(s0, {t}, s', Enqueue(r, t, v, k + 1), t);
    }
  }

  /** Thread t prints what is at the cell it has fetched. */
  lemma PrintsCell(s0: State, a: State, t: nat, cell: nat, k: nat) returns (c: State)
    requires Leads(s0, {t}, a) && Thread(a, t) && a.phases[t] == Reading(cell, k, "") && HasRoom(a.free, t)
    requires a.free.pcs[t].Idle? && Base(cell, a.msgSize) <= |a.memory|
    ensures c == At(a, t, Freeing(cell)).(printed := a.printed[k := CString(a.memory, Base(cell, a.msgSize))])
    ensures Leads(s0, {t}, c.(free := Enqueue(a.free, t, cell, 0)))
  {
    EnqueueEnds(a.free, t, cell);
    hide Leads;
    hide Enqueue;
    hide HasRoom;
    var base := Base(cell, a.msgSize);
    var e := Scan(a.memory, base);
    ReadsOn(s0, {t}, a, t, cell, k, e - base);
    var text := a.memory[base..e];
    var b := At(a, t, Reading(cell, k, text));
    c := At(a, t, Freeing(cell)).(printed := a.printed[k := CString(a.memory, base)]);
    assert NextByte(b, b.phases[t]) == if e < |a.memory| then Some(a.memory[e]) else None;
    assert a.phases[t := b.phases[t]][t := Freeing(cell)] == c.phases;
    assert ConsumePrint(b, c.(free := Enqueue(a.free, t, cell, 0)), t);
    Moves(s0, {t}, b, c.(free := Enqueue(a.free, t, cell, 0)), t);
  }

  lemma PrintsAndFrees(s0: State, a: State, t: nat, cell: nat, k: nat) returns (s': State)
    requires Inv(a) && Leads(s0, {t}, a) && Thread(a, t) && a.phases[t] == Reading(cell, k, "")
    requires a.free.pTail == a.free.pHead
    ensures Leads(s0, {t}, s') && HasQueue(a.free) && HasQueue(s'.free)
    ensures s'.phases == a.phases[t := Ready] && s'.used == a.used && s'.free.pcs == a.free.pcs && s'.memory == a.memory
    ensures Ring.Queue(s'.free) == Ring.Queue(a.free) + [cell] && s'.sent == a.sent && s'.msgSize == a.msgSize
    ensures Base(cell, a.msgSize) <= |a.memory|
    ensures s'.printed == a.printed[k := CString(a.memory, Base(cell, a.msgSize))]
  {
    assert PhaseInv(a, t) && HandHas(a, t, cell) && |a.free.vals| == a.free.pHead;
    HandIsInside(a, t, cell);
    RoomInRing(a.free, t);
    RingsHaveQueues(a);
    hide Inv;
    hide Leads;
    hide Enqueue;
    hide HasRoom;
    hide CString;
    hide Ring.Queue;
    var c := PrintsCell(s0, a, t, cell, k);
    s' := FreesCell(s0, c, t, cell);
    assert a.phases[t := Freeing(cell)][t := Ready] == a.phases[t := Ready];
  }

  lemma FreesCell(s0: State, c: State, t: nat, cell: nat) returns (s': State)
    requires Thread(c, t) && c.phases[t] == Freeing(cell) && HasRoom(c.free, t) && c.free.pcs[t].Idle?
    requires HasQueue(c.free) && |c.free.vals| == c.free.pHead
    requires Leads(s0, {t}, c.(free := Enqueue(c.free, t, cell, 0)))
    ensures Leads(s0, {t}, s') && HasQueue(s'.free)
    ensures s' == At(c, t, Ready).(free := s'.free, place := s'.place) && s'.free.pcs == c.free.pcs
    ensures Ring.Queue(s'.free) == Ring.Queue(c.free) + [cell]
  {
    hide Leads;
    AfterEnqueue(c.free, t, cell);
    EnqueueEnds(c.free, t, cell);
    hide Enqueue;
    hide HasRoom;
    var d := PutsFree(s0, c, t, cell);
    s' := At(d, t, Ready).(free := Call(d.free, t, Ring.Idle));
    assert ConsumeFreed(d, s', t) && ConsumeStep(d, s', t) && Step(d, s', t);
    Goes(s0, {t}, d, s', t);
  }

  /** Thread t has printed the oldest message, under the ticket it was published with, and freed its cell. */
  ghost predicate Consumed(s: State, s': State, cell: nat) {
    && s'.phases == s.phases && s'.free.pcs == s.free.pcs && s'.used.pcs == s.used.pcs && s'.sent == s.sent
    && HasQueue(s.free) && HasQueue(s'.free) && HasQueue(s.used) && HasQueue(s'.used)
    && Ring.Queue(s.used) == [cell] + Ring.Queue(s'.used) && Ring.Queue(s'.free) == Ring.Queue(s.free) + [cell]
    && s.used.cHead < |s.sent| && s.used.cHead !in s.printed && s.used.cHead in s'.printed
    && s'.printed == s.printed[s.used.cHead := s'.printed[s.used.cHead]]
    && Prints(s'.printed[s.used.cHead], s.sent[s.used.cHead], s.msgSize)
  }

  lemma TicketIsUnprinted(s: State, a: State, t: nat)
    requires Inv(a) && Thread(a, t) && a.phases[t].Reading? && a.phases[t].ticket == s.used.cHead && a.sent == s.sent
    ensures s.used.cHead < |s.sent| && s.used.cHead !in a.printed
  {
    LoadsOwnCell(a, t);
    assert PhaseInv(a, t);
  }

  lemma WhatIsPrinted(s': State, k: nat)
    requires Inv(s') && k in s'.printed
    ensures k < |s'.sent| && Prints(s'.printed[k], s'.sent[k], s'.msgSize)
  {}

  /** Thread t has fetched the oldest index of the used ring. */
  lemma FetchesOldest(run: seq<State>, i: nat, t: nat) returns (a: State, cell: nat)
    requires IsRun(run) && i < |run| && t < |run[i].phases| && run[i].phases[t].Ready?
    requires run[i].used.cHead < run[i].used.pTail
    ensures Inv(run[i]) && Inv(a) && Leads(run[i], {t}, a) && Thread(a, t) && HasQueue(run[i].used) && HasQueue(a.used)
    ensures Ring.Queue(run[i].used) == [cell] + Ring.Queue(a.used)
    ensures var s := run[i];
            && a == At(s, t, Reading(cell, s.used.cHead, "")).(used := a.used, place := a.place)
            && a.used.pcs == s.used.pcs
  {
    ReachableInv(run, i);
    hide IsRun;
    var s := run[i];
    assert PhaseInv(s, t) && Ring.Inv(s.used) && Thread(s, t);
    FrontOfQueue(s.used, t);
    cell := Front(s.used);
    LeadsNowhere(s, {t});
    hide Leads;
    hide Inv;
    hide HasFront;
    hide HasQueue;
    hide Ring.Queue;
    hide Front;
    hide Ring.Inv;
    a := Fetches(s, {t}, s, t);
    LeadsKeepsInv(s, {t}, a);
  }

  /** With a message published, and nobody else about to commit a freed cell: a consume prints the oldest message and
      frees its cell behind all others. */
  lemma ConsumeSucceeds(run: seq<State>, i: nat, t: nat) returns (s': State, cell: nat)
    requires IsRun(run) && i < |run| && t < |run[i].phases| && run[i].phases[t].Ready?
    requires run[i].used.cHead < run[i].used.pTail && run[i].free.pTail == run[i].free.pHead
    ensures Leads(run[i], {t}, s') && Consumed(run[i], s', cell)
  {
    hide IsRun;
    hide Leads;
    hide Inv;
    hide HasQueue;
    hide Ring.Queue;
    hide CString;
    hide Prints;
    var s, a := run[i], run[i];
    a, cell := FetchesOldest(run, i, t);
    TicketIsUnprinted(s, a, t);
    s' := PrintsAndFrees(s, a, t, cell, s.used.cHead);
    LeadsKeepsInv(s, {t}, s');
    WhatIsPrinted(s', s.used.cHead);
    assert s.phases[t := a.phases[t]][t := Ready] == s.phases;
  }
}
