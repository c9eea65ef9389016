/** The logger of eg_cklog.c: message cells whose indices circulate between a ring of free cells and
    a ring of used ones. Any number of threads log and consume at the same time, and copy and print
    messages byte by byte. */
module LogPool {
  import Ring
  import opened Bits
  import opened Wrappers
  import opened LogMemory

  /** Where a thread stands. In the acquiring, publishing, fetching and freeing phases it is inside
      an operation of the free, used, used and free ring. `done` bytes of a cell have been filled,
      `text` has been read for printing. */
  datatype Phase =
    | Ready
    | Acquiring(msg: Msg)
    | Filling(cell: nat, msg: Msg, done: nat)
    | Publishing(cell: nat, msg: Msg)
    | Fetching
    | Reading(cell: nat, ticket: nat, text: string)
    | Freeing(cell: nat)

  /** Where an index is: under a ticket of one of the rings or in a thread's hands. */
  datatype Place = InFree(ticket: nat) | InUsed(ticket: nat) | InHand(thread: nat)

  /** The logger. `memory` is msg_mem. History: `place[i]` is where index i is, `sent[k]` the message
      published under ticket k of the used ring, `printed` what was printed for each ticket, None where
      the print ran past the end of the memory. */
  datatype State = State(
    free: Ring.State,
    used: Ring.State,
    memory: string,
    msgSize: nat,
    phases: seq<Phase>,
    place: seq<Place>,
    sent: seq<Msg>,
    printed: map<nat, Option<string>>)

  /** After eg_cklog_create: a free ring of size N holds 0 .. N - 2, the used ring is empty. The memory is
      what malloc has returned. */
  ghost predicate Init(s: State) {
    && IsPow2(s.free.size) && s.used.size == s.free.size && |s.memory| == s.free.size * s.msgSize
    && s.free.cHead == 0 && s.free.pTail == s.free.pHead == s.free.size - 1
    && |s.free.slots| == s.free.size && |s.free.vals| == |s.free.owner| == s.free.size - 1
    && (forall k | 0 <= k < s.free.size - 1 :: s.free.vals[k] == k && s.free.slots[k] == k)
    && s.free.out == []
    && Ring.Init(s.used)
    && |s.phases| == |s.free.pcs| == |s.used.pcs|
    && (forall t | 0 <= t < |s.phases| :: s.phases[t] == Ready && s.free.pcs[t] == Ring.Idle)
    && s.place == seq(s.free.size - 1, (k: nat) => InFree(k))
    && s.sent == [] && s.printed == map[]
  }

  ghost predicate Thread(s: State, t: nat) {
    t < |s.phases| == |s.free.pcs| == |s.used.pcs|
  }

  function At(s: State, t: nat, p: Phase): State
    requires t < |s.phases|
  {
    s.(phases := s.phases[t := p])
  }

  /** Thread t is given pc in a ring. */
  function Call(r: Ring.State, t: nat, pc: Ring.Pc): Ring.State
    requires t < |r.pcs|
  {
    Ring.Go(r, t, pc)
  }

  // ----- the steps inside the rings

  ghost predicate RingStep(r: Ring.State, r': Ring.State, t: nat) {
    Ring.EnqStep(r, r', t) || Ring.DeqStep(r, r', t)
  }

  /** History: a reserved ticket takes its index out of the thread's hands, a dequeue puts one there. */
  function Moved(place: seq<Place>, r: Ring.State, r': Ring.State, t: nat, to: nat -> Place): seq<Place> {
    if r'.pHead == r.pHead + 1 && |r'.vals| == r.pHead + 1 && r'.vals[r.pHead] < |place|
    then place[r'.vals[r.pHead] := to(r.pHead)]
    else if r'.cHead == r.cHead + 1 && r.cHead < |r.vals| && r.vals[r.cHead] < |place|
    then place[r.vals[r.cHead] := InHand(t)]
    else place
  }

  ghost predicate FreeRing(s: State, s': State, t: nat) {
    && Thread(s, t) && (s.phases[t].Acquiring? || s.phases[t].Freeing?)
    && RingStep(s.free, s'.free, t)
    && s' == s.(free := s'.free, place := Moved(s.place, s.free, s'.free, t, (k: nat) => InFree(k)))
  }

  ghost predicate UsedRing(s: State, s': State, t: nat) {
    && Thread(s, t) && (s.phases[t].Publishing? || s.phases[t].Fetching?)
    && RingStep(s.used, s'.used, t)
    && s' == s.(used := s'.used, place := Moved(s.place, s.used, s'.used, t, (k: nat) => InUsed(k)),
                sent := if s.phases[t].Publishing? && s'.used.pHead == s.used.pHead + 1
                        then s.sent + [s.phases[t].msg] else s.sent)
  }

  // ----- eg_cklog_enqueue

  ghost predicate LogCall(s: State, s': State, t: nat, msg: Msg) {
    && Thread(s, t) && s.phases[t].Ready? && s.free.pcs[t].Idle?
    && s' == At(s, t, Acquiring(msg)).(free := Call(s.free, t, Ring.DeqStart(false)))
  }

  /** No free cell: the call returns false. */
  ghost predicate LogFull(s: State, s': State, t: nat) {
    && Thread(s, t) && s.phases[t].Acquiring? && s.free.pcs[t].DeqDone? && !s.free.pcs[t].ok
    && s' == At(s, t, Ready).(free := Call(s.free, t, Ring.Idle))
  }

  ghost predicate LogAcquired(s: State, s': State, t: nat) {
    && Thread(s, t) && s.phases[t].Acquiring? && s.free.pcs[t].DeqDone? && s.free.pcs[t].ok
    && s' == At(s, t, Filling(s.free.pcs[t].v, s.phases[t].msg, 0)).(free := Call(s.free, t, Ring.Idle))
  }

  /** The address of byte d of a cell. */
  function Address(s: State, cell: nat, d: nat): (a: nat) {
    Base(cell, s.msgSize) + d
  }

  /** One store of strncpy. */
  ghost predicate LogFill(s: State, s': State, t: nat) {
    && Thread(s, t) && s.phases[t].Filling? && s.phases[t].done < s.msgSize
    && var p := s.phases[t];
       && Address(s, p.cell, p.done) < |s.memory|
       && s' == At(s, t, Filling(p.cell, p.msg, p.done + 1))
                .(memory := s.memory[Address(s, p.cell, p.done) := Strncpy(p.msg, s.msgSize)[p.done]])
  }

  ghost predicate LogFilled(s: State, s': State, t: nat) {
    && Thread(s, t) && s.phases[t].Filling? && s.phases[t].done == s.msgSize && s.used.pcs[t].Idle?
    && var i := s.phases[t].cell;
       s' == At(s, t, Publishing(i, s.phases[t].msg)).(used := Call(s.used, t, Ring.EnqStart(i)))
  }

  ghost predicate LogPublished(s: State, s': State, t: nat) {
    && Thread(s, t) && s.phases[t].Publishing? && s.used.pcs[t] == Ring.EnqDone(true)
    && s' == At(s, t, Ready).(used := Call(s.used, t, Ring.Idle))
  }

  /** The first retry branch. */
  ghost predicate LogRetry(s: State, s': State, t: nat) {
    && Thread(s, t) && s.phases[t].Publishing? && s.used.pcs[t] == Ring.EnqDone(false)
    && s' == s.(used := Call(s.used, t, Ring.EnqStart(s.phases[t].cell)))
  }

  // ----- eg_cklog_consume

  ghost predicate ConsumeCall(s: State, s': State, t: nat) {
    && Thread(s, t) && s.phases[t].Ready? && s.used.pcs[t].Idle?
    && s' == At(s, t, Fetching).(used := Call(s.used, t, Ring.DeqStart(false)))
  }

  ghost predicate ConsumeWait(s: State, s': State, t: nat) {
    && Thread(s, t) && s.phases[t].Fetching? && s.used.pcs[t].DeqDone? && !s.used.pcs[t].ok
    && s' == s.(used := Call(s.used, t, Ring.DeqStart(false)))
  }

  ghost predicate ConsumeFetched(s: State, s': State, t: nat) {
    && Thread(s, t) && s.phases[t].Fetching? && s.used.pcs[t].DeqDone? && s.used.pcs[t].ok
    && s' == At(s, t, Reading(s.used.pcs[t].v, s.used.pcs[t].consumer, "")).(used := Call(s.used, t, Ring.Idle))
  }

  /** The byte that a print loads next; None behind the end of the memory. */
  function NextByte(s: State, p: Phase): Option<char>
    requires p.Reading?
  {
    var a := Address(s, p.cell, |p.text|);
    if a < |s.memory| then Some(s.memory[a]) else None
  }

  /** One load of printf. */
  ghost predicate ConsumeRead(s: State, s': State, t: nat) {
    && Thread(s, t) && s.phases[t].Reading?
    && var p := s.phases[t];
       && NextByte(s, p).Some? && NextByte(s, p).value != NUL
       && s' == At(s, t, p.(text := p.text + [NextByte(s, p).value]))
  }

  /** The load that ends it. */
  ghost predicate ConsumePrint(s: State, s': State, t: nat) {
    && Thread(s, t) && s.phases[t].Reading? && s.free.pcs[t].Idle?
    && var p := s.phases[t];
       && (NextByte(s, p) == None || NextByte(s, p) == Some(NUL))
       && s' == At(s, t, Freeing(p.cell))
                .(printed := s.printed[p.ticket := if NextByte(s, p).Some? then Some(p.text) else None],
                  free := Call(s.free, t, Ring.EnqStart(p.cell)))
  }

  ghost predicate ConsumeFreed(s: State, s': State, t: nat) {
    && Thread(s, t) && s.phases[t].Freeing? && s.free.pcs[t] == Ring.EnqDone(true)
    && s' == At(s, t, Ready).(free := Call(s.free, t, Ring.Idle))
  }

  /** The second retry branch, the one that the source wonders about. */
  ghost predicate ConsumeRetry(s: State, s': State, t: nat) {
    && Thread(s, t) && s.phases[t].Freeing? && s.free.pcs[t] == Ring.EnqDone(false)
    && s' == s.(free := Call(s.free, t, Ring.EnqStart(s.phases[t].cell)))
  }

  ghost predicate LogStep(s: State, s': State, t: nat) {
    || (exists msg :: LogCall(s, s', t, msg)) || LogFull(s, s', t) || LogAcquired(s, s', t)
    || LogFill(s, s', t) || LogFilled(s, s', t) || LogPublished(s, s', t) || LogRetry(s, s', t)
  }

  ghost predicate ConsumeStep(s: State, s': State, t: nat) {
    || ConsumeCall(s, s', t) || ConsumeWait(s, s', t) || ConsumeFetched(s, s', t)
    || ConsumeRead(s, s', t) || ConsumePrint(s, s', t) || ConsumeFreed(s, s', t) || ConsumeRetry(s, s', t)
  }

  ghost predicate Step(s: State, s': State, t: nat) {
    FreeRing(s, s', t) || UsedRing(s, s', t) || LogStep(s, s', t) || ConsumeStep(s, s', t)
  }

  ghost predicate Next(s: State, s': State) {
    exists t :: Step(s, s', t)
  }

  ghost predicate StepAt(run: seq<State>, i: nat)
    requires i + 1 < |run|
  {
    Next(run[i], run[i + 1])
  }

  ghost predicate IsRun(run: seq<State>) {
    |run| > 0 && Init(run[0]) && forall i: nat | i + 1 < |run| :: StepAt(run, i)
  }

  // ----- the invariant

  /** While t offers an index, the ring it offers it to was not full when t looked. */
  ghost predicate SawRoom(r: Ring.State, t: nat)
    requires t < |r.pcs|
  {
    r.pcs[t].EnqSlow? ==> r.pcs[t].head < r.pcs[t].consumer + r.size - 1
  }

  /** The index that the thread has taken out of one ring and not yet put into the other. */
  ghost predicate HandHas(s: State, t: nat, i: nat)
    requires Thread(s, t)
  {
    match s.phases[t]
    case Acquiring(_) => s.free.pcs[t].DeqDone? && s.free.pcs[t].ok && s.free.pcs[t].v == i
    case Filling(cell, _, _) => cell == i
    case Publishing(cell, _) => Ring.Offering(s.used.pcs[t], i)
    case Fetching => s.used.pcs[t].DeqDone? && s.used.pcs[t].ok && s.used.pcs[t].v == i
    case Reading(cell, _, _) => cell == i
    case Freeing(cell) => Ring.Offering(s.free.pcs[t], i)
    case Ready => false
  }

  /** The used ticket that a consumer has taken and not yet printed. */
  ghost predicate HoldsTicket(s: State, t: nat, k: nat)
    requires Thread(s, t)
  {
    || (s.phases[t].Fetching? && s.used.pcs[t].DeqDone? && s.used.pcs[t].ok && s.used.pcs[t].consumer == k)
    || (s.phases[t].Reading? && s.phases[t].ticket == k)
  }

  function CellOf(s: State, i: nat): string {
    Cell(s.memory, s.msgSize, i)
  }

  ghost predicate PhaseInv(s: State, t: nat)
    requires Thread(s, t)
  {
    match s.phases[t]
    case Acquiring(_) => Ring.InDequeue(s.free.pcs[t]) && s.used.pcs[t].Idle?
    case Filling(i, msg, done) =>
      && s.free.pcs[t].Idle? && s.used.pcs[t].Idle? && done <= s.msgSize == |CellOf(s, i)|
      && CellOf(s, i)[..done] == Strncpy(msg, s.msgSize)[..done]
    case Reading(_, k, text) =>
      && s.free.pcs[t].Idle? && s.used.pcs[t].Idle? && k < |s.sent| && HasRead(text, s.sent[k], s.msgSize)
    case Publishing(i, msg) =>
      && Ring.InEnqueue(s.used.pcs[t], i) && s.free.pcs[t].Idle? && SawRoom(s.used, t)
      && (Ring.Offering(s.used.pcs[t], i) ==> CellOf(s, i) == Strncpy(msg, s.msgSize))
    case Fetching => Ring.InDequeue(s.used.pcs[t]) && s.free.pcs[t].Idle?
    case Freeing(i) => Ring.InEnqueue(s.free.pcs[t], i) && s.used.pcs[t].Idle? && SawRoom(s.free, t)
    case _ => s.free.pcs[t].Idle? && s.used.pcs[t].Idle?
  }

  ghost predicate InRing(r: Ring.State, k: nat, i: nat) {
    r.cHead <= k < r.pHead == |r.vals| && r.vals[k] == i
  }

  /** Where an index is said to be, it is. */
  ghost predicate PlaceInv(s: State, i: nat)
    requires i < |s.place|
  {
    match s.place[i]
    case InFree(k) => InRing(s.free, k, i)
    case InUsed(k) => InRing(s.used, k, i)
    case InHand(t) => Thread(s, t) && HandHas(s, t, i)
  }

  /** And nowhere else. */
  ghost predicate Nowhere(s: State) {
    && (forall k: nat, i: nat | InRing(s.free, k, i) :: i < |s.place| && s.place[i] == InFree(k))
    && (forall k: nat, i: nat | InRing(s.used, k, i) :: i < |s.place| && s.place[i] == InUsed(k))
    && (forall t: nat, i: nat | Thread(s, t) && HandHas(s, t, i) :: i < |s.place| && s.place[i] == InHand(t))
  }

  /** Every published message is in its cell until it is printed, and is printed at most once. */
  ghost predicate MessageInv(s: State) {
    && |s.sent| == s.used.pHead
    && (forall k: nat, i: nat | InRing(s.used, k, i) :: CellOf(s, i) == Strncpy(s.sent[k], s.msgSize))
    && (forall t: nat, k: nat, i: nat | Thread(s, t) && HoldsTicket(s, t, k) && HandHas(s, t, i) ::
          && k < s.used.cHead && k < |s.used.vals| && k < |s.sent| && s.used.vals[k] == i
          && CellOf(s, i) == Strncpy(s.sent[k], s.msgSize) && k !in s.printed)
    && (forall k | k in s.printed :: k < s.used.cHead && k < |s.sent| && Prints(s.printed[k], s.sent[k], s.msgSize))
  }

  ghost predicate Shape(s: State) {
    && Ring.Inv(s.free) && Ring.Inv(s.used) && s.free.size == s.used.size && |s.memory| == s.free.size * s.msgSize
    && |s.phases| == |s.free.pcs| == |s.used.pcs| && |s.place| == s.free.size - 1
  }

  ghost predicate Inv(s: State) {
    && Shape(s)
    && (forall t: nat | t < |s.phases| :: PhaseInv(s, t))
    && (forall i: nat | i < |s.place| :: PlaceInv(s, i))
    && Nowhere(s)
    && MessageInv(s)
  }

  // ----- an index in a thread's hands leaves room in both rings

  lemma {:induction false} DistinctBelow(q: seq<nat>, n: nat)
    requires forall j, k | 0 <= j < k < |q| :: q[j] != q[k]
    requires forall j | 0 <= j < |q| :: q[j] < n
    ensures |q| <= n
    decreases n
  {
    if |q| > 0 {
      assert q[0] < n;
      if j :| 0 <= j < |q| && q[j] == n - 1 {
        var rest := q[..j] + q[j + 1..];
        forall a, b | 0 <= a < b < |rest| ensures rest[a] != rest[b] {}
        forall a | 0 <= a < |rest| ensures rest[a] < n - 1 {}
        DistinctBelow(rest, n - 1);
      } else {
        DistinctBelow(q, n - 1);
      }
    }
  }

  lemma HandLeavesRoom(s: State, t: nat, i: nat)
    requires Inv(s) && Thread(s, t) && HandHas(s, t, i)
    ensures s.free.pHead < s.free.cHead + s.free.size - 1
    ensures s.used.pHead < s.used.cHead + s.used.size - 1
  {
    var f := s.free.vals[s.free.cHead..s.free.pHead] + [i];
    forall j, k | 0 <= j < k < |f| ensures f[j] != f[k] {
      assert InRing(s.free, s.free.cHead + j, f[j]);
      if k < |f| - 1 { assert InRing(s.free, s.free.cHead + k, f[k]); }
    }
    forall j | 0 <= j < |f| ensures f[j] < s.free.size - 1 {
      if j < |f| - 1 { assert InRing(s.free, s.free.cHead + j, f[j]); }
    }
    DistinctBelow(f, s.free.size - 1);
    var u := s.used.vals[s.used.cHead..s.used.pHead] + [i];
    forall j, k | 0 <= j < k < |u| ensures u[j] != u[k] {
      assert InRing(s.used, s.used.cHead + j, u[j]);
      if k < |u| - 1 { assert InRing(s.used, s.used.cHead + k, u[k]); }
    }
    forall j | 0 <= j < |u| ensures u[j] < s.free.size - 1 {
      if j < |u| - 1 { assert InRing(s.used, s.used.cHead + j, u[j]); }
    }
    DistinctBelow(u, s.free.size - 1);
  }

  // ----- the rings' own steps

  lemma OtherPhasesKept(s: State, s': State, t: nat)
    requires Inv(s) && Thread(s, t) && PhaseInv(s, t) && |s'.phases| == |s'.free.pcs| == |s'.used.pcs| == |s.phases|
    requires s'.memory == s.memory && s'.msgSize == s.msgSize && s.sent <= s'.sent
    requires s'.free.size == s.free.size && s'.used.size == s.used.size
    requires forall u: nat | u < |s.phases| && u != t ::
               s'.phases[u] == s.phases[u] && s'.free.pcs[u] == s.free.pcs[u] && s'.used.pcs[u] == s.used.pcs[u]
    requires PhaseInv(s', t)
    ensures forall u: nat | u < |s'.phases| :: PhaseInv(s', u)
  {
    forall u: nat | u < |s'.phases| ensures PhaseInv(s', u) {
      if u != t { assert PhaseInv(s, u); }
    }
  }

  ghost predicate SameTickets(r: Ring.State, r': Ring.State) {
    r'.cHead == r.cHead && r'.pHead == r.pHead && r'.vals == r.vals && r'.size == r.size && |r'.pcs| == |r.pcs|
  }

  /** As long as no index moves, it stays where it is. */
  lemma StillPlaced(s: State, s': State)
    requires Inv(s) && Shape(s') && SameTickets(s.free, s'.free) && SameTickets(s.used, s'.used)
    requires s'.place == s.place && s'.memory == s.memory && s'.msgSize == s.msgSize
    requires s'.sent == s.sent && s'.printed == s.printed
    requires |s'.phases| == |s.phases|
    requires forall u: nat, i: nat | Thread(s, u) :: HandHas(s', u, i) <==> HandHas(s, u, i)
    requires forall u: nat, k: nat | Thread(s, u) :: HoldsTicket(s', u, k) <==> HoldsTicket(s, u, k)
    ensures (forall i: nat | i < |s'.place| :: PlaceInv(s', i)) && Nowhere(s') && MessageInv(s')
  {
    forall k: nat, i: nat ensures InRing(s'.free, k, i) <==> InRing(s.free, k, i) {}
    forall k: nat, i: nat ensures InRing(s'.used, k, i) <==> InRing(s.used, k, i) {}
    hide HandHas;
    hide HoldsTicket;
    hide InRing;
    hide CellOf;
    forall i: nat | i < |s'.place| ensures PlaceInv(s', i) { assert PlaceInv(s, i); }
  }

  lemma FreeShuffleKeeps(s: State, s': State, t: nat)
    requires Inv(s) && FreeRing(s, s', t) && (s'.free == s.free || Ring.Shuffles(s.free, s'.free, t))
    ensures Inv(s')
  {
    hide Cell;
    hide Strncpy;
    hide Prints;
    hide InRing;
    Ring.KindOfStep(s.free, s'.free, t);
    hide Ring.Inv;
    hide Ring.Step;
    hide RingStep;
    assert PhaseInv(s, t);
    if s.phases[t].Freeing? && Ring.Offering(s.free.pcs[t], s.phases[t].cell) {
      HandLeavesRoom(s, t, s.phases[t].cell);
    }
    forall u: nat, i: nat | Thread(s, u) ensures HandHas(s', u, i) <==> HandHas(s, u, i) {}
    forall u: nat, k: nat | Thread(s, u) ensures HoldsTicket(s', u, k) <==> HoldsTicket(s, u, k) {}
    OtherPhasesKept(s, s', t);
    StillPlaced(s, s');
  }

  /** Thread t has put index c into the free ring. */
  lemma PlacedInFree(s: State, s': State, t: nat, c: nat)
    requires Inv(s) && Shape(s') && Thread(s, t) && HandHas(s, t, c) && |s'.phases| == |s.phases|
    requires c < |s.place| && s'.place == s.place[c := InFree(s.free.pHead)]
    requires s'.sent == s.sent && s'.memory == s.memory && s'.msgSize == s.msgSize && s'.printed == s.printed
    requires s'.used == s.used
    requires forall u: nat, i: nat | Thread(s, u) :: HandHas(s', u, i) <==> u != t && HandHas(s, u, i)
    requires forall u: nat, k: nat | Thread(s, u) :: HoldsTicket(s', u, k) <==> HoldsTicket(s, u, k)
    requires (forall k: nat :: !HoldsTicket(s, t, k)) && forall i: nat :: HandHas(s, t, i) ==> i == c
    requires forall k: nat, i: nat :: InRing(s'.free, k, i) <==> InRing(s.free, k, i) || (k == s.free.pHead && i == c)
    ensures (forall i: nat | i < |s'.place| :: PlaceInv(s', i)) && Nowhere(s') && MessageInv(s')
  {
    hide Ring.Inv;
    hide HandHas;
    hide HoldsTicket;
    hide InRing;
    hide Cell;
    hide Prints;
    forall i: nat | i < |s'.place| ensures PlaceInv(s', i) { assert PlaceInv(s, i); }
  }

  lemma FreeReserveKeeps(s: State, s': State, t: nat)
    requires Inv(s) && FreeRing(s, s', t) && Ring.Reserves(s.free, s'.free, t)
    ensures Inv(s')
  {
    hide Cell;
    hide Prints;
    Ring.KindOfStep(s.free, s'.free, t);
    assert PhaseInv(s, t);
    var c := s.phases[t].cell;
    assert HandHas(s, t, c);
    hide Ring.Inv;
    hide Ring.Step;
    hide RingStep;
    forall u: nat, i: nat | Thread(s, u) ensures HandHas(s', u, i) <==> u != t && HandHas(s, u, i) {}
    forall u: nat, k: nat | Thread(s, u) ensures HoldsTicket(s', u, k) <==> HoldsTicket(s, u, k) {}
    forall k: nat, i: nat ensures InRing(s'.free, k, i) <==> InRing(s.free, k, i) || (k == s.free.pHead && i == c) {}
    OtherPhasesKept(s, s', t);
    PlacedInFree(s, s', t, c);
  }

  /** Thread t has taken index c out of the free ring. */
  lemma TakenFromFree(s: State, s': State, t: nat, c: nat)
    requires Inv(s) && Shape(s') && Thread(s, t) && |s'.phases| == |s.phases| && InRing(s.free, s.free.cHead, c)
    requires c < |s.place| && s'.place == s.place[c := InHand(t)]
    requires s'.sent == s.sent && s'.memory == s.memory && s'.msgSize == s.msgSize && s'.printed == s.printed
    requires s'.used == s.used
    requires (forall i: nat :: !HandHas(s, t, i)) && forall i: nat :: InRing(s.free, s.free.cHead, i) ==> i == c
    requires forall u: nat, i: nat | Thread(s, u) :: HandHas(s', u, i) <==> HandHas(s, u, i) || (u == t && i == c)
    requires forall u: nat, k: nat | Thread(s, u) :: HoldsTicket(s', u, k) <==> HoldsTicket(s, u, k)
    requires forall k: nat :: !HoldsTicket(s, t, k)
    requires forall k: nat, i: nat :: InRing(s'.free, k, i) <==> InRing(s.free, k, i) && k != s.free.cHead
    ensures (forall i: nat | i < |s'.place| :: PlaceInv(s', i)) && Nowhere(s') && MessageInv(s')
  {
    hide Ring.Inv;
    hide HandHas;
    hide HoldsTicket;
    hide InRing;
    hide Cell;
    hide Prints;
    forall i: nat | i < |s'.place| ensures PlaceInv(s', i) { assert PlaceInv(s, i); }
  }

  lemma FreeTakeKeeps(s: State, s': State, t: nat)
    requires Inv(s) && FreeRing(s, s', t) && Ring.Takes(s.free, s'.free, t)
    ensures Inv(s')
  {
    hide Cell;
    hide Prints;
    Ring.KindOfStep(s.free, s'.free, t);
    assert PhaseInv(s, t);
    var c := s.free.vals[s.free.cHead];
    assert InRing(s.free, s.free.cHead, c);
    hide Ring.Inv;
    hide Ring.Step;
    hide RingStep;
    forall u: nat, i: nat | Thread(s, u) ensures HandHas(s', u, i) <==> HandHas(s, u, i) || (u == t && i == c) {}
    forall u: nat, k: nat | Thread(s, u) ensures HoldsTicket(s', u, k) <==> HoldsTicket(s, u, k) {}
    forall k: nat, i: nat ensures InRing(s'.free, k, i) <==> InRing(s.free, k, i) && k != s.free.cHead {}
    OtherPhasesKept(s, s', t);
    TakenFromFree(s, s', t, c);
  }

  lemma UsedShuffleKeeps(s: State, s': State, t: nat)
    requires Inv(s) && UsedRing(s, s', t) && (s'.used == s.used || Ring.Shuffles(s.used, s'.used, t))
    ensures Inv(s')
  {
    hide Cell;
    hide Strncpy;
    hide Prints;
    hide InRing;
    Ring.KindOfStep(s.used, s'.used, t);
    hide Ring.Inv;
    hide Ring.Step;
    hide RingStep;
    assert PhaseInv(s, t);
    if s.phases[t].Publishing? && Ring.Offering(s.used.pcs[t], s.phases[t].cell) {
      HandLeavesRoom(s, t, s.phases[t].cell);
    }
    forall u: nat, i: nat | Thread(s, u) ensures HandHas(s', u, i) <==> HandHas(s, u, i) {}
    forall u: nat, k: nat | Thread(s, u) ensures HoldsTicket(s', u, k) <==> HoldsTicket(s, u, k) {}
    OtherPhasesKept(s, s', t);
    StillPlaced(s, s');
  }

  /** Thread t has put index c into the used ring, with message m in its cell. */
  lemma PlacedInUsed(s: State, s': State, t: nat, c: nat, m: Msg)
    requires Inv(s) && Shape(s') && Thread(s, t) && HandHas(s, t, c) && |s'.phases| == |s.phases|
    requires c < |s.place| && s'.place == s.place[c := InUsed(s.used.pHead)]
    requires s'.sent == s.sent + [m] && s'.memory == s.memory && s'.msgSize == s.msgSize && s'.printed == s.printed
    requires CellOf(s, c) == Strncpy(m, s.msgSize)
    requires s'.used.cHead == s.used.cHead && s'.used.pHead == s.used.pHead + 1 && s'.used.vals == s.used.vals + [c]
    requires |s.used.vals| == s.used.pHead
    requires forall u: nat, i: nat | Thread(s, u) :: HandHas(s', u, i) <==> u != t && HandHas(s, u, i)
    requires forall u: nat, k: nat | Thread(s, u) :: HoldsTicket(s', u, k) <==> HoldsTicket(s, u, k)
    requires forall k: nat, i: nat :: InRing(s'.free, k, i) <==> InRing(s.free, k, i)
    requires forall k: nat, i: nat :: InRing(s'.used, k, i) <==> InRing(s.used, k, i) || (k == s.used.pHead && i == c)
    ensures (forall i: nat | i < |s'.place| :: PlaceInv(s', i)) && Nowhere(s') && MessageInv(s')
  {
    assert forall k: nat, i: nat | InRing(s.used, k, i) :: k < s.used.pHead;
    hide Ring.Inv;
    hide HandHas;
    hide HoldsTicket;
    hide InRing;
    forall i: nat | i < |s'.place| ensures PlaceInv(s', i) { assert PlaceInv(s, i); }
  }

  lemma UsedReserveKeeps(s: State, s': State, t: nat)
    requires Inv(s) && UsedRing(s, s', t) && Ring.Reserves(s.used, s'.used, t)
    ensures Inv(s')
  {
    Ring.KindOfStep(s.used, s'.used, t);
    assert |s.used.vals| == s.used.pHead;
    hide Ring.Inv;
    hide Ring.Step;
    hide RingStep;
    assert PhaseInv(s, t);
    var c := s.phases[t].cell;
    assert HandHas(s, t, c);
    forall u: nat, i: nat | Thread(s, u) ensures HandHas(s', u, i) <==> u != t && HandHas(s, u, i) {}
    forall u: nat, k: nat | Thread(s, u) ensures HoldsTicket(s', u, k) <==> HoldsTicket(s, u, k) {}
    forall k: nat, i: nat ensures InRing(s'.used, k, i) <==> InRing(s.used, k, i) || (k == s.used.pHead && i == c) {}
    OtherPhasesKept(s, s', t);
    PlacedInUsed(s, s', t, c, s.phases[t].msg);
  }

  /** Thread t has taken index c, under ticket n, out of the used ring. */
  lemma TakenFromUsed(s: State, s': State, t: nat, c: nat, n: nat)
    requires Inv(s) && Shape(s') && Thread(s, t) && |s'.phases| == |s.phases|
    requires n == s.used.cHead && InRing(s.used, n, c)
    requires c < |s.place| && s'.place == s.place[c := InHand(t)]
    requires s'.sent == s.sent && s'.memory == s.memory && s'.msgSize == s.msgSize && s'.printed == s.printed
    requires s'.free == s.free && n < |s.used.vals| && s.used.vals[n] == c && n < |s.sent|
    requires s'.used.cHead == n + 1 && s'.used.pHead == s.used.pHead && s'.used.vals == s.used.vals
    requires (forall i: nat :: !HandHas(s, t, i)) && forall i: nat :: InRing(s.used, n, i) ==> i == c
    requires forall k: nat :: !HoldsTicket(s, t, k)
    requires forall u: nat, i: nat | Thread(s, u) :: HandHas(s', u, i) <==> HandHas(s, u, i) || (u == t && i == c)
    requires forall u: nat, k: nat | Thread(s, u) ::
               HoldsTicket(s', u, k) <==> HoldsTicket(s, u, k) || (u == t && k == n)
    requires forall k: nat, i: nat :: InRing(s'.used, k, i) <==> InRing(s.used, k, i) && k != n
    ensures (forall i: nat | i < |s'.place| :: PlaceInv(s', i)) && Nowhere(s') && MessageInv(s')
  {
    hide Ring.Inv;
    hide HandHas;
    hide HoldsTicket;
    hide InRing;
    hide Cell;
    hide Prints;
    forall i: nat | i < |s'.place| ensures PlaceInv(s', i) { assert PlaceInv(s, i); }
  }

  lemma UsedTakeKeeps(s: State, s': State, t: nat)
    requires Inv(s) && UsedRing(s, s', t) && Ring.Takes(s.used, s'.used, t)
    ensures Inv(s')
  {
    hide Cell;
    hide Prints;
    Ring.KindOfStep(s.used, s'.used, t);
    assert PhaseInv(s, t);
    var c, n := s.used.vals[s.used.cHead], s.used.cHead;
    assert InRing(s.used, n, c);
    hide Ring.Inv;
    hide Ring.Step;
    hide RingStep;
    forall u: nat, i: nat | Thread(s, u) ensures HandHas(s', u, i) <==> HandHas(s, u, i) || (u == t && i == c) {}
    forall u: nat, k: nat | Thread(s, u)
      ensures HoldsTicket(s', u, k) <==> HoldsTicket(s, u, k) || (u == t && k == n)
    {}
    forall k: nat, i: nat ensures InRing(s'.used, k, i) <==> InRing(s.used, k, i) && k != n {}
    OtherPhasesKept(s, s', t);
    TakenFromUsed(s, s', t, c, n);
  }

  // ----- the logger's steps

  ghost predicate Inside(pc: Ring.Pc) {
    pc.Idle? || pc.EnqDone? || pc.DeqDone? || pc.EnqStart? || pc.DeqStart?
  }

  /** A move of t between its operations, at which no index changes hands. */
  lemma MoveKept(s: State, s': State, t: nat, p: Phase, free: Ring.Pc, used: Ring.Pc)
    requires Inv(s) && Thread(s, t)
    requires s' == At(s, t, p).(free := Call(s.free, t, free), used := Call(s.used, t, used))
    requires Inside(s.free.pcs[t]) && Inside(s.used.pcs[t])
    requires (free.Idle? || free.EnqStart? || free.DeqStart?) && (used.Idle? || used.EnqStart? || used.DeqStart?)
    requires PhaseInv(s', t)
    requires forall i: nat :: HandHas(s', t, i) <==> HandHas(s, t, i)
    requires forall k: nat :: HoldsTicket(s', t, k) <==> HoldsTicket(s, t, k)
    ensures Inv(s')
  {
    assert PhaseInv(s, t);
    Ring.LocalStepKeeps(s.free, s'.free, t, free);
    Ring.LocalStepKeeps(s.used, s'.used, t, used);
    forall u: nat, i: nat | Thread(s, u) ensures HandHas(s', u, i) <==> HandHas(s, u, i) {}
    forall u: nat, k: nat | Thread(s, u) ensures HoldsTicket(s', u, k) <==> HoldsTicket(s, u, k) {}
    OtherPhasesKept(s, s', t);
    StillPlaced(s, s');
  }

  lemma AcquiredKeeps(s: State, s': State, t: nat)
    requires Inv(s) && LogAcquired(s, s', t)
    ensures Inv(s')
  {
    hide Ring.Inv;
    assert PhaseInv(s, t) && HandHas(s, t, s.free.pcs[t].v);
    CellInside(s, s.free.pcs[t].v);
    MoveKept(s, s', t, s'.phases[t], Ring.Idle, s.used.pcs[t]);
  }

  lemma FilledKeeps(s: State, s': State, t: nat)
    requires Inv(s) && LogFilled(s, s', t)
    ensures Inv(s')
  {
    hide Ring.Inv;
    assert PhaseInv(s, t) && HandHas(s, t, s.phases[t].cell);
    CellInside(s, s.phases[t].cell);
    MoveKept(s, s', t, s'.phases[t], s.free.pcs[t], s'.used.pcs[t]);
  }

  lemma CallOrReturnKeeps(s: State, s': State, t: nat)
    requires Inv(s)
    requires (exists msg :: LogCall(s, s', t, msg)) || LogFull(s, s', t) || LogPublished(s, s', t) || LogRetry(s, s', t)
    ensures Inv(s')
  {
    hide Ring.Inv;
    hide Cell;
    hide Strncpy;
    hide Prints;
    assert PhaseInv(s, t);
    var p, f, u := s'.phases[t], s'.free.pcs[t], s'.used.pcs[t];
    assert s' == At(s, t, p).(free := Call(s.free, t, f), used := Call(s.used, t, u));
    MoveKept(s, s', t, p, f, u);
  }

  lemma LogMoveKeeps(s: State, s': State, t: nat)
    requires Inv(s) && LogStep(s, s', t) && !LogFill(s, s', t)
    ensures Inv(s')
  {
    hide Inv;
    if LogAcquired(s, s', t) {
      AcquiredKeeps(s, s', t);
    } else if LogFilled(s, s', t) {
      FilledKeeps(s, s', t);
    } else {
      CallOrReturnKeeps(s, s', t);
    }
  }

  lemma ConsumeMoveKeeps(s: State, s': State, t: nat)
    requires Inv(s) && ConsumeStep(s, s', t) && !ConsumeRead(s, s', t) && !ConsumePrint(s, s', t)
    ensures Inv(s')
  {
    assert PhaseInv(s, t);
    if ConsumeFetched(s, s', t) {
      assert HandHas(s, t, s.used.pcs[t].v) && HoldsTicket(s, t, s.used.pcs[t].consumer);
    }
    var p, f, u := s'.phases[t], s'.free.pcs[t], s'.used.pcs[t];
    assert s' == At(s, t, p).(free := Call(s.free, t, f), used := Call(s.used, t, u));
    MoveKept(s, s', t, p, f, u);
  }

  /** Two threads never hold the same index. */
  lemma OneHand(s: State, t: nat, u: nat, i: nat)
    requires Inv(s) && Thread(s, t) && Thread(s, u) && HandHas(s, t, i) && HandHas(s, u, i)
    ensures t == u
  {}

  /** The cell of an index that circulates lies inside the memory. */
  lemma CellInside(s: State, i: nat)
    requires Shape(s) && i < |s.place|
    ensures i * s.msgSize + s.msgSize <= |s.memory| && |CellOf(s, i)| == s.msgSize
  {
    CellsApart(i, s.free.size, s.msgSize);
  }

  /** A store of t in its cell leaves the cells and the hands of others alone. */
  lemma FillTouchesOwnCell(s: State, s': State, t: nat)
    requires Inv(s) && LogFill(s, s', t)
    ensures forall i: nat | i != s.phases[t].cell :: CellOf(s', i) == CellOf(s, i)
    ensures forall u: nat, i: nat | Thread(s, u) :: HandHas(s', u, i) <==> HandHas(s, u, i)
    ensures forall u: nat, k: nat | Thread(s, u) :: HoldsTicket(s', u, k) <==> HoldsTicket(s, u, k)
    ensures HandHas(s, t, s.phases[t].cell) && Shape(s') && PhaseInv(s', t)
  {
    assert PhaseInv(s, t);
    var p := s.phases[t];
    assert HandHas(s, t, p.cell);
    CellInside(s, p.cell);
    StoreInCell(s.memory, s.msgSize, p.cell, p.done, Strncpy(p.msg, s.msgSize)[p.done]);
    hide Ring.Inv;
    hide Cell;
    hide Strncpy;
  }

  lemma FillKeeps(s: State, s': State, t: nat)
    requires Inv(s) && LogFill(s, s', t)
    ensures Inv(s')
  {
    FillTouchesOwnCell(s, s', t);
    var c := s.phases[t].cell;
    forall k: nat, i: nat | InRing(s.used, k, i) ensures i != c {}
    hide Ring.Inv;
    hide CellOf;
    hide Strncpy;
    hide InRing;
    forall u: nat | u < |s'.phases| ensures PhaseInv(s', u) {
      assert PhaseInv(s, u);
      if u != t && (s.phases[u].Publishing? || s.phases[u].Filling?) {
        var i := s.phases[u].cell;
        assert HandHas(s, u, i) <==> s.phases[u].Filling? || Ring.Offering(s.used.pcs[u], i);
      }
    }
    hide HandHas;
    hide HoldsTicket;
    hide LogFill;
    FillMoves(s, s', t);
    forall k: nat, i: nat ensures InRing(s'.free, k, i) <==> InRing(s.free, k, i) {}
    forall k: nat, i: nat ensures InRing(s'.used, k, i) <==> InRing(s.used, k, i) {}
    forall i: nat | i < |s'.place| ensures PlaceInv(s', i) { assert PlaceInv(s, i); }
  }

  lemma FillMoves(s: State, s': State, t: nat)
    requires LogFill(s, s', t)
    ensures s'.free == s.free && s'.used == s.used && s'.place == s.place && s'.sent == s.sent
    ensures s'.printed == s.printed && s'.msgSize == s.msgSize && |s'.phases| == |s.phases|
  {}

  /** What a print loads inside its own cell is the message that was published. */
  lemma LoadsOwnCell(s: State, t: nat)
    requires Inv(s) && Thread(s, t) && s.phases[t].Reading?
    ensures var p := s.phases[t];
            && p.ticket < |s.sent| && p.ticket !in s.printed && HasRead(p.text, s.sent[p.ticket], s.msgSize)
            && (|p.text| < s.msgSize ==> NextByte(s, p) == Some(Strncpy(s.sent[p.ticket], s.msgSize)[|p.text|]))
  {
    var p := s.phases[t];
    assert PhaseInv(s, t) && HandHas(s, t, p.cell) && HoldsTicket(s, t, p.ticket);
    CellInside(s, p.cell);
    if |p.text| < s.msgSize {
      assert CellOf(s, p.cell)[|p.text|] == s.memory[p.cell * s.msgSize + |p.text|];
    }
  }

  lemma ReadKeeps(s: State, s': State, t: nat)
    requires Inv(s) && ConsumeRead(s, s', t)
    ensures Inv(s')
  {
    assert PhaseInv(s, t);
    LoadsOwnCell(s, t);
    hide Ring.Inv;
    hide Cell;
    hide Strncpy;
    hide NextByte;
    forall u: nat, i: nat | Thread(s, u) ensures HandHas(s', u, i) <==> HandHas(s, u, i) {}
    forall u: nat, k: nat | Thread(s, u) ensures HoldsTicket(s', u, k) <==> HoldsTicket(s, u, k) {}
    OtherPhasesKept(s, s', t);
    StillPlaced(s, s');
  }

  /** Thread t has printed ticket n, and no index has moved. */
  lemma PrintedOnce(s: State, s': State, t: nat, n: nat)
    requires Inv(s) && Shape(s') && SameTickets(s.free, s'.free) && s'.used == s.used
    requires s'.place == s.place && s'.memory == s.memory && s'.msgSize == s.msgSize && s'.sent == s.sent
    requires |s'.phases| == |s.phases| && Thread(s, t) && HoldsTicket(s, t, n)
    requires n < s.used.cHead && n < |s.sent| && n in s'.printed && Prints(s'.printed[n], s.sent[n], s.msgSize)
    requires s'.printed == s.printed[n := s'.printed[n]]
    requires forall u: nat, i: nat | Thread(s, u) :: HandHas(s', u, i) <==> HandHas(s, u, i)
    requires forall u: nat, k: nat | Thread(s, u) :: HoldsTicket(s', u, k) <==> u != t && HoldsTicket(s, u, k)
    requires forall k: nat, i: nat :: InRing(s'.free, k, i) <==> InRing(s.free, k, i)
    requires forall u: nat, v: nat | Thread(s, u) && Thread(s, v) && HoldsTicket(s, u, n) && HoldsTicket(s, v, n) ::
               u == v
    ensures (forall i: nat | i < |s'.place| :: PlaceInv(s', i)) && Nowhere(s') && MessageInv(s')
  {
    hide Ring.Inv;
    hide HandHas;
    hide HoldsTicket;
    hide InRing;
    hide Cell;
    hide Prints;
    forall i: nat | i < |s'.place| ensures PlaceInv(s', i) { assert PlaceInv(s, i); }
  }

  lemma OneHolder(s: State, t: nat, u: nat, n: nat)
    requires Inv(s) && Thread(s, t) && Thread(s, u) && HoldsTicket(s, t, n) && HoldsTicket(s, u, n)
    ensures t == u
  {
    assert PhaseInv(s, t) && PhaseInv(s, u);
    var i := if s.phases[t].Reading? then s.phases[t].cell else s.used.pcs[t].v;
    var j := if s.phases[u].Reading? then s.phases[u].cell else s.used.pcs[u].v;
    assert HandHas(s, t, i) && HandHas(s, u, j);
    assert s.used.vals[n] == i == j;
    OneHand(s, t, u, i);
  }

  lemma PrintKeeps(s: State, s': State, t: nat)
    requires Inv(s) && ConsumePrint(s, s', t)
    ensures Inv(s')
  {
    assert PhaseInv(s, t);
    var c, n := s.phases[t].cell, s.phases[t].ticket;
    assert HandHas(s, t, c) && HoldsTicket(s, t, n);
    LoadsOwnCell(s, t);
    EndsReading(s.phases[t].text, s.sent[n], s.msgSize, NextByte(s, s.phases[t]));
    Ring.LocalStepKeeps(s.free, s'.free, t, s'.free.pcs[t]);
    hide Ring.Inv;
    hide CellOf;
    hide NextByte;
    hide Prints;
    forall u: nat, i: nat | Thread(s, u) ensures HandHas(s', u, i) <==> HandHas(s, u, i) {}
    forall u: nat, k: nat | Thread(s, u) ensures HoldsTicket(s', u, k) <==> u != t && HoldsTicket(s, u, k) {
      if u != t && HoldsTicket(s, u, n) { OneHolder(s, t, u, n); }
    }
    forall u: nat, v: nat | Thread(s, u) && Thread(s, v) && HoldsTicket(s, u, n) && HoldsTicket(s, v, n)
      ensures u == v
    {
      OneHolder(s, u, v, n);
    }
    OtherPhasesKept(s, s', t);
    PrintedOnce(s, s', t, n);
  }

  lemma StepKeeps(s: State, s': State, t: nat)
    requires Inv(s) && Step(s, s', t)
    ensures Inv(s')
  {
    assert Ring.Inv(s.free) && Ring.Inv(s.used);
    hide Inv;
    hide Ring.Inv;
    if FreeRing(s, s', t) {
      Ring.KindOfStep(s.free, s'.free, t);
      if Ring.Reserves(s.free, s'.free, t) { FreeReserveKeeps(s, s', t); }
      else if Ring.Takes(s.free, s'.free, t) { FreeTakeKeeps(s, s', t); }
      else { FreeShuffleKeeps(s, s', t); }
    } else if UsedRing(s, s', t) {
      Ring.KindOfStep(s.used, s'.used, t);
      if Ring.Reserves(s.used, s'.used, t) { UsedReserveKeeps(s, s', t); }
      else if Ring.Takes(s.used, s'.used, t) { UsedTakeKeeps(s, s', t); }
      else { UsedShuffleKeeps(s, s', t); }
    }
    else if LogFill(s, s', t) { FillKeeps(s, s', t); }
    else if ConsumeRead(s, s', t) { ReadKeeps(s, s', t); }
    else if ConsumePrint(s, s', t) { PrintKeeps(s, s', t); }
    else if LogStep(s, s', t) { LogMoveKeeps(s, s', t); }
    else { ConsumeMoveKeeps(s, s', t); }
  }

  lemma FreeRingStartsFull(r: Ring.State)
    requires IsPow2(r.size) && r.cHead == 0 && r.pTail == r.pHead == r.size - 1
    requires |r.slots| == r.size && |r.vals| == |r.owner| == r.size - 1 && r.out == []
    requires forall k | 0 <= k < r.size - 1 :: r.slots[k] == r.vals[k]
    requires forall t | 0 <= t < |r.pcs| :: r.pcs[t].Idle?
    ensures Ring.Inv(r)
  {
    forall k: nat ensures Ring.SlotInv(r, k) {
      if k < r.size { MaskKeepsSmall(k, r.size); }
    }
  }

  lemma InitHolds(s: State)
    requires Init(s)
    ensures Inv(s)
  {
    FreeRingStartsFull(s.free);
    Ring.InitHolds(s.used);
    forall i: nat | i < |s.place| ensures PlaceInv(s, i) {}
  }

  lemma {:induction false} ReachableInv(run: seq<State>, i: nat)
    requires IsRun(run) && i < |run|
    ensures Inv(run[i])
  {
    hide Inv;
    hide Step;
    if i == 0 {
      InitHolds(run[0]);
    } else {
      ReachableInv(run, i - 1);
      assert StepAt(run, i - 1);
      var t :| Step(run[i - 1], run[i], t);
      StepKeeps(run[i - 1], run[i], t);
    }
  }

  // ----- what the logger promises

  /** Exactly the indices 0 .. N - 2 circulate, and each is in exactly one place: `place` names it,
      and no other ticket and no other hand has the index. */
  lemma IndicesAreConserved(run: seq<State>, n: nat, i: nat)
    requires IsRun(run) && n < |run| && i < run[n].free.size - 1
    ensures |run[n].place| == run[n].free.size - 1 && PlaceInv(run[n], i)
    ensures forall k: nat :: InRing(run[n].free, k, i) ==> run[n].place[i] == InFree(k)
    ensures forall k: nat :: InRing(run[n].used, k, i) ==> run[n].place[i] == InUsed(k)
    ensures forall t: nat :: Thread(run[n], t) && HandHas(run[n], t, i) ==> run[n].place[i] == InHand(t)
  {
    ReachableInv(run, n);
  }

  /** No other index is ever in a ring or in a hand. */
  lemma NothingElseCirculates(run: seq<State>, n: nat, i: nat)
    requires IsRun(run) && n < |run| && run[n].free.size - 1 <= i
    ensures forall k: nat :: !InRing(run[n].free, k, i) && !InRing(run[n].used, k, i)
    ensures forall t: nat :: Thread(run[n], t) ==> !HandHas(run[n], t, i)
  {
    ReachableInv(run, n);
  }

  /** The source's question, answered: neither retry branch can ever be taken. */
  lemma RetriesAreImpossible(run: seq<State>, n: nat, t: nat)
    requires IsRun(run) && n < |run|
    ensures !exists s' :: LogRetry(run[n], s', t) || ConsumeRetry(run[n], s', t)
  {
    ReachableInv(run, n);
    if Thread(run[n], t) { assert PhaseInv(run[n], t); }
  }

  /** A cell that a thread fills or prints belongs to no other thread. */
  lemma CellsHaveOneOwner(run: seq<State>, n: nat, t: nat, u: nat)
    requires IsRun(run) && n < |run| && t < |run[n].phases| && u < |run[n].phases|
    requires run[n].phases[t].Filling? || run[n].phases[t].Reading?
    requires run[n].phases[u].Filling? || run[n].phases[u].Reading?
    requires run[n].phases[t].cell == run[n].phases[u].cell
    ensures t == u
  {
    ReachableInv(run, n);
    OneHand(run[n], t, u, run[n].phases[t].cell);
  }

  /** What is printed for a ticket is the message published under it if that is shorter than a cell, and
      nothing is printed twice: a thread that prints finds its ticket unprinted. */
  lemma MessagesArriveIntact(run: seq<State>, n: nat, t: nat)
    requires IsRun(run) && n < |run|
    ensures forall k | k in run[n].printed ::
              k < |run[n].sent| && (|run[n].sent[k]| < run[n].msgSize ==> run[n].printed[k] == Some(run[n].sent[k]))
    ensures t < |run[n].phases| && run[n].phases[t].Reading? ==> run[n].phases[t].ticket !in run[n].printed
  {
    ReachableInv(run, n);
    if t < |run[n].phases| && run[n].phases[t].Reading? { LoadsOwnCell(run[n], t); }
  }
}
