/** Messages that are as long as a cell, or longer: the print runs on into the next cell. A message is
    printed intact in every run exactly if it is shorter than a cell. */
module LogOverrun {
  import Ring
  import opened Bits
  import opened Wrappers
  import opened LogMemory
  import opened LogPool
  import opened LogSteps

  // ----- every run

  /** A print loads the bytes from the start of its cell up to the one that ends it. These lie inside the
      cell if and only if the message is shorter than the cell. */
  lemma PrintLeavesCellExactly(run: seq<State>, i: nat, s': State, t: nat)
    requires IsRun(run) && i < |run| && ConsumePrint(run[i], s', t)
    ensures var p := run[i].phases[t];
            p.ticket < |run[i].sent| && (run[i].msgSize <= |p.text| <==> run[i].msgSize <= |run[i].sent[p.ticket]|)
  {
    ReachableInv(run, i);
    LoadsOwnCell(run[i], t);
    var s, p := run[i], run[i].phases[t];
    var n, msg := s.msgSize, s.sent[p.ticket];
    assert forall j | 0 <= j < |msg| :: msg[j] != NUL;
    if |msg| < n { ReadsNoFurther(p.text, msg, n); }
  }

  // ----- a run

  /** s ends a run. */
  ghost predicate Reached(s: State) {
    exists run: seq<State> :: IsRun(run) && run[|run| - 1] == s
  }

  lemma LeadsToReached(s0: State, ts: set<nat>, s: State)
    requires Reached(s0) && Leads(s0, ts, s)
    ensures Reached(s)
  {
    hide Init;
    hide StepAt;
    hide Leads;
    var run: seq<State> :| IsRun(run) && run[|run| - 1] == s0;
    var longer := ContinuesRun(run, ts, s);
  }

  /** Four cells, all NUL, and two threads. */
  ghost function Start(n: nat): State {
    Product(4, n);
    State(Ring.State(4, 0, 3, 3, [0, 1, 2, 0], [Ring.Idle, Ring.Idle], [0, 1, 2], [0, 0, 0], []),
          Ring.State(4, 0, 0, 0, [0, 0, 0, 0], [Ring.Idle, Ring.Idle], [], [], []),
          seq(4 * n, _ => NUL), n, [Ready, Ready], seq(3, (k: nat) => InFree(k)), [], map[])
  }

  lemma StartIsReached(n: nat)
    ensures Reached(Start(n))
  {
    assert Pow2(2) == 4;
    assert Init(Start(n));
    assert IsRun([Start(n)]) && [Start(n)][|[Start(n)]| - 1] == Start(n);
  }

  lemma SmallSlots(r: Ring.State, k: nat)
    requires r.size == 4 && k < 4
    ensures Ring.Slot(r, k) == k
  {
    assert Pow2(2) == 4;
    MaskKeepsSmall(k, 4);
  }

  /** A character that does not continue the message behind the cell. */
  function Other(msg: Msg, n: nat): (x: char)
    ensures x != NUL && (n < |msg| ==> msg[n] != x)
  {
    if n < |msg| && msg[n] == 'x' then 'y' else 'x'
  }

  /** Thread 0 has logged the message in cell 0 and is printing it. Thread 1 has filled cell 1 with a
      message of one character and not published it yet. */
  ghost predicate Halfway(s: State, msg: Msg, n: nat) {
    && Thread(s, 0) && Thread(s, 1) && s.msgSize == n && s.sent == [msg] && s.printed == map[]
    && s.free.pcs[0].Idle? && s.phases == [Reading(0, 0, ""), Filling(1, [Other(msg, n)], n)]
    && 4 * n == |s.memory|
    && s.memory == Stored(Stored(Start(n).memory, 0, Strncpy(msg, n)), n, Strncpy([Other(msg, n)], n))
  }

  lemma FirstIsLogged(msg: Msg, n: nat) returns (s: State)
    ensures Leads(Start(n), {0, 1}, s)
    ensures var r := Ring.Go(Enqueue(Start(n).used, 0, 0, 6), 0, Ring.Idle);
            s == Start(n).(used := r, sent := [msg], place := s.place,
                           free := Start(n).free.(cHead := 1, out := [0]),
                           memory := Stored(Start(n).memory, 0, Strncpy(msg, n)))
  {
    hide Leads;
    var a := Start(n);
    LeadsNowhere(a, {0, 1});
    SmallSlots(a.free, 0);
    SmallSlots(a.used, 0);
    var b := Acquires(Start(n), {0, 1}, a, 0, msg);
    Fills(Start(n), {0, 1}, b, 0, msg, 0, n);
    var bytes := Strncpy(msg, n);
    assert bytes[..n] == bytes;
    var c := At(b, 0, Filling(0, msg, n)).(memory := Stored(a.memory, 0, bytes));
    s := Publishes(Start(n), {0, 1}, c, 0, 0, msg);
  }

  lemma SecondFills(msg: Msg, n: nat) returns (s: State)
    ensures Leads(Start(n), {0, 1}, s) && Halfway(s, msg, n)
  {
    hide Leads;
    var w := [Other(msg, n)];
    var a := FirstIsLogged(msg, n);
    SmallSlots(a.free, 1);
    var b := Acquires(Start(n), {0, 1}, a, 1, w);
    Fills(Start(n), {0, 1}, b, 1, w, 1, n);
    var bytes := Strncpy(w, n);
    assert bytes[..n] == bytes;
    var c := At(b, 1, Filling(1, w, n)).(memory := Stored(a.memory, n, bytes));
    SmallSlots(Start(n).used, 0);
    SmallSlots(c.used, 0);
    s := Fetches(Start(n), {0, 1}, c, 0);
  }

  /** What is printed instead of a message of n characters or more: nothing sensible if the cells are empty,
      and otherwise a character of thread 1 in place of the rest. */
  function Spliced(msg: Msg, n: nat): Option<string> {
    if n == 0 then None else if n <= |msg| then Some(msg[..n] + [Other(msg, n)]) else Some(msg)
  }

  lemma TextOfTwoCells(s: State, msg: Msg, n: nat)
    requires Halfway(s, msg, n) && 0 < n <= |msg|
    ensures n + 1 < |s.memory| && s.memory[..n + 1] == msg[..n] + [Other(msg, n)] && s.memory[n + 1] == NUL
    ensures NUL !in s.memory[..n + 1]
  {
    var x := Other(msg, n);
    assert s.memory[..n] == msg[..n] && s.memory[n] == x;
    assert forall j | 0 <= j < |msg| :: msg[j] != NUL;
  }

  /** The steps from there to the print. */
  lemma PrintsSpliced(msg: Msg, n: nat) returns (s: State)
    requires n <= |msg|
    ensures Leads(Start(n), {0, 1}, s) && s.msgSize == n && s.sent == [msg] && s.printed == map[0 := Spliced(msg, n)]
    ensures |s.phases| == 2 && s.phases[1].Filling? && s.phases[1].cell == 1
  {
    hide Leads;
    var a := SecondFills(msg, n);
    var text := "";
    if n > 0 {
      TextOfTwoCells(a, msg, n);
      text := a.memory[..n + 1];
      assert a.memory[Address(a, 0, 0)..Address(a, 0, n + 1)] == text;
      ReadsOn(Start(n), {0, 1}, a, 0, 0, 0, n + 1);
    } else {
      assert At(a, 0, a.phases[0]) == a;
    }
    var b := At(a, 0, Reading(0, 0, text));
    s := At(b, 0, Freeing(0)).(printed := map[0 := Spliced(msg, n)], free := Call(b.free, 0, Ring.EnqStart(0)));
    assert ConsumePrint(b, s, 0);
    Moves(Start(n), {0, 1}, b, s, 0);
  }

  /** A run in which a message as long as a cell, or longer, is printed with a byte of thread 1's cell, or
      with no end. */
  lemma LongMessageIsSpliced(msg: Msg, n: nat) returns (s: State)
    requires n <= |msg|
    ensures Reached(s) && s.msgSize == n && s.sent == [msg] && s.printed == map[0 := Spliced(msg, n)]
    ensures |s.phases| == 2 && s.phases[1].Filling? && s.phases[1].cell == 1
  {
    hide Start;
    s := PrintsSpliced(msg, n);
    StartIsReached(n);
    LeadsToReached(Start(n), {0, 1}, s);
  }

  // ----- the exact condition

  /** In every run with cells of n bytes, whatever is printed for the message is the message. */
  ghost predicate AlwaysIntact(msg: Msg, n: nat) {
    forall run: seq<State>, i: nat, k: nat | IsRun(run) && PrintedFor(run, i, k, msg, n) ::
      run[i].printed[k] == Some(msg)
  }

  ghost predicate PrintedFor(run: seq<State>, i: nat, k: nat, msg: Msg, n: nat) {
    i < |run| && run[i].msgSize == n && k in run[i].printed && k < |run[i].sent| && run[i].sent[k] == msg
  }

  /** A message is printed intact in every run if and only if it is shorter than a cell. */
  lemma IntactExactlyBelowCellSize(msg: Msg, n: nat)
    ensures AlwaysIntact(msg, n) <==> |msg| < n
  {
    if |msg| < n {
      hide IsRun;
      forall run: seq<State>, i: nat, k: nat | IsRun(run) && PrintedFor(run, i, k, msg, n)
        ensures run[i].printed[k] == Some(msg)
      {
        MessagesArriveIntact(run, i, 0);
      }
    } else {
      var s := LongMessageIsSpliced(msg, n);
      var run: seq<State> :| IsRun(run) && run[|run| - 1] == s;
      assert PrintedFor(run, |run| - 1, 0, msg, n);
      assert 0 < n ==> Spliced(msg, n).value[n] == Other(msg, n);
    }
  }
}
