/** The logger of eg_cklog.c as an object, used by one thread at a time. */
module LogObject {
  import opened Bits
  import opened Wrappers
  import opened LogMemory
  import opened RingObject

  class Log {
    const free: Ring
    const used: Ring
    const memory: array<char>
    const msgSize: nat

    ghost predicate Valid()
      reads free, free.buffer, used, used.buffer
    {
      && free != used && free.buffer != used.buffer
      && free.Valid() && used.Valid() && free.size == used.size && memory.Length == free.size * msgSize
      && AllOnce(free.Contents(), used.Contents(), free.size - 1)
    }

    /** The bytes of the cells waiting to be printed, oldest first. */
    ghost function Queue(): seq<string>
      requires Valid()
      reads free, free.buffer, used, used.buffer, memory
    {
      CellsAt(memory[..], msgSize, used.Contents())
    }

    /** `eg_cklog_create`. */
    constructor (queueCapacity: nat, msgCapacity: nat)
      requires IsPow2(queueCapacity)
      ensures Valid() && fresh(free) && fresh(used) && fresh(free.buffer) && fresh(used.buffer) && fresh(memory)
      ensures Queue() == []
      ensures free.size == queueCapacity && msgSize == msgCapacity
    {
      Product(queueCapacity, msgCapacity);
      var f := CreateFreeRing(queueCapacity);
      var u := new Ring(queueCapacity);
      free, used, msgSize := f, u, msgCapacity;
      memory := new char[queueCapacity * msgCapacity];
      new;
      assert used.Contents() == [];
    }

    /** `strncpy` into cell i. */
    method Copy(i: nat, msg: Msg)
      requires i * msgSize + msgSize <= memory.Length
      modifies memory
      ensures Cell(memory[..], msgSize, i) == Strncpy(msg, msgSize)
      ensures forall j: nat | j != i :: Cell(memory[..], msgSize, j) == Cell(old(memory[..]), msgSize, j)
    {
      var a := Base(i, msgSize);
      ghost var bytes, before := Strncpy(msg, msgSize), memory[..];
      for d := 0 to msgSize
        invariant memory[..] == Stored(before, a, bytes[..d])
      {
        assert bytes[..d + 1] == bytes[..d] + [bytes[d]];
        StoredMore(before, a, bytes[..d], bytes[d]);
        memory[a + d] := if d < |msg| then msg[d] else NUL;
      }
      assert bytes[..msgSize] == bytes;
      StoredInCell(before, msgSize, i, bytes);
    }

    /** `printf` from cell i on. */
    method Print(i: nat) returns (text: Option<string>)
      requires i * msgSize <= memory.Length
      ensures text == CString(memory[..], Base(i, msgSize))
    {
      var a := Base(i, msgSize);
      var e := a;
      while e < memory.Length && memory[e] != NUL
        invariant a <= e <= memory.Length && Scan(memory[..], a) == Scan(memory[..], e)
      {
        e := e + 1;
      }
      text := if e < memory.Length then Some(memory[a..e]) else None;
    }

    /** `eg_cklog_enqueue`: the log is a queue of at most N - 1 cells, and the retry branch is dead. When the log
        is full it returns false; otherwise the source has no return statement, and r is anything. */
    method Enqueue(msg: Msg) returns (r: bool, ghost accepted: bool)
      requires Valid()
      modifies free, free.buffer, used, used.buffer, memory
      ensures Valid() && accepted == (|old(Queue())| < free.size - 1) && (!accepted ==> !r)
      ensures Queue() == if accepted then old(Queue()) + [Strncpy(msg, msgSize)] else old(Queue())
    {
      hide IsPow2;
      ghost var f, u := free.Contents(), used.Contents();
      hide AllOnce;
      hide Below;
      var i: nat;
      r, i := free.Dequeue();
      accepted := r;
      if !r {
        Sizes(f, u, free.size - 1);
        return;
      }
      ToUsed(f, u, free.size - 1);
      CellsApart(i, free.size, msgSize);
      Copy(i, msg);
      var rv := used.Enqueue(i);
      if !rv {
        assert false;
      }
      CellsPushed(old(memory[..]), memory[..], msgSize, u, i);
      r := *;
    }

    /** `eg_cklog_consume`, which spins while there is nothing to print. A message shorter than a cell is
        printed as it was logged; from a longer one the print runs on, perhaps past the end of the memory. */
    method Consume() returns (text: Option<string>)
      requires Valid() && Queue() != []
      modifies free, free.buffer, used, used.buffer
      ensures Valid() && Queue() == old(Queue())[1..]
      ensures exists i: nat :: IsPrinted(old(memory[..]), msgSize, i, old(Queue())[0], text)
      ensures forall msg: Msg | old(Queue())[0] == Strncpy(msg, msgSize) :: Prints(text, msg, msgSize)
    {
      hide IsPow2;
      hide AllOnce;
      hide Cell;
      hide Scan;
      hide Strncpy;
      ghost var f, u := free.Contents(), used.Contents();
      var rv, i := used.Dequeue();
      ToFree(f, u, free.size - 1);
      CellsApart(i, free.size, msgSize);
      text := Print(i);
      rv := free.Enqueue(i);
      if !rv {
        assert false;
      }
      FrontIsPrinted(memory[..], msgSize, u, text);
    }
  }

  /** `text` is the C string that starts with the bytes `cell` of cell i. */
  ghost predicate IsPrinted(memory: string, n: nat, i: nat, cell: string, text: Option<string>) {
    Base(i, n) + n <= |memory| && Cell(memory, n, i) == cell && text == CString(memory, Base(i, n))
  }

  /** The front of a queue of cells has been printed. */
  lemma FrontIsPrinted(memory: string, n: nat, u: seq<nat>, text: Option<string>)
    requires u != [] && Base(u[0], n) + n <= |memory| && text == CString(memory, Base(u[0], n))
    ensures CellsAt(memory, n, u)[1..] == CellsAt(memory, n, u[1..])
    ensures IsPrinted(memory, n, u[0], CellsAt(memory, n, u)[0], text)
    ensures forall msg: Msg | CellsAt(memory, n, u)[0] == Strncpy(msg, n) :: Prints(text, msg, n)
  {
    forall msg: Msg | CellsAt(memory, n, u)[0] == Strncpy(msg, n) ensures Prints(text, msg, n) {
      CellPrints(memory, n, u[0], msg);
    }
  }

  ghost predicate Distinct(q: seq<nat>) {
    forall j, k | 0 <= j < k < |q| :: q[j] != q[k]
  }

  ghost predicate Below(q: seq<nat>, n: int) {
    forall j | 0 <= j < |q| :: q[j] < n
  }

  /** Each of the indices below n is in one of the two queues, once. */
  ghost predicate AllOnce(f: seq<nat>, u: seq<nat>, n: int) {
    && |f| + |u| == n && Below(f, n) && Below(u, n) && Distinct(f) && Distinct(u)
    && forall j, k | 0 <= j < |f| && 0 <= k < |u| :: f[j] != u[k]
  }

  ghost function CellsAt(memory: string, n: nat, indices: seq<nat>): seq<string> {
    seq(|indices|, j requires 0 <= j < |indices| => Cell(memory, n, indices[j]))
  }

  lemma Sizes(f: seq<nat>, u: seq<nat>, n: int)
    requires AllOnce(f, u, n)
    ensures |f| + |u| == n
  {}

  /** The oldest free index becomes the newest used one. */
  lemma ToUsed(f: seq<nat>, u: seq<nat>, n: int)
    requires AllOnce(f, u, n) && f != []
    ensures AllOnce(f[1..], u + [f[0]], n) && f[0] !in u && f[0] < n
    ensures |f| + |u| == n
  {}

  /** The oldest used index becomes the newest free one. */
  lemma ToFree(f: seq<nat>, u: seq<nat>, n: int)
    requires AllOnce(f, u, n) && u != []
    ensures AllOnce(f + [u[0]], u[1..], n) && u[0] < n
  {}

  lemma CellsPushed(before: string, after: string, n: nat, u: seq<nat>, i: nat)
    requires i !in u && forall j: nat | j != i :: Cell(after, n, j) == Cell(before, n, j)
    ensures CellsAt(after, n, u + [i]) == CellsAt(before, n, u) + [Cell(after, n, i)]
  {
    hide Cell;
    assert forall j | 0 <= j < |u| :: u[j] != i;
  }
}
