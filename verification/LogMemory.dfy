/** The message memory of eg_cklog.c: one block of cells of equal size, C strings in it, and what strncpy and
    printf make of them. */
module LogMemory {
  import opened Wrappers

  const NUL: char := '\0'

  /** The characters of a C string, without the NUL that ends it. */
  type Msg = s: string | NUL !in s

  /** What strncpy stores in n bytes: a string that is too long gets no NUL. */
  function Strncpy(msg: Msg, n: nat): (r: string)
    ensures |r| == n
  {
    if |msg| >= n then msg[..n] else msg + seq(n - |msg|, _ => NUL)
  }

  lemma Product(a: nat, b: nat)
    ensures 0 <= a * b
  {}

  /** The address of cell i. */
  function Base(i: nat, n: nat): (a: nat)
    ensures a == i * n
  {
    Product(i, n);
    i * n
  }

  /** The n bytes of cell i. */
  function Cell(memory: string, n: nat, i: nat): string {
    if i * n + n <= |memory| then memory[i * n..i * n + n] else []
  }

  /** Cells do not overlap. */
  lemma CellsApart(i: nat, j: nat, n: nat)
    requires i < j
    ensures i * n + n <= j * n
  {
    assert j * n == (i + 1) * n + (j - i - 1) * n;
    Product(j - i - 1, n);
  }

  /** A store in a cell leaves the others alone. */
  lemma StoreInCell(memory: string, n: nat, i: nat, d: nat, c: char)
    requires i * n + n <= |memory| && d < n
    ensures var after := memory[i * n + d := c];
            && Cell(after, n, i) == Cell(memory, n, i)[d := c]
            && forall j: nat | j != i :: Cell(after, n, j) == Cell(memory, n, j)
  {
    var after := memory[i * n + d := c];
    forall j: nat | j != i ensures Cell(after, n, j) == Cell(memory, n, j) {
      if j < i { CellsApart(j, i, n); } else { CellsApart(i, j, n); }
    }
  }

  /** The memory with some bytes stored at an address. */
  function Stored(memory: string, a: nat, bytes: string): string
    requires a + |bytes| <= |memory|
  {
    memory[..a] + bytes + memory[a + |bytes|..]
  }

  lemma StoredMore(memory: string, a: nat, bytes: string, c: char)
    requires a + |bytes| + 1 <= |memory|
    ensures Stored(memory, a, bytes + [c]) == Stored(memory, a, bytes)[a + |bytes| := c]
  {}

  /** Filling a cell leaves the others alone. */
  lemma StoredInCell(memory: string, n: nat, i: nat, bytes: string)
    requires i * n + n <= |memory| && |bytes| == n
    ensures var after := Stored(memory, Base(i, n), bytes);
            && Cell(after, n, i) == bytes && forall j: nat | j != i :: Cell(after, n, j) == Cell(memory, n, j)
  {
    var after := Stored(memory, Base(i, n), bytes);
    forall j: nat | j != i ensures Cell(after, n, j) == Cell(memory, n, j) {
      if j < i { CellsApart(j, i, n); } else { CellsApart(i, j, n); }
    }
  }

  // ----- reading

  /** A print that has read `text`, without a NUL, from the start of a cell into which `msg` was copied. */
  predicate HasRead(text: string, msg: Msg, n: nat) {
    && NUL !in text
    && forall j | 0 <= j < |text| && j < n :: text[j] == Strncpy(msg, n)[j]
  }

  /** It has read no more than the message, if that is shorter than the cell. */
  lemma ReadsNoFurther(text: string, msg: Msg, n: nat)
    requires HasRead(text, msg, n) && |msg| < n
    ensures |text| <= |msg| && text == msg[..|text|]
  {
    assert Strncpy(msg, n)[|msg|] == NUL;
    assert forall j | 0 <= j < |text| :: text[j] != NUL;
  }

  /** What is printed for a message: None if the print runs past the end of the block. */
  predicate Prints(printed: Option<string>, msg: Msg, n: nat) {
    if |msg| < n then printed == Some(msg) else printed.Some? ==> msg[..n] <= printed.value
  }

  /** A print ends at a NUL. Where that is found, or not at all, decides what is printed. */
  lemma EndsReading(text: string, msg: Msg, n: nat, end: Option<char>)
    requires HasRead(text, msg, n) && (end == None || end == Some(NUL))
    requires |text| < n ==> end == Some(Strncpy(msg, n)[|text|])
    ensures Prints(if end.Some? then Some(text) else None, msg, n)
  {
    assert forall j | 0 <= j < |msg| :: msg[j] != NUL;
    if |msg| < n {
      ReadsNoFurther(text, msg, n);
      assert text == msg;
    } else {
      assert msg[..n] <= text;
    }
  }

  /** The address of the first NUL from a on, or the end of the memory. */
  function Scan(memory: string, a: nat): (e: nat)
    requires a <= |memory|
    ensures a <= e <= |memory| && NUL !in memory[a..e] && (e < |memory| ==> memory[e] == NUL)
    decreases |memory| - a
  {
    if a == |memory| || memory[a] == NUL then a else Scan(memory, a + 1)
  }

  /** The C string at an address; None if it does not end inside the memory. */
  function CString(memory: string, a: nat): Option<string>
    requires a <= |memory|
  {
    var e := Scan(memory, a);
    if e < |memory| then Some(memory[a..e]) else None
  }

  /** What printf finds in a cell that strncpy has filled. */
  lemma CellPrints(memory: string, n: nat, i: nat, msg: Msg)
    requires i * n + n <= |memory| && Cell(memory, n, i) == Strncpy(msg, n)
    ensures Prints(CString(memory, Base(i, n)), msg, n)
  {
    var a := Base(i, n);
    var e := Scan(memory, a);
    var text := memory[a..e];
    assert forall j | 0 <= j < n :: memory[a + j] == Cell(memory, n, i)[j];
    EndsReading(text, msg, n, if e < |memory| then Some(memory[e]) else None);
  }
}
