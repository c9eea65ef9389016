/** The probe sequence of ck_rhs.c: rotation inside groups of slots that share a cache line, jumps
    of growing length between groups, and the two ways in which the code runs it backwards.
    The masks of the code are remainders here: group size and capacity are powers of two. */
module RhsProbe {
  import opened Bits

  /** `group` is offset_mask + 1, a power of two that divides the capacity. */
  ghost predicate Grouped(capacity: nat, group: nat) {
    1 <= group && 1 <= capacity && capacity % group == 0
  }

  // ----- the code

  /** `ck_rhs_map_probe_next`. */
  function Next(capacity: nat, group: nat, offset: nat, probes: nat): nat
    requires 1 <= group && 1 <= capacity
  {
    if probes % group != 0 then InGroup(group, offset, offset + 1)
    else (offset + probes) % capacity
  }

  /** `ck_rhs_map_probe_prev`. Unsigned differences are taken modulo a multiple of the capacity. */
  function Prev(capacity: nat, group: nat, offset: nat, probes: nat): nat
    requires 1 <= group && 1 <= capacity
  {
    if probes % group != 0 then InGroup(group, offset, offset - 1)
    else (offset - probes) % capacity
  }

  /** The group of `offset`, at the index of `x` in a group. */
  function InGroup(group: nat, offset: nat, x: int): nat
    requires 1 <= group
  {
    offset / group * group + x % group
  }

  /** The slot of the p-th probe, counting from 1. */
  function Pos(capacity: nat, group: nat, h: nat, p: nat): nat
    requires 1 <= group && 1 <= capacity
  {
    if p <= 1 then h % capacity else Next(capacity, group, Pos(capacity, group, h, p - 1), p - 1)
  }

  /** One round of the loop of ck_rhs_get_first_offset. */
  function GroupBack(capacity: nat, group: nat, offset: nat, probes: nat): nat
    requires 1 <= group && 1 <= capacity && 1 <= probes
  {
    var o := (offset - (probes - 1) / group * group) % capacity;
    InGroup(group, o, o - (group - 1))
  }

  // ----- coordinates: group number and index in the group

  function Coord(group: nat, g: nat, r: nat): nat {
    group * g + r
  }

  function Wrap(x: int, d: nat): (r: nat)
    requires 1 <= d
    ensures r < d
  {
    x % d
  }

  lemma CoordDivides(group: nat, g: nat, r: nat)
    requires r < group
    ensures Coord(group, g, r) / group == g && Coord(group, g, r) % group == r
    ensures g * group == group * g
  {
    var o := Coord(group, g, r);
    ModUnique(o, group, g, r);
    var q := o / group;
    assert group * q == group * g;
    var m := q - g;
    assert group * m == group * q - group * g;
    assert group * -m == -(group * m);
    if m >= 1 {
      MulAtLeast(group, m);
    } else if m <= -1 {
      MulAtLeast(group, -m);
    }
  }

  /** Moving by whole groups, modulo n groups. */
  lemma ShiftGroups(group: nat, n: nat, g: nat, r: nat, k: int)
    requires r < group && g < n
    ensures (Coord(group, g, r) + group * k) % (group * n) == Coord(group, Wrap(g + k, n), r)
  {
    var q, m := (g + k) / n, (g + k) % n;
    assert g + k == n * q + m;
    assert group * (g + k) == group * (n * q) + group * m;
    assert group * (n * q) == (group * n) * q;
    assert group * (g + k) == group * g + group * k;
    assert group * (m + 1) == group * m + group;
    assert group * m + r < group * n by {
      assert m + 1 <= n;
      assert group * (n - (m + 1)) == group * n - group * (m + 1);
      MulSign(group, n - (m + 1));
    }
    ModUnique(Coord(group, g, r) + group * k, group * n, q, Coord(group, m, r));
  }

  lemma MulSign(a: nat, b: nat)
    ensures 0 <= a * b
  {}

  lemma Rotates(group: nat, g: nat, r: nat, d: int)
    requires r < group
    ensures InGroup(group, Coord(group, g, r), Coord(group, g, r) + d) == Coord(group, g, Wrap(r + d, group))
  {
    CoordDivides(group, g, r);
    var q := (r + d) / group;
    assert r + d == group * q + (r + d) % group;
    assert Coord(group, g, r) + d == group * (g + q) + (r + d) % group;
    ModUnique(Coord(group, g, r) + d, group, g + q, (r + d) % group);
  }

  // ----- where the p-th probe is

  /** The group after a jumps from g0: it moves by 1, 2, 3 and so on. */
  function GroupAfter(n: nat, g0: nat, a: nat): (g: nat)
    requires g0 < n
    ensures g < n
  {
    if a == 0 then g0 else Wrap(GroupAfter(n, g0, a - 1) + a, n)
  }

  /** The index in the group after a jumps and b rotations since the last one. */
  function IndexAfter(group: nat, r0: nat, a: nat, b: nat): (r: nat)
    requires r0 < group
    ensures r < group
  {
    Wrap(r0 + b - a, group)
  }

  lemma ModShift(x: int, d: nat)
    requires 1 <= d
    ensures (x + d) % d == x % d && (x - d) % d == x % d
  {
    var q, r := x / d, x % d;
    assert x == d * q + r;
    assert d * (q + 1) == d * q + d && d * (q - 1) == d * q - d;
    ModUnique(x + d, d, q + 1, r);
    ModUnique(x - d, d, q - 1, r);
  }

  lemma ModAdd(x: int, y: int, d: nat)
    requires 1 <= d
    ensures (x % d + y) % d == (x + y) % d
  {
    var q, q' := x / d, (x % d + y) / d;
    var r := (x % d + y) % d;
    assert x == d * q + x % d;
    assert x % d + y == d * q' + r;
    assert d * (q + q') == d * q + d * q';
    ModUnique(x + y, d, q + q', r);
  }

  /** The probe number after a jumps and b rotations. */
  function Probe(group: nat, a: nat, b: nat): nat {
    group * a + b + 1
  }

  lemma RotateStep(capacity: nat, group: nat, g: nat, r0: nat, a: nat, b: nat)
    requires 1 <= capacity && r0 < group && b + 1 < group
    ensures Next(capacity, group, Coord(group, g, IndexAfter(group, r0, a, b)), Probe(group, a, b))
         == Coord(group, g, IndexAfter(group, r0, a, b + 1))
  {
    hide Coord;
    ModUnique(Probe(group, a, b), group, a, b + 1);
    Rotates(group, g, IndexAfter(group, r0, a, b), 1);
    ModAdd(r0 + b - a, 1, group);
  }

  lemma JumpStep(capacity: nat, group: nat, n: nat, g: nat, r0: nat, a: nat)
    requires capacity == group * n && 1 <= capacity && g < n && r0 < group
    ensures Next(capacity, group, Coord(group, g, IndexAfter(group, r0, a, group - 1)), Probe(group, a, group - 1))
         == Coord(group, Wrap(g + (a + 1), n), IndexAfter(group, r0, a + 1, 0))
  {
    var p := Probe(group, a, group - 1);
    assert p == group * (a + 1);
    ModUnique(p, group, a + 1, 0);
    var r := IndexAfter(group, r0, a, group - 1);
    ShiftGroups(group, n, g, r, a + 1);
    ModShift(r0 + 0 - (a + 1), group);
    assert r0 + (group - 1) - a == r0 + 0 - (a + 1) + group;
  }

  lemma PosUnfolds(capacity: nat, group: nat, h: nat, p: nat)
    requires 1 <= group && 1 <= capacity && 1 <= p
    ensures Pos(capacity, group, h, 1) == h % capacity
    ensures Pos(capacity, group, h, p + 1) == Next(capacity, group, Pos(capacity, group, h, p), p)
  {}

  lemma ProbeUnfolds(group: nat, a: nat, b: nat)
    requires 1 <= group
    ensures 1 <= Probe(group, a, b)
    ensures 1 <= b ==> 1 <= Probe(group, a, b - 1) && Probe(group, a, b) == Probe(group, a, b - 1) + 1
    ensures 1 <= a ==> 1 <= Probe(group, a - 1, group - 1) && Probe(group, a, 0) == Probe(group, a - 1, group - 1) + 1
    ensures Probe(group, 0, 0) == 1
  {
    MulSign(group, a);
    if 1 <= a {
      MulSign(group, a - 1);
      assert group * a == group * (a - 1) + group;
    }
  }

  lemma GroupUnfolds(n: nat, g0: nat, a: nat)
    requires g0 < n
    ensures GroupAfter(n, g0, 0) == g0
    ensures 1 <= a ==> GroupAfter(n, g0, a) == Wrap(GroupAfter(n, g0, a - 1) + a, n)
  {}

  lemma FirstIndex(group: nat, r0: nat)
    requires r0 < group
    ensures IndexAfter(group, r0, 0, 0) == r0
  {
    ModUnique(r0, group, 0, r0);
  }

  lemma {:induction false} PosClosed(capacity: nat, group: nat, n: nat, h: nat, g0: nat, r0: nat, a: nat, b: nat)
    requires 1 <= group && capacity == group * n && g0 < n && r0 < group && b < group && 1 <= capacity
    requires h % capacity == Coord(group, g0, r0)
    ensures Pos(capacity, group, h, Probe(group, a, b))
         == Coord(group, GroupAfter(n, g0, a), IndexAfter(group, r0, a, b))
    decreases a, b
  {
    hide Coord;
    hide Next;
    hide Pos;
    hide IndexAfter;
    hide GroupAfter;
    hide Probe;
    PosUnfolds(capacity, group, h, 1);
    ProbeUnfolds(group, a, b);
    GroupUnfolds(n, g0, a);
    if b > 0 {
      PosClosed(capacity, group, n, h, g0, r0, a, b - 1);
      RotateStep(capacity, group, GroupAfter(n, g0, a), r0, a, b - 1);
      PosUnfolds(capacity, group, h, Probe(group, a, b - 1));
    } else if a > 0 {
      PosClosed(capacity, group, n, h, g0, r0, a - 1, group - 1);
      JumpStep(capacity, group, n, GroupAfter(n, g0, a - 1), r0, a - 1);
      PosUnfolds(capacity, group, h, Probe(group, a - 1, group - 1));
    } else {
      FirstIndex(group, r0);
    }
  }

  /** One round of get_first_offset undoes a whole group of probes. */
  lemma GroupBackUndoes(capacity: nat, group: nat, n: nat, h: nat, g0: nat, r0: nat, a: nat, b: nat)
    requires 1 <= group && capacity == group * n && g0 < n && r0 < group && b < group && 1 <= capacity
    requires h % capacity == Coord(group, g0, r0) && 1 <= a
    ensures GroupBack(capacity, group, Pos(capacity, group, h, Probe(group, a, b)), Probe(group, a, b))
         == Pos(capacity, group, h, Probe(group, a - 1, b))
  {
    hide Pos;
    var g, r := GroupAfter(n, g0, a - 1), IndexAfter(group, r0, a, b);
    PosClosed(capacity, group, n, h, g0, r0, a, b);
    PosClosed(capacity, group, n, h, g0, r0, a - 1, b);
    GroupBackCoord(capacity, group, n, g, GroupAfter(n, g0, a), r, a, b);
    ModAdd(r0 + b - a, 1, group);
  }

  lemma GroupBackCoord(capacity: nat, group: nat, n: nat, g: nat, g': nat, r: nat, a: nat, b: nat)
    requires capacity == group * n && 1 <= capacity && g < n && r < group && b < group && 1 <= a
    requires g' == Wrap(g + a, n)
    ensures GroupBack(capacity, group, Coord(group, g', r), Probe(group, a, b)) == Coord(group, g, Wrap(r + 1, group))
  {
    CoordDivides(group, a, b);
    hide Coord;
    hide InGroup;
    var o, back: int := Coord(group, g', r), 0 - a;
    assert (Probe(group, a, b) - 1) / group * group == group * a;
    assert group * back == -(group * a);
    ShiftGroups(group, n, g', r, back);
    UnwrapGroup(n, g, a);
    assert (o - (Probe(group, a, b) - 1) / group * group) % capacity == Coord(group, g, r);
    Rotates(group, g, r, 1 - group);
    ModShift(r + 1, group);
  }

  lemma UnwrapGroup(n: nat, g: nat, a: nat)
    requires g < n
    ensures Wrap(Wrap(g + a, n) + (0 - a), n) == g
  {
    ModAdd(g + a, 0 - a, n);
    ModUnique(g, n, 0, g);
  }

  // ----- the two walks back

  lemma MulMono(a: nat, b: nat, c: nat)
    requires b <= c
    ensures a * b <= a * c
  {
    assert a * c == a * b + a * (c - b);
    MulSign(a, c - b);
  }

  /** Capacity and home in coordinates. */
  lemma Coordinates(capacity: nat, group: nat, x: nat) returns (n: nat, g: nat, r: nat)
    requires Grouped(capacity, group) && x < capacity
    ensures capacity == group * n && g < n && r < group && x == Coord(group, g, r)
  {
    n, g, r := capacity / group, x / group, x % group;
    if g >= n { MulMono(group, n, g); }
  }

  lemma ProbeNumber(group: nat, p: nat) returns (a: nat, b: nat)
    requires 1 <= group && 1 <= p
    ensures p == Probe(group, a, b) && b < group && (a >= 1 <==> p > group)
  {
    a, b := (p - 1) / group, (p - 1) % group;
    if a >= 1 { MulAtLeast(group, a); }
  }

  lemma CoordInRange(group: nat, n: nat, g: nat, r: nat)
    requires g < n && r < group
    ensures Coord(group, g, r) < group * n
  {
    assert group * n == group * g + group * (n - g);
    MulAtLeast(group, n - g);
  }

  lemma PosInRange(capacity: nat, group: nat, h: nat, p: nat)
    requires Grouped(capacity, group) && 1 <= p
    ensures Pos(capacity, group, h, p) < capacity
  {
    hide Pos;
    hide Coord;
    hide Probe;
    var n, g0, r0 := Coordinates(capacity, group, h % capacity);
    var a, b := ProbeNumber(group, p);
    PosClosed(capacity, group, n, h, g0, r0, a, b);
    CoordInRange(group, n, GroupAfter(n, g0, a), IndexAfter(group, r0, a, b));
  }

  lemma CoordsDiffer(group: nat, g: nat, r: nat, g': nat, r': nat)
    requires r < group && r' < group && (g != g' || r != r')
    ensures Coord(group, g, r) != Coord(group, g', r')
  {
    hide Coord;
    CoordDivides(group, g, r);
    CoordDivides(group, g', r');
  }

  lemma IndicesDiffer(group: nat, r0: nat, a: nat, b: nat, b': nat)
    requires r0 < group && a <= 1 && b < b' < group
    ensures IndexAfter(group, r0, a, b) != IndexAfter(group, r0, a, b')
  {
    ModShift(r0 + b - a, group);
    ModShift(r0 + b' - a, group);
    ModsDiffer(r0 + b - a + group, r0 + b' - a + group, group);
  }

  /** Two probes of one line are at different slots. */
  lemma SameGroupDiffers(capacity: nat, group: nat, h: nat, a: nat, b: nat, b': nat)
    requires Grouped(capacity, group) && a <= 1 && b < b' < group
    ensures Pos(capacity, group, h, Probe(group, a, b)) != Pos(capacity, group, h, Probe(group, a, b'))
  {
    hide Pos;
    hide Coord;
    hide Probe;
    hide IndexAfter;
    var n, g0, r0 := Coordinates(capacity, group, h % capacity);
    PosClosed(capacity, group, n, h, g0, r0, a, b);
    PosClosed(capacity, group, n, h, g0, r0, a, b');
    IndicesDiffer(group, r0, a, b, b');
    CoordsDiffer(group, GroupAfter(n, g0, a), IndexAfter(group, r0, a, b),
                 GroupAfter(n, g0, a), IndexAfter(group, r0, a, b'));
  }

  /** The first jump leads to another group. */
  lemma NextGroupDiffers(capacity: nat, group: nat, h: nat, b: nat, b': nat)
    requires Grouped(capacity, group) && group < capacity && b < group && b' < group
    ensures Pos(capacity, group, h, Probe(group, 0, b)) != Pos(capacity, group, h, Probe(group, 1, b'))
  {
    hide Pos;
    hide Coord;
    hide Probe;
    hide IndexAfter;
    var n, g0, r0 := Coordinates(capacity, group, h % capacity);
    if n <= 1 { MulMono(group, n, 1); }
    PosClosed(capacity, group, n, h, g0, r0, 0, b);
    PosClosed(capacity, group, n, h, g0, r0, 1, b');
    GroupUnfolds(n, g0, 0);
    GroupUnfolds(n, g0, 1);
    ModsDiffer(g0, g0 + 1, n);
    ModUnique(g0, n, 0, g0);
    CoordsDiffer(group, GroupAfter(n, g0, 0), IndexAfter(group, r0, 0, b),
                 GroupAfter(n, g0, 1), IndexAfter(group, r0, 1, b'));
  }

  /** The first two groups of probes never meet a slot again. */
  lemma FirstProbesDiffer(capacity: nat, group: nat, h: nat, p: nat, q: nat)
    requires Grouped(capacity, group) && 1 <= p < q <= 2 * group && q <= capacity
    ensures Pos(capacity, group, h, p) != Pos(capacity, group, h, q)
  {
    hide Pos;
    if p <= group < q {
      assert Probe(group, 0, p - 1) == p && Probe(group, 1, q - group - 1) == q;
      NextGroupDiffers(capacity, group, h, p - 1, q - group - 1);
    } else if q <= group {
      assert Probe(group, 0, p - 1) == p && Probe(group, 0, q - 1) == q;
      SameGroupDiffers(capacity, group, h, 0, p - 1, q - 1);
    } else {
      assert Probe(group, 1, p - group - 1) == p && Probe(group, 1, q - group - 1) == q;
      SameGroupDiffers(capacity, group, h, 1, p - group - 1, q - group - 1);
    }
  }

  /** `probe_prev` undoes `probe_next`. */
  lemma PrevUndoesNext(capacity: nat, group: nat, offset: nat, p: nat)
    requires Grouped(capacity, group) && offset < capacity && 1 <= p
    ensures Prev(capacity, group, Next(capacity, group, offset, p), p) == offset
  {
    hide Coord;
    var n, g, r := Coordinates(capacity, group, offset);
    if p % group != 0 {
      Rotates(group, g, r, 1);
      Rotates(group, g, Wrap(r + 1, group), -1);
      ModAdd(r + 1, -1, group);
      ModUnique(r, group, 0, r);
    } else {
      var back: int := 0 - p;
      ModAdd(offset + p, back, capacity);
      ModUnique(offset, capacity, 0, offset);
    }
  }

  /** The walk of ck_rhs_remove_wanted, which has the slot and its recorded number of probes only. */
  method WalkBack(capacity: nat, group: nat, slot: nat, recorded: nat, ghost h: nat) returns (offset: nat)
    requires Grouped(capacity, group) && 1 <= recorded && slot == Pos(capacity, group, h, recorded)
    ensures offset == h % capacity
  {
    hide Prev;
    hide Next;
    offset := slot;
    var probes := recorded;
    while probes > 1
      invariant 1 <= probes && offset == Pos(capacity, group, h, probes)
    {
      probes := probes - 1;
      PosInRange(capacity, group, h, probes);
      PrevUndoesNext(capacity, group, Pos(capacity, group, h, probes), probes);
      offset := Prev(capacity, group, offset, probes);
    }
  }

  lemma GroupBackFromPos(capacity: nat, group: nat, h: nat, p: nat)
    requires Grouped(capacity, group) && p > group
    ensures GroupBack(capacity, group, Pos(capacity, group, h, p), p) == Pos(capacity, group, h, p - group)
  {
    hide Pos;
    hide GroupBack;
    var n, g0, r0 := Coordinates(capacity, group, h % capacity);
    var a, b := ProbeNumber(group, p);
    GroupBackUndoes(capacity, group, n, h, g0, r0, a, b);
    assert Probe(group, a - 1, b) == p - group by {
      assert group * (a - 1) == group * a - group;
    }
  }

  lemma IndexBack(capacity: nat, group: nat, h: nat, p: nat)
    requires Grouped(capacity, group) && 1 <= p <= group
    ensures InGroup(group, Pos(capacity, group, h, p), Pos(capacity, group, h, p) - (p - 1)) == h % capacity
  {
    hide Pos;
    hide Coord;
    hide InGroup;
    var n, g0, r0 := Coordinates(capacity, group, h % capacity);
    PosClosed(capacity, group, n, h, g0, r0, 0, p - 1);
    assert Probe(group, 0, p - 1) == p;
    GroupUnfolds(n, g0, 0);
    var r := IndexAfter(group, r0, 0, p - 1);
    Rotates(group, g0, r, 1 - p);
    ModAdd(r0 + (p - 1) - 0, 1 - p, group);
    FirstIndex(group, r0);
  }

  /** `ck_rhs_get_first_offset`: whole groups at a time, then the rest at once. */
  method GetFirstOffset(capacity: nat, group: nat, slot: nat, recorded: nat, ghost h: nat) returns (first: nat)
    requires Grouped(capacity, group) && 1 <= recorded && slot == Pos(capacity, group, h, recorded)
    ensures first == h % capacity
  {
    hide GroupBack;
    hide InGroup;
    var offset, probes := slot, recorded;
    while probes > group
      invariant 1 <= probes && offset == Pos(capacity, group, h, probes)
    {
      GroupBackFromPos(capacity, group, h, probes);
      offset := GroupBack(capacity, group, offset, probes);
      probes := probes - group;
    }
    IndexBack(capacity, group, h, probes);
    first := InGroup(group, offset, offset - (probes - 1));
  }
}
