/** What each store of ck_hs.c's writer does to a table: which ones keep every entry reachable,
    and what they make of the set of keys. */
module HsStores {
  import opened Wrappers
  import opened MapSizes
  import opened HashKeys
  import opened HsTable

  // ----- the abstract set

  ghost function Keys(slots: seq<Slot>): set<Key> {
    set i | 0 <= i < |slots| && slots[i].Entry? :: slots[i].key
  }

  /** No two slots hold equivalent keys. */
  ghost predicate Distinct(t: Table) {
    forall i: nat, j: nat :: !Twin(t, i, j)
  }

  lemma KeyOfSlot(slots: seq<Slot>, i: nat)
    requires i < |slots|
    ensures slots[i].Entry? ==> slots[i].key in Keys(slots)
  {}

  lemma KeysHas(t: Table, key: Key)
    ensures Has(t, key) <==> exists k :: k in Keys(t.slots) && Class(t.cb, k) == Class(t.cb, key)
  {
    if k :| k in Keys(t.slots) && Class(t.cb, k) == Class(t.cb, key) {
      var i: nat :| i < |t.slots| && t.slots[i] == Entry(k);
      assert Holds(t, i, key);
    }
    if i: nat :| Holds(t, i, key) {
      assert t.slots[i].key in Keys(t.slots);
    }
  }

  lemma KeysWithEntry(slots: seq<Slot>, i: nat, key: Key)
    requires i < |slots| && !slots[i].Entry?
    ensures Keys(slots[i := Entry(key)]) == Keys(slots) + {key}
  {
    var after := slots[i := Entry(key)];
    forall k | k in Keys(slots) + {key} ensures k in Keys(after) {
      if k == key {
        assert after[i].key in Keys(after);
      } else {
        var j :| 0 <= j < |slots| && slots[j] == Entry(k);
        assert after[j] == Entry(k);
      }
    }
  }

  /** A slot whose key is stored nowhere else loses its key. */
  lemma KeysWithTombstone(slots: seq<Slot>, i: nat)
    requires i < |slots| && slots[i].Entry?
    requires forall j | 0 <= j < |slots| && j != i :: slots[j] != slots[i]
    ensures Keys(slots[i := Tombstone]) == Keys(slots) - {slots[i].key}
  {
    var after := slots[i := Tombstone];
    forall k | k in Keys(slots) && k != slots[i].key ensures k in Keys(after) {
      var j :| 0 <= j < |slots| && slots[j] == Entry(k);
      assert after[j] == Entry(k);
    }
  }

  /** A slot that holds the only copy of its key, or the same key, is overwritten. */
  lemma KeysWithReplacement(slots: seq<Slot>, i: nat, key: Key)
    requires i < |slots| && slots[i].Entry?
    requires forall j | 0 <= j < |slots| && j != i :: slots[j] != slots[i]
    ensures Keys(slots[i := Entry(key)]) == Keys(slots) - {slots[i].key} + {key}
  {
    KeysWithTombstone(slots, i);
    KeysWithEntry(slots[i := Tombstone], i, key);
    assert slots[i := Tombstone][i := Entry(key)] == slots[i := Entry(key)];
  }

  // ----- stores that keep a table good

  /** Same entries, and bounds that are no lower where it matters. */
  lemma BoundsKeepReach(t: Table, t': Table, i: nat, n: nat)
    requires Formed(t) && Formed(t') && i < |t.slots| && t.slots[i].Entry? && ReachAt(t, i, n)
    requires t'.cb == t.cb && t'.slots == t.slots
    requires Covered(t', Hash(t, i), n)
    ensures Reach(t', i)
  {
    hide Pos;
    forall m: nat | m < n ensures At(t', Hash(t, i), m) != Empty {
      assert At(t, Hash(t, i), m) != Empty;
    }
    assert ReachAt(t', i, n);
  }

  /** Higher bounds, or a new generation, change nothing for the entries. */
  lemma RaisedBoundsKeepGood(t: Table, t': Table, doomed: Option<nat>)
    requires Good(t, doomed) && Formed(t')
    requires t' == t.(maximum := t'.maximum, bounds := t'.bounds, gen := t'.gen)
    requires t.maximum <= t'.maximum && |t.bounds| == |t'.bounds|
    requires forall o | 0 <= o < |t.bounds| :: t.bounds[o] <= t'.bounds[o]
    ensures Good(t', doomed)
  {
    hide Pos;
    forall i: nat | i < |t'.slots| && t'.slots[i].Entry? ensures Reach(t', i) {
      assert Reach(t, i);
      var n: nat :| ReachAt(t, i, n);
      BoundsKeepReach(t, t', i, n);
    }
    if doomed.Some? {
      var j: nat :| Twin(t, doomed.value, j);
      assert Twin(t', doomed.value, j);
    }
  }

  /** Other entries stay reachable: no slot becomes EMPTY. */
  lemma StoreKeepsReach(t: Table, t': Table, i: nat, v: Slot, j: nat)
    requires Formed(t) && Formed(t') && i < |t.slots| && v != Empty && t' == t.(slots := t.slots[i := v])
    requires j != i && j < |t.slots| && t.slots[j].Entry? && Reach(t, j)
    ensures Reach(t', j)
  {
    hide Pos;
    var n: nat :| ReachAt(t, j, n);
    forall m: nat | m < n ensures At(t', Hash(t, j), m) != Empty {
      assert At(t, Hash(t, j), m) != Empty;
    }
    assert ReachAt(t', j, n);
  }

  /** Position n of the probe sequence of `key` is a place for it in slot i. */
  ghost predicate FitsAt(t: Table, key: Key, i: nat, n: nat)
    requires Formed(t)
  {
    var h := t.cb.hf(key);
    Pos(|t.slots|, h, n) == i && Covered(t, h, n) && NoEmptyBefore(t, h, n)
  }

  lemma EntryKeepsGood(t: Table, t': Table, i: nat, key: Key, n: nat)
    requires Good(t, None) && i < |t.slots| && FitsAt(t, key, i, n)
    requires t' == t.(slots := t.slots[i := Entry(key)])
    ensures Good(t', None)
  {
    hide Pos;
    var h := t.cb.hf(key);
    forall m: nat | m < n ensures At(t', h, m) != Empty {
      assert At(t, h, m) != Empty;
    }
    assert ReachAt(t', i, n);
    forall j: nat | j < |t'.slots| && t'.slots[j].Entry? && j != i ensures Reach(t', j) {
      StoreKeepsReach(t, t', i, Entry(key), j);
    }
  }

  lemma TombstoneKeepsGood(t: Table, t': Table, doomed: Option<nat>, i: nat)
    requires Good(t, doomed) && i < |t.slots| && t' == t.(slots := t.slots[i := Tombstone])
    ensures Good(t', None)
  {
    hide Pos;
    forall j: nat | j < |t'.slots| && t'.slots[j].Entry? ensures Reach(t', j) {
      StoreKeepsReach(t, t', i, Tombstone, j);
    }
  }

  lemma SignalKeepsGood(t: Table, t': Table, i: nat, j: nat)
    requires Good(t, None) && Twin(t, i, j) && |t'.gen| == 2 && t' == t.(gen := t'.gen)
    ensures Good(t', Some(i))
  {
    hide Pos;
    RaisedBoundsKeepGood(t, t', None);
    assert Twin(t', i, j);
  }

  // ----- what an operation leaves behind

  /** A map between two operations. `count` is n_entries. */
  ghost predicate Settled(t: Table, count: nat) {
    Good(t, None) && Distinct(t) && count == |Keys(t.slots)|
  }

  lemma OnlyCopy(t: Table, i: nat)
    requires Distinct(t) && i < |t.slots| && t.slots[i].Entry?
    ensures forall j | 0 <= j < |t.slots| && j != i :: t.slots[j] != t.slots[i]
  {
    forall j: nat | j < |t.slots| && j != i ensures t.slots[j] != t.slots[i] {
      assert !Twin(t, i, j);
    }
  }

  lemma AddKeepsDistinct(t: Table, t': Table, i: nat, key: Key)
    requires Distinct(t) && !Has(t, key) && i < |t.slots| && !t.slots[i].Entry?
    requires t'.cb == t.cb && t'.slots == t.slots[i := Entry(key)]
    ensures Distinct(t') && Keys(t'.slots) == Keys(t.slots) + {key} && key !in Keys(t.slots)
  {
    forall x: nat, y: nat ensures !Twin(t', x, y) {
      assert !Twin(t, x, y) && !Holds(t, x, key) && !Holds(t, y, key);
    }
    KeysWithEntry(t.slots, i, key);
    KeysHas(t, key);
  }

  lemma ReplaceKeepsDistinct(t: Table, t': Table, i: nat, key: Key)
    requires Distinct(t) && Holds(t, i, key)
    requires t'.cb == t.cb && t'.slots == t.slots[i := Entry(key)]
    ensures Distinct(t') && Keys(t'.slots) == Keys(t.slots) - {t.slots[i].key} + {key}
  {
    forall x: nat, y: nat ensures !Twin(t', x, y) {
      assert !Twin(t, x, y);
    }
    OnlyCopy(t, i);
    KeysWithReplacement(t.slots, i, key);
  }

  lemma RemoveKeepsDistinct(t: Table, t': Table, i: nat)
    requires Distinct(t) && i < |t.slots| && t.slots[i].Entry?
    requires t'.cb == t.cb && t'.slots == t.slots[i := Tombstone]
    ensures Distinct(t') && Keys(t'.slots) == Keys(t.slots) - {t.slots[i].key}
  {
    forall x: nat, y: nat ensures !Twin(t', x, y) {
      assert !Twin(t, x, y);
    }
    OnlyCopy(t, i);
    KeysWithTombstone(t.slots, i);
  }

  /** An entry moves from slot i to the free slot f, or is superseded there. */
  lemma MoveKeepsDistinct(t: Table, t': Table, f: nat, i: nat, key: Key)
    requires Distinct(t) && Holds(t, i, key) && f < |t.slots| && !t.slots[f].Entry?
    requires t'.cb == t.cb && t'.slots == t.slots[f := Entry(key)][i := Tombstone]
    ensures Distinct(t') && Keys(t'.slots) == Keys(t.slots) - {t.slots[i].key} + {key}
  {
    var middle := t.(slots := t.slots[i := Tombstone]);
    RemoveKeepsDistinct(t, middle, i);
    if j: nat :| Holds(middle, j, key) {
      assert Twin(t, i, j);
    }
    assert t'.slots == middle.slots[f := Entry(key)];
    AddKeepsDistinct(middle, t', f, key);
  }

  lemma ReplacementKeepsSize(t: Table, i: nat, key: Key)
    requires Distinct(t) && Holds(t, i, key)
    ensures t.slots[i].key in Keys(t.slots)
    ensures |Keys(t.slots) - {t.slots[i].key} + {key}| == |Keys(t.slots)|
  {
    var rest := Keys(t.slots) - {t.slots[i].key};
    if key in rest {
      var j: nat :| j < |t.slots| && t.slots[j] == Entry(key);
      assert Twin(t, i, j);
    }
    assert |rest| == |Keys(t.slots)| - 1;
  }

  lemma SameKeysSameHas(t: Table, t': Table, key: Key)
    requires Keys(t.slots) == Keys(t'.slots) && t.cb == t'.cb
    ensures Has(t, key) <==> Has(t', key)
  {
    KeysHas(t, key);
    KeysHas(t', key);
  }

  lemma KeysOfPrefix(slots: seq<Slot>, k: nat)
    requires k < |slots|
    ensures Keys(slots[..k + 1]) == Keys(slots[..k]) + (if slots[k].Entry? then {slots[k].key} else {})
  {
    var before, after := slots[..k], slots[..k + 1];
    forall key | key in Keys(before) ensures key in Keys(after) {
      var i :| 0 <= i < k && before[i] == Entry(key);
      assert after[i] == Entry(key);
    }
    if slots[k].Entry? { assert after[k].key in Keys(after); }
    forall key | key in Keys(after) && key !in Keys(before) ensures slots[k] == Entry(key) {
      var i: nat :| i < k + 1 && after[i] == Entry(key);
      if i < k { KeyOfSlot(before, i); }
    }
  }

  /** A key of slot k is not among the keys of the slots before it. */
  lemma NotInPrefix(t: Table, u: Table, k: nat)
    requires Distinct(t) && k < |t.slots| && t.slots[k].Entry? && u.cb == t.cb
    requires Keys(u.slots) == Keys(t.slots[..k])
    ensures !Has(u, t.slots[k].key)
  {
    KeysHas(u, t.slots[k].key);
    if key :| key in Keys(u.slots) && Class(u.cb, key) == Class(u.cb, t.slots[k].key) {
      var i: nat :| i < k && t.slots[..k][i] == Entry(key);
      assert Twin(t, k, i);
    }
  }

  // ----- how many keys a table holds

  lemma {:induction false} KeysAtMost(slots: seq<Slot>)
    ensures |Keys(slots)| <= |slots|
  {
    if slots != [] {
      var last := |slots| - 1;
      assert slots[..last + 1] == slots;
      KeysOfPrefix(slots, last);
      KeysAtMost(slots[..last]);
    } else {
      assert Keys(slots) == {};
    }
  }

  lemma KeysOfPart(slots: seq<Slot>, lo: nat, hi: nat)
    requires lo <= hi <= |slots|
    ensures Keys(slots[lo..hi]) <= Keys(slots)
  {
    forall k | k in Keys(slots[lo..hi]) ensures k in Keys(slots) {
      var i :| 0 <= i < hi - lo && slots[lo..hi][i] == Entry(k);
      assert slots[lo + i] == Entry(k);
    }
  }

  lemma KeysOfSmaller(small: set<Key>, large: set<Key>)
    requires small <= large
    ensures |small| <= |large|
  {
    assert large == small + (large - small);
  }

  /** n slots in a row that all hold entries hold n keys. */
  lemma {:induction false} KeysOfRun(t: Table, lo: nat, n: nat)
    requires Distinct(t) && lo + n <= |t.slots| && forall i | lo <= i < lo + n :: t.slots[i].Entry?
    ensures |Keys(t.slots[lo..lo + n])| == n
  {
    hide Distinct;
    hide Keys;
    if n == 0 {
      NoKeys(t.slots, lo);
    } else {
      KeysOfRun(t, lo, n - 1);
      KeysOfLonger(t.slots, lo, n - 1);
      NewInRun(t, lo, n - 1);
    }
  }

  lemma NoKeys(slots: seq<Slot>, lo: nat)
    requires lo <= |slots|
    ensures Keys(slots[lo..lo]) == {}
  {}

  lemma KeysOfLonger(slots: seq<Slot>, lo: nat, n: nat)
    requires lo + n < |slots| && slots[lo + n].Entry?
    ensures Keys(slots[lo..lo + (n + 1)]) == Keys(slots[lo..lo + n]) + {slots[lo + n].key}
  {
    hide Keys;
    var part := slots[lo..lo + (n + 1)];
    assert part[..n] == slots[lo..lo + n] && part[..n + 1] == part;
    KeysOfPrefix(part, n);
  }

  lemma NewInRun(t: Table, lo: nat, n: nat)
    requires Distinct(t) && lo + n < |t.slots| && t.slots[lo + n].Entry?
    ensures t.slots[lo + n].key !in Keys(t.slots[lo..lo + n])
  {
    var part := t.slots[lo..lo + n];
    if t.slots[lo + n].key in Keys(part) {
      var i: nat :| i < n && part[i] == t.slots[lo + n];
      assert t.slots[lo + i] == t.slots[lo + n];
      assert Twin(t, lo + n, lo + i);
    }
  }

  /** No entry has been buried. */
  ghost predicate Unburied(t: Table) {
    forall i | 0 <= i < |t.slots| :: t.slots[i] != Tombstone
  }

  /** Counting from any index of a line, eight steps meet every index x. */
  lemma TurnTo(o: nat, x: nat) returns (j: nat)
    requires x < 8
    ensures j < 8 && (j + o) % 8 == x
  {
    j := (x + 8 - o % 8) % 8;
  }

  lemma WholeLine(capacity: nat, o: nat)
    requires capacity % 8 == 0 && o < capacity
    ensures 0 <= o - o % 8 && o - o % 8 + 8 <= capacity
  {}

  lemma LineOf(capacity: nat, h: nat, x: nat)
    requires Shape(capacity) && x < 8
    ensures var o := Home(capacity, h);
            && o - o % 8 + 8 <= capacity
            && exists j: nat :: j < 8 && Pos(capacity, h, j) == o - o % 8 + x
  {
    hide Home;
    hide ProbeNext;
    ShapeIsLines(capacity);
    var o := Home(capacity, h);
    WholeLine(capacity, o);
    var j := TurnTo(o, x);
    assert Line(capacity, h, 0) == o;
    assert j / 8 == 0 && j % 8 == j;
    assert Pos(capacity, h, j) == InLine(capacity, o, j);
  }

  /** Where the first eight positions are taken, a table without tombstones holds eight keys. */
  lemma FullLine(t: Table, h: nat)
    requires Formed(t) && Distinct(t) && Unburied(t) && NoEmptyBefore(t, h, 8)
    ensures |Keys(t.slots)| >= 8
  {
    var o := Home(|t.slots|, h);
    var b := o - o % 8;
    hide Pos;
    LineOf(|t.slots|, h, 0);
    forall i | b <= i < b + 8 ensures t.slots[i].Entry? {
      LineOf(|t.slots|, h, i - b);
      var j: nat :| j < 8 && Pos(|t.slots|, h, j) == i;
      assert At(t, h, j) != Empty;
    }
    KeysOfRun(t, b, 8);
    KeysOfPart(t.slots, b, b + 8);
    KeysOfSmaller(Keys(t.slots[b..b + 8]), Keys(t.slots));
  }
}
