/** The objects that ck_hs and ck_rhs store, and the two callbacks that hash and compare them. */
module HashKeys {
  import opened Wrappers

  /** An object pointer that is neither EMPTY nor TOMBSTONE. */
  type Key = nat

  datatype Callbacks = Callbacks(hf: Key -> nat, compare: Option<(Key, Key) -> bool>)

  predicate Same(c: Callbacks, a: Key, b: Key) {
    a == b || (c.compare.Some? && c.compare.value(a, b))
  }

  /** The comparison is an equivalence that respects the hash. */
  ghost predicate Proper(c: Callbacks) {
    && (forall a, b :: Same(c, a, b) ==> Same(c, b, a) && c.hf(a) == c.hf(b))
    && (forall a, b, d :: Same(c, a, b) && Same(c, b, d) ==> Same(c, a, d))
  }

  ghost function LeastFrom(c: Callbacks, k: Key, j: nat): (r: Key)
    requires j <= k
    ensures j <= r <= k && Same(c, r, k) && forall i: nat | j <= i < r :: !Same(c, i, k)
    decreases k - j
  {
    if Same(c, j, k) then j else LeastFrom(c, k, j + 1)
  }

  /** The least key equivalent to k stands for its class. */
  ghost function Class(c: Callbacks, k: Key): Key {
    LeastFrom(c, k, 0)
  }

  lemma SameIsSameClass(c: Callbacks, a: Key, b: Key)
    requires Proper(c)
    ensures Same(c, a, b) <==> Class(c, a) == Class(c, b)
    ensures Same(c, a, b) ==> c.hf(a) == c.hf(b)
  {
    var r, q := Class(c, a), Class(c, b);
    if Same(c, a, b) {
      assert Same(c, r, b) && Same(c, q, a);
    }
  }
}
