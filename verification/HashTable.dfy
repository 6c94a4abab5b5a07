/** The open-addressing hash table (Robot/apriltags/common/zhash.c): linear probing, growth by
    powers of two, and deletion by re-inserting the rest of the run. */
module HashTable {
  import opened Arithmetic
  import opened FiniteSets
  import opened Options
  import opened Probing

  datatype Slot<K, V> = Empty | Full(key: K, val: V)

  const FACTOR_CRITICAL: nat := 2
  const FACTOR_REALLOC: nat := 4

  // ---------------------------------------------------------------------------------------
  // Masking with a power of two

  function BitAnd(a: nat, b: nat): nat {
    if a == 0 || b == 0 then 0
    else 2 * BitAnd(a / 2, b / 2) + if a % 2 == 1 && b % 2 == 1 then 1 else 0
  }

  predicate IsPow2(n: nat) {
    n == 1 || (n > 0 && n % 2 == 0 && IsPow2(n / 2))
  }

  /** `code & (n - 1)` is the remainder modulo n for a power of two. */
  lemma {:induction false} MaskIsMod(a: nat, n: nat)
    requires IsPow2(n)
    ensures BitAnd(a, n - 1) == a % n
    decreases n
  {
    if n > 1 {
      var m := n / 2;
      MaskIsMod(a / 2, m);
      assert (n - 1) / 2 == m - 1;
      DoubleMod(a, m);
    }
  }

  /** The test `(n & (n - 1)) != 0` tells powers of two apart. */
  lemma {:induction false} PowerTest(n: nat)
    requires n > 0
    ensures BitAnd(n, n - 1) == 0 <==> IsPow2(n)
    decreases n
  {
    if n % 2 == 1 {
      var k := n / 2;
      assert (n - 1) / 2 == k;
      AndSelf(k);
    } else {
      PowerTest(n / 2);
      assert (n - 1) / 2 == n / 2 - 1;
    }
  }

  lemma {:induction false} AndSelf(k: nat)
    ensures BitAnd(k, k) == k
    decreases k
  {
    if k > 0 {
      AndSelf(k / 2);
    }
  }

  // ---------------------------------------------------------------------------------------
  // The table as a finite map modulo `equals`

  ghost predicate GoodKeys<K(!new)>(hash: K -> nat, eq: (K, K) -> bool) {
    && (forall x :: eq(x, x))
    && (forall x, y :: eq(x, y) ==> eq(y, x) && hash(x) == hash(y))
    && (forall x, y, z :: eq(x, y) && eq(y, z) ==> eq(x, z))
  }

  ghost function Occupied<K, V>(es: seq<Slot<K, V>>): set<nat> {
    set i | i in Below(|es|) && es[i].Full?
  }

  ghost predicate KeysDistinct<K, V>(eq: (K, K) -> bool, es: seq<Slot<K, V>>) {
    forall i, j | 0 <= i < |es| && 0 <= j < |es| && es[i].Full? && es[j].Full? && eq(es[i].key, es[j].key) :: i == j
  }

  function Home<K>(hash: K -> nat, n: nat, k: K): (h: nat)
    requires n > 0
    ensures h < n
  {
    hash(k) % n
  }

  /** Every slot from the home of an entry to the entry is occupied. */
  ghost predicate Reachable<K, V>(hash: K -> nat, es: seq<Slot<K, V>>) {
    forall i: nat | i < |es| && es[i].Full? :: PathFull(Occupied(es), |es|, Home(hash, |es|, es[i].key), i)
  }

  ghost predicate Holds<K, V>(es: seq<Slot<K, V>>, k: K, v: V) {
    Full(k, v) in es
  }

  /** The entries are exactly the pairs of the map. */
  ghost predicate Represents<K, V>(es: seq<Slot<K, V>>, m: map<K, V>) {
    && (forall i | 0 <= i < |es| && es[i].Full? :: es[i].key in m && m[es[i].key] == es[i].val)
    && (forall k | k in m :: Holds(es, k, m[k]))
  }

  ghost predicate HasKey<K, V>(eq: (K, K) -> bool, m: map<K, V>, k: K) {
    exists x :: x in m && eq(k, x)
  }

  /** The pair that the map holds for a key equal to k. */
  ghost predicate IsStored<K, V>(eq: (K, K) -> bool, m: map<K, V>, k: K, pair: (K, V)) {
    eq(k, pair.0) && pair.0 in m && m[pair.0] == pair.1
  }

  ghost function Without<K, V>(eq: (K, K) -> bool, m: map<K, V>, k: K): map<K, V> {
    map x | x in m && !eq(k, x) :: m[x]
  }

  ghost function Updated<K, V>(eq: (K, K) -> bool, m: map<K, V>, k: K, v: V): map<K, V> {
    Without(eq, m, k)[k := v]
  }

  /** With plain equality these are the operations of an ordinary map. */
  lemma {:induction false} PlainEquality<K(!new), V>(eq: (K, K) -> bool, m: map<K, V>, k: K, v: V)
    requires forall x, y :: eq(x, y) <==> x == y
    ensures HasKey(eq, m, k) <==> k in m
    ensures Without(eq, m, k) == m - {k} && Updated(eq, m, k, v) == m[k := v]
  {}

  // ---------------------------------------------------------------------------------------
  // Probing for a key

  /** p is the first slot from k's home on that is free or holds k. */
  ghost predicate StopsAt<K, V>(hash: K -> nat, eq: (K, K) -> bool, es: seq<Slot<K, V>>, k: K, p: nat) {
    && p < |es| && (es[p].Empty? || eq(k, es[p].key))
    && PathFull(Occupied(es), |es|, Home(hash, |es|, k), p)
    && Passed(hash, eq, es, k, p)
  }

  /** None of the slots before p on the walk holds k. */
  ghost predicate Passed<K, V>(hash: K -> nat, eq: (K, K) -> bool, es: seq<Slot<K, V>>, k: K, p: nat)
    requires p < |es|
  {
    forall q: nat | q < |es| && es[q].Full? && eq(k, es[q].key) ::
      Dist(|es|, Home(hash, |es|, k), q) >= Dist(|es|, Home(hash, |es|, k), p)
  }

  /** A probe finds k exactly if it is stored, and then finds the slot that stores it. */
  lemma {:induction false} ProbeFinds<K(!new), V>(hash: K -> nat, eq: (K, K) -> bool, es: seq<Slot<K, V>>, k: K, p: nat,
                                                  q: nat)
    requires GoodKeys(hash, eq) && KeysDistinct(eq, es) && Reachable(hash, es) && StopsAt(hash, eq, es, k, p)
    requires q < |es| && es[q].Full? && eq(k, es[q].key)
    ensures p == q
  {
    var n, h := |es|, Home(hash, |es|, k);
    assert Home(hash, n, es[q].key) == h;
    assert PathFull(Occupied(es), n, h, q);
    var dp, dq := Dist(n, h, p), Dist(n, h, q);
    assert es[p].Full? || dp >= dq;
    assert es[p].Full? ==> eq(es[p].key, k) && eq(es[p].key, es[q].key);
  }

  lemma {:induction false} KeyHasSlot<K, V>(eq: (K, K) -> bool, es: seq<Slot<K, V>>, m: map<K, V>, k: K)
    requires Represents(es, m)
    ensures HasKey(eq, m, k) <==> exists q :: 0 <= q < |es| && es[q].Full? && eq(k, es[q].key)
  {
    if HasKey(eq, m, k) {
      var x :| x in m && eq(k, x);
      assert Holds(es, x, m[x]);
      var q :| 0 <= q < |es| && es[q] == Full(x, m[x]);
    }
  }

  /** What a lookup learns from the slot it stops at. */
  lemma {:induction false} StopTells<K(!new), V>(hash: K -> nat, eq: (K, K) -> bool, es: seq<Slot<K, V>>, m: map<K, V>,
                                                 k: K, p: nat)
    requires GoodKeys(hash, eq) && KeysDistinct(eq, es) && Reachable(hash, es) && Represents(es, m)
    requires StopsAt(hash, eq, es, k, p)
    ensures es[p].Full? <==> HasKey(eq, m, k)
    ensures es[p].Full? ==> eq(k, es[p].key) && es[p].key in m && m[es[p].key] == es[p].val
  {
    KeyHasSlot(eq, es, m, k);
    if q :| 0 <= q < |es| && es[q].Full? && eq(k, es[q].key) {
      ProbeFinds(hash, eq, es, k, p, q);
    }
  }

  // ---------------------------------------------------------------------------------------
  // Storing at the slot where the probe stopped

  lemma {:induction false} StoreOccupied<K, V>(es: seq<Slot<K, V>>, p: nat, k: K, v: V)
    requires p < |es|
    ensures Occupied(es[p := Full(k, v)]) == Occupied(es) + {p}
  {}

  lemma {:induction false} StoreKeepsReachable<K(!new), V>(hash: K -> nat, eq: (K, K) -> bool, es: seq<Slot<K, V>>,
          k: K, v: V, p: nat)
    requires Reachable(hash, es) && StopsAt(hash, eq, es, k, p)
    ensures Reachable(hash, es[p := Full(k, v)])
  {
    var e, n := es[p := Full(k, v)], |es|;
    StoreOccupied(es, p, k, v);
    forall i: nat | i < n && e[i].Full? ensures PathFull(Occupied(e), n, Home(hash, n, e[i].key), i) {
      if i == p {
        PathFullGrows(Occupied(es), Occupied(e), n, Home(hash, n, k), p);
      } else {
        PathFullGrows(Occupied(es), Occupied(e), n, Home(hash, n, es[i].key), i);
      }
    }
  }

  lemma {:induction false} StoreKeepsDistinct<K(!new), V>(hash: K -> nat, eq: (K, K) -> bool, es: seq<Slot<K, V>>, k: K,
          v: V, p: nat)
    requires GoodKeys(hash, eq) && KeysDistinct(eq, es) && p < |es|
    requires forall q: nat | q < |es| && es[q].Full? && eq(k, es[q].key) :: q == p
    ensures KeysDistinct(eq, es[p := Full(k, v)])
  {}

  /** p is where k is stored, or a free slot if it is not stored. */
  ghost predicate OwnSlot<K, V>(eq: (K, K) -> bool, es: seq<Slot<K, V>>, k: K, p: nat) {
    && p < |es| && (es[p].Full? ==> eq(k, es[p].key))
    && forall q: nat | q < |es| && es[q].Full? && eq(k, es[q].key) :: q == p
  }

  /** The keys equal to k are the one in its own slot. */
  lemma {:induction false} OwnKey<K(!new), V>(eq: (K, K) -> bool, es: seq<Slot<K, V>>, m: map<K, V>, k: K, p: nat)
    requires Represents(es, m) && OwnSlot(eq, es, k, p)
    ensures forall x | x in m && eq(k, x) :: es[p].Full? && x == es[p].key
  {
    forall x | x in m && eq(k, x) ensures es[p].Full? && x == es[p].key {
      assert Holds(es, x, m[x]);
      var i :| 0 <= i < |es| && es[i] == Full(x, m[x]);
    }
  }

  lemma {:induction false} StoreHoldsMap<K(!new), V>(eq: (K, K) -> bool, es: seq<Slot<K, V>>, m: map<K, V>, k: K, v: V,
                                                     p: nat)
    requires Represents(es, m) && OwnSlot(eq, es, k, p) && eq(k, k)
    ensures forall x | x in Updated(eq, m, k, v) :: Holds(es[p := Full(k, v)], x, Updated(eq, m, k, v)[x])
  {
    var e, u := es[p := Full(k, v)], Updated(eq, m, k, v);
    forall x | x in u ensures Holds(e, x, u[x]) {
      if x == k {
        assert e[p] == Full(k, v);
      } else {
        assert Holds(es, x, m[x]);
        var i :| 0 <= i < |es| && es[i] == Full(x, m[x]);
        assert e[i] == Full(x, m[x]);
      }
    }
  }

  lemma {:induction false} StoreUpdatesMap<K(!new), V>(eq: (K, K) -> bool, es: seq<Slot<K, V>>, m: map<K, V>, k: K,
                                                       v: V, p: nat)
    requires Represents(es, m) && OwnSlot(eq, es, k, p) && eq(k, k)
    ensures Represents(es[p := Full(k, v)], Updated(eq, m, k, v))
  {
    var e, u := es[p := Full(k, v)], Updated(eq, m, k, v);
    StoreHoldsMap(eq, es, m, k, v, p);
    forall i | 0 <= i < |e| && e[i].Full? ensures e[i].key in u && u[e[i].key] == e[i].val {
      assert i != p ==> e[i] == es[i] && !eq(k, es[i].key);
    }
  }

  lemma {:induction false} UpdatedCard<K(!new), V>(eq: (K, K) -> bool, es: seq<Slot<K, V>>, m: map<K, V>, k: K, v: V,
                                                   p: nat)
    requires Represents(es, m) && OwnSlot(eq, es, k, p) && eq(k, k)
    ensures |Updated(eq, m, k, v)| == if es[p].Full? then |m| else |m| + 1
    ensures |Without(eq, m, k)| == if es[p].Full? then |m| - 1 else |m|
  {
    OwnKey(eq, es, m, k, p);
    var u, w := Updated(eq, m, k, v), Without(eq, m, k);
    assert |m| == |m.Keys| && |u| == |u.Keys| && |w| == |w.Keys|;
    if es[p].Full? {
      assert w.Keys == m.Keys - {es[p].key};
    } else {
      assert w.Keys == m.Keys;
    }
    assert u.Keys == w.Keys + {k};
  }

  // Emptying a slot

  lemma {:induction false} ClearUpdatesMap<K(!new), V>(hash: K -> nat, eq: (K, K) -> bool, es: seq<Slot<K, V>>,
                                                       m: map<K, V>, p: nat)
    requires GoodKeys(hash, eq) && KeysDistinct(eq, es) && Represents(es, m) && p < |es| && es[p].Full?
    ensures var e := es[p := Empty];
      && KeysDistinct(eq, e) && Represents(e, Without(eq, m, es[p].key))
      && |Without(eq, m, es[p].key)| == |m| - 1
      && Occupied(e) == Occupied(es) - {p} && |Occupied(e)| == |Occupied(es)| - 1
  {
    var k := es[p].key;
    hide Updated, Represents, Without, KeysDistinct, GoodKeys, Occupied;
    OwnsItsSlot(hash, eq, es, p);
    UpdatedCard(eq, es, m, k, es[p].val, p);
    ClearHoldsMap(eq, es, m, p);
    ClearKeepsDistinct(eq, es, p);
  }

  lemma {:induction false} OwnsItsSlot<K(!new), V>(hash: K -> nat, eq: (K, K) -> bool, es: seq<Slot<K, V>>, p: nat)
    requires GoodKeys(hash, eq) && KeysDistinct(eq, es) && p < |es| && es[p].Full?
    ensures eq(es[p].key, es[p].key) && OwnSlot(eq, es, es[p].key, p)
  {}

  lemma {:induction false} ClearKeepsDistinct<K(!new), V>(eq: (K, K) -> bool, es: seq<Slot<K, V>>, p: nat)
    requires KeysDistinct(eq, es) && p < |es| && es[p].Full?
    ensures KeysDistinct(eq, es[p := Empty]) && Occupied(es[p := Empty]) == Occupied(es) - {p}
  {}

  lemma {:induction false} ClearHoldsMap<K(!new), V>(eq: (K, K) -> bool, es: seq<Slot<K, V>>, m: map<K, V>, p: nat)
    requires Represents(es, m) && p < |es| && es[p].Full? && OwnSlot(eq, es, es[p].key, p)
    requires eq(es[p].key, es[p].key)
    ensures Represents(es[p := Empty], Without(eq, m, es[p].key))
  {
    var e, w := es[p := Empty], Without(eq, m, es[p].key);
    forall x | x in w ensures Holds(e, x, w[x]) {
      assert Holds(es, x, m[x]);
      var i :| 0 <= i < |es| && es[i] == Full(x, m[x]);
      assert e[i] == Full(x, m[x]);
    }
  }

  // ---------------------------------------------------------------------------------------
  // Deletion: the state while the rest of the run is being re-inserted. es0 is the table before
  // the deletion of slot p, e the first free slot after p, and idx the last slot done.

  ghost predicate AfterDone(n: nat, p: nat, idx: nat, q: nat)
    requires p < n && idx < n && q < n
  {
    Dist(n, p, q) > Dist(n, p, idx)
  }

  /** Slots not yet done are as they were. */
  ghost predicate RestUntouched<K, V>(es0: seq<Slot<K, V>>, es: seq<Slot<K, V>>, p: nat, idx: nat)
    requires |es| == |es0| && p < |es| && idx < |es|
  {
    forall q: nat | q < |es| && AfterDone(|es|, p, idx, q) :: es[q] == es0[q]
  }

  /** Slot q lies in the part of the run still to be re-inserted. */
  ghost predicate Pending(n: nat, p: nat, idx: nat, e: nat, q: nat)
    requires p < n && idx < n && e < n && q < n
  {
    Dist(n, p, idx) < Dist(n, p, q) < Dist(n, p, e)
  }

  ghost predicate OthersReachable<K, V>(hash: K -> nat, es: seq<Slot<K, V>>, p: nat, idx: nat, e: nat)
    requires p < |es| && idx < |es| && e < |es|
  {
    forall q: nat | q < |es| && es[q].Full? && !Pending(|es|, p, idx, e, q)
      :: PathFull(Occupied(es), |es|, Home(hash, |es|, es[q].key), q)
  }

  ghost predicate Deleting<K, V>(hash: K -> nat, es0: seq<Slot<K, V>>, es: seq<Slot<K, V>>, p: nat, idx: nat, e: nat) {
    && |es| == |es0| && p < |es| && idx < |es| && e < |es|
    && Dist(|es|, p, idx) < Dist(|es|, p, e) && es0[e].Empty? && Reachable(hash, es0)
    && (forall q: nat | q < |es| && 0 < Dist(|es|, p, q) < Dist(|es|, p, e) :: es0[q].Full?)
    && RestUntouched(es0, es, p, idx) && OthersReachable(hash, es, p, idx, e)
  }

  lemma {:induction false} StartDeleting<K(!new), V>(hash: K -> nat, es0: seq<Slot<K, V>>, p: nat, free: nat)
    returns (e: nat)
    requires p < |es0| && es0[p].Full? && Reachable(hash, es0) && free < |es0| && es0[free].Empty?
    ensures Deleting(hash, es0, es0[p := Empty], p, p, e)
  {
    e := FirstFree(Occupied(es0), |es0|, p, free);
    var es, n := es0[p := Empty], |es0|;
    assert Occupied(es) == Occupied(es0) - {p};
    forall q: nat | q < n && es[q].Full? && !Pending(n, p, p, e, q)
      ensures PathFull(Occupied(es), n, Home(hash, n, es[q].key), q)
    {
      var h := Home(hash, n, es0[q].key);
      assert PathFull(Occupied(es0), n, h, q);
      PathAvoids(Occupied(es0), n, p, p, e, h, q);
    }
  }

  /** Emptying the next slot of the run leaves every other done entry reachable. */
  lemma {:induction false} ClearNext<K(!new), V>(hash: K -> nat, es0: seq<Slot<K, V>>, es: seq<Slot<K, V>>, p: nat,
                                                 idx: nat, e: nat, c: nat)
    requires Deleting(hash, es0, es, p, idx, e) && c == NextSlot(|es|, idx) && c != e
    ensures c != p && es[c] == es0[c] && es[c].Full? && Dist(|es|, p, c) == Dist(|es|, p, idx) + 1
    ensures Deleting(hash, es0, es[c := Empty], p, c, e)
  {
    hide Reachable;
    assert AfterDone(|es|, p, idx, c);
    ClearReaches(hash, es0, es, p, idx, e, c);
  }

  lemma {:induction false} ClearReaches<K(!new), V>(hash: K -> nat, es0: seq<Slot<K, V>>, es: seq<Slot<K, V>>, p: nat,
                                                    idx: nat, e: nat, c: nat)
    requires Deleting(hash, es0, es, p, idx, e) && c == NextSlot(|es|, idx) && c != e
    requires Dist(|es|, p, c) == Dist(|es|, p, idx) + 1
    ensures OthersReachable(hash, es[c := Empty], p, c, e)
  {
    hide Reachable;
    var n, es1 := |es|, es[c := Empty];
    assert AfterDone(n, p, idx, e);
    assert Occupied(es1) == Occupied(es) - {c};
    forall q: nat | q < n && es1[q].Full? && !Pending(n, p, c, e, q)
      ensures PathFull(Occupied(es1), n, Home(hash, n, es1[q].key), q)
    {
      var h := Home(hash, n, es[q].key);
      assert PathFull(Occupied(es), n, h, q);
      PathAvoids(Occupied(es), n, p, c, e, h, q);
    }
  }

  /** Re-inserting it stays within the slots already done. */
  lemma {:induction false} ReinsertNext<K(!new), V>(hash: K -> nat, eq: (K, K) -> bool, es0: seq<Slot<K, V>>,
                                                    es: seq<Slot<K, V>>, p: nat, c: nat, e: nat, s: nat)
    requires Deleting(hash, es0, es, p, c, e) && es0[c].Full? && es[c].Empty?
    requires StopsAt(hash, eq, es, es0[c].key, s) && es[s].Empty?
    ensures Deleting(hash, es0, es[s := es0[c]], p, c, e) && Dist(|es|, p, s) <= Dist(|es|, p, c)
  {
    var n, es1 := |es|, es[s := es0[c]];
    var h := Home(hash, n, es0[c].key);
    assert PathFull(Occupied(es0), n, h, c);
    assert Dist(n, h, s) <= Dist(n, h, c);
    assert s != c ==> s in Occupied(es0);
    assert !AfterDone(n, p, c, s);
    assert Occupied(es1) == Occupied(es) + {s};
    forall q: nat | q < n && es1[q].Full? && !Pending(n, p, c, e, q)
      ensures PathFull(Occupied(es1), n, Home(hash, n, es1[q].key), q)
    {
      PathFullGrows(Occupied(es), Occupied(es1), n, if q == s then h else Home(hash, n, es[q].key), q);
    }
  }

  lemma {:induction false} ReinsertStored<K(!new), V>(hash: K -> nat, eq: (K, K) -> bool, es0: seq<Slot<K, V>>,
                                                      es: seq<Slot<K, V>>, es': seq<Slot<K, V>>, m: map<K, V>, p: nat,
                                                      c: nat, e: nat)
    requires Deleting(hash, es0, es, p, c, e) && c < |es| && es0[c].Full? && es[c].Empty?
    requires Represents(es, m) && !HasKey(eq, m, es0[c].key)
    requires StoredAtStop(hash, eq, es, es', es0[c].key, es0[c].val)
    ensures Deleting(hash, es0, es', p, c, e)
    ensures Settled(es0, es, p) ==> Settled(es0, es', p)
    ensures c != p && Steady(hash, es0, es[c := es0[c]], p) ==> Steady(hash, es0, es', p)
  {
    hide Steady, Settled;
    var s: nat :| StopsAt(hash, eq, es, es0[c].key, s) && es' == es[s := Full(es0[c].key, es0[c].val)];
    KeyHasSlot(eq, es, m, es0[c].key);
    assert es[s].Empty?;
    ReinsertNext(hash, eq, es0, es, p, c, e, s);
    hide Deleting, StopsAt, KeysDistinct, Represents, HasKey;
    DeletingBounds(hash, es0, es, p, c, e);
    if Settled(es0, es, p) { SettledNext(es0, es, p, c, s); }
    if c != p && Steady(hash, es0, es[c := es0[c]], p) {
      assert es[c := es0[c]][c := Empty] == es;
      SteadyNext(hash, eq, es0, es[c := es0[c]], p, c, e, s);
    }
  }

  /** No entry from p or above has moved below p: a deletion at p moves entries over p only from
      the part of the run that wraps around. */
  ghost predicate Settled<K, V>(es0: seq<Slot<K, V>>, es: seq<Slot<K, V>>, p: nat) {
    |es| == |es0| && forall i: nat | i < p && i < |es| && es[i].Full? :: FromBelow(es0, es[i], p)
  }

  ghost predicate FromBelow<K, V>(es0: seq<Slot<K, V>>, x: Slot<K, V>, p: nat) {
    exists j: nat :: j < p && j < |es0| && es0[j] == x
  }

  /** Every entry is stored at or above its home slot: no probe has wrapped around the end. */
  ghost predicate Flat<K, V>(hash: K -> nat, es: seq<Slot<K, V>>) {
    forall i: nat | i < |es| && es[i].Full? :: Home(hash, |es|, es[i].key) <= i
  }

  /** In such a table a deletion at p leaves the slots below p as they are. */
  ghost predicate Steady<K, V>(hash: K -> nat, es0: seq<Slot<K, V>>, es: seq<Slot<K, V>>, p: nat) {
    |es| == |es0| && p < |es| && (Flat(hash, es0) ==> Flat(hash, es) && es[..p] == es0[..p])
  }

  lemma {:induction false} StartSteady<K, V>(hash: K -> nat, es0: seq<Slot<K, V>>, p: nat)
    requires p < |es0|
    ensures Steady(hash, es0, es0[p := Empty], p)
  {
    assert es0[p := Empty][..p] == es0[..p];
  }

  lemma {:induction false} SteadyNext<K(!new), V>(hash: K -> nat, eq: (K, K) -> bool, es0: seq<Slot<K, V>>,
                                                  es: seq<Slot<K, V>>, p: nat, c: nat, e: nat, s: nat)
    requires Steady(hash, es0, es, p) && c < |es| && c != p && es0[c].Full? && es[c] == es0[c]
    requires Deleting(hash, es0, es[c := Empty], p, c, e) && s < |es| && Dist(|es|, p, s) <= Dist(|es|, p, c)
    requires StopsAt(hash, eq, es[c := Empty], es0[c].key, s) && es[c := Empty][s].Empty?
    ensures Steady(hash, es0, es[c := Empty][s := es0[c]], p)
  {
    if Flat(hash, es0) {
      var n, h, es1 := |es|, Home(hash, |es|, es0[c].key), es[c := Empty];
      assert PathFull(Occupied(es0), n, h, c);
      assert Dist(n, h, s) <= Dist(n, h, c);
      assert h <= s <= c;
      assert s < p ==> es[s] == es[..p][s] == es0[..p][s] == es0[s];
      assert s < c ==> s in Occupied(es0);
      SteadyStored(hash, es0, es, p, c, s);
    }
  }

  lemma {:induction false} SteadyStored<K(!new), V>(hash: K -> nat, es0: seq<Slot<K, V>>, es: seq<Slot<K, V>>, p: nat,
                                                    c: nat, s: nat)
    requires |es| == |es0| && p < |es| && c < |es| && s < |es| && Flat(hash, es) && es[..p] == es0[..p] &&
      es0[c].Full? && es[c] == es0[c]
    requires Home(hash, |es|, es0[c].key) <= s <= c && (c < p ==> s == c) && Dist(|es|, p, s) <= Dist(|es|, p, c)
    ensures Flat(hash, es[c := Empty][s := es0[c]]) && es[c := Empty][s := es0[c]][..p] == es0[..p]
  {
    var t := es[c := Empty][s := es0[c]];
    if c < p {
      assert t == es;
    } else {
      assert s >= p;
      assert t[..p] == es[..p];
    }
  }

  /** Nothing outside the run after p, which ends before e, has changed. */
  ghost predicate RunOnly<K, V>(es0: seq<Slot<K, V>>, es: seq<Slot<K, V>>, p: nat, e: nat) {
    && |es| == |es0| && p < |es| && e < |es| && e != p && es0[e].Empty?
    && forall q: nat | q < |es| && Dist(|es|, p, q) >= Dist(|es|, p, e) :: es[q] == es0[q]
  }

  lemma {:induction false} RunEnds<K(!new), V>(hash: K -> nat, es0: seq<Slot<K, V>>, es: seq<Slot<K, V>>, p: nat,
                                               idx: nat, e: nat)
    requires Deleting(hash, es0, es, p, idx, e)
    ensures es[NextSlot(|es|, idx)].Empty? ==> RunOnly(es0, es, p, e)
  {
    var n, c := |es|, NextSlot(|es|, idx);
    if c != e { ClearNext(hash, es0, es, p, idx, e, c); }
    assert c == e ==> Dist(n, p, e) == Dist(n, p, idx) + 1;
  }

  lemma {:induction false} StartSettled<K, V>(es0: seq<Slot<K, V>>, p: nat)
    requires p < |es0|
    ensures Settled(es0, es0[p := Empty], p)
  {}

  lemma {:induction false} SettledNext<K, V>(es0: seq<Slot<K, V>>, es: seq<Slot<K, V>>, p: nat, c: nat, s: nat)
    requires Settled(es0, es, p) && p < |es| && c < |es| && s < |es| && Dist(|es|, p, s) <= Dist(|es|, p, c)
    ensures Settled(es0, es[s := es0[c]], p)
  {
    assert s < p ==> c < p;
    assert c < p ==> FromBelow(es0, es0[c], p);
    hide FromBelow;
  }

  lemma {:induction false} ClearSettled<K, V>(es0: seq<Slot<K, V>>, es: seq<Slot<K, V>>, p: nat, c: nat)
    requires Settled(es0, es, p) && c < |es|
    ensures Settled(es0, es[c := Empty], p)
  {
    hide FromBelow;
  }

  /** When the free slot is reached, every entry is reachable again. */
  lemma {:induction false} DoneDeleting<K(!new), V>(hash: K -> nat, es0: seq<Slot<K, V>>, es: seq<Slot<K, V>>, p: nat,
                                                    idx: nat, e: nat)
    requires Deleting(hash, es0, es, p, idx, e)
    ensures es[NextSlot(|es|, idx)].Empty? ==> Reachable(hash, es)
  {
    var n, c := |es|, NextSlot(|es|, idx);
    if c == e {
      forall q: nat | q < n && es[q].Full? ensures PathFull(Occupied(es), n, Home(hash, n, es[q].key), q) {
        assert !Pending(n, p, idx, e, q);
      }
    } else {
      ClearNext(hash, es0, es, p, idx, e, c);
    }
  }

  lemma {:induction false} AllEmpty<K(!new), V>(hash: K -> nat, eq: (K, K) -> bool, es: seq<Slot<K, V>>)
    requires |es| > 0 && forall i | 0 <= i < |es| :: es[i].Empty?
    ensures KeysDistinct(eq, es) && Represents(es, map[]) && Reachable(hash, es) && Occupied(es) == {}
  {}

  // ---------------------------------------------------------------------------------------
  // The table

  /** The size of a new table. */
  method SlotsFor(capacity: nat) returns (n: nat)
    ensures IsPow2(n) && if capacity <= 2 then n == 8 else 4 * capacity <= n < 8 * capacity
  {
    hide BitAnd;
    var least := FACTOR_REALLOC * capacity;
    if least < 8 {
      least := 8;
    }
    n := least;
    PowerTest(n);
    if BitAnd(n, n - 1) != 0 {
      n := 8;
      while n < least
        invariant IsPow2(n) && n >= 8 && (n > 8 ==> n < 2 * least)
        decreases least - n
      {
        n := n * 2;
      }
    }
  }

  class ZHash<K(!new), V> {
    const hash: K -> nat
    const eq: (K, K) -> bool
    var size: nat
    var entries: array<Slot<K, V>>
    /** The map the table stands for. */
    ghost var contents: map<K, V>

    /** All but reachability, which is broken while a deletion is under way. */
    ghost predicate Consistent()
      reads this, entries
    {
      && GoodKeys(hash, eq) && IsPow2(entries.Length) && entries.Length >= 8
      && entries.Length >= 2 * size
      && size == |contents| && |Occupied(entries[..])| == size
      && KeysDistinct(eq, entries[..]) && Represents(entries[..], contents)
    }

    ghost predicate Valid()
      reads this, entries
    {
      Consistent() && Reachable(hash, entries[..])
    }

    constructor (hash: K -> nat, eq: (K, K) -> bool, capacity: nat)
      requires GoodKeys(hash, eq)
      ensures Valid() && fresh(entries) && this.hash == hash && this.eq == eq && contents == map[] && size == 0
      ensures if capacity <= 2 then entries.Length == 8 else 4 * capacity <= entries.Length < 8 * capacity
    {
      hide Represents, KeysDistinct, Occupied, Reachable, BitAnd, GoodKeys;
      var n := SlotsFor(capacity);
      this.hash, this.eq, size, contents := hash, eq, 0, map[];
      entries := new Slot<K, V>[n](_ => Empty);
      new;
      AllEmpty(hash, eq, entries[..]);
    }

    method Mask(code: nat) returns (i: nat)
      requires IsPow2(entries.Length)
      ensures i == code % entries.Length
    {
      MaskIsMod(code, entries.Length);
      i := BitAnd(code, entries.Length - 1);
    }

    /** The probe loop of get, put and remove. */
    method Probe(key: K) returns (idx: nat)
      requires Consistent()
      ensures idx < entries.Length && StopsAt(hash, eq, entries[..], key, idx)
    {
      hide Represents, KeysDistinct, GoodKeys, Occupied;
      ghost var es, n := entries[..], entries.Length;
      ghost var free := FreeSlot(es, size);
      idx := Mask(hash(key));
      ghost var h := idx;
      PathStarts(hash, eq, es, key);
      while entries[idx].Full?
        invariant idx < entries.Length == n == |es| && es == entries[..] && h == Home(hash, n, key)
        invariant PathFull(Occupied(es), n, h, idx) && Passed(hash, eq, es, key, idx)
        decreases n - Dist(n, h, idx)
      {
        assert es[idx] == entries[idx];
        if eq(key, entries[idx].key) {
          return;
        }
        PathStep(hash, eq, es, key, idx, free);
        NextSlotIsMod(n, idx);
        idx := Mask(idx + 1);
      }
      assert es[idx] == entries[idx];
    }

    /** Looks a key up. */
    method Get(key: K) returns (r: Option<V>)
      requires Valid()
      ensures r.Some? <==> HasKey(eq, contents, key)
      ensures r.Some? ==> exists k :: k in contents && eq(key, k) && r.value == contents[k]
    {
      var idx := Probe(key);
      StopTells(hash, eq, entries[..], contents, key, idx);
      assert entries[..][idx] == entries[idx];
      hide HasKey, Represents, GoodKeys, KeysDistinct;
      if entries[idx].Full? {
        r := Some(entries[idx].val);
      } else {
        r := None;
      }
    }

    /** Stores a pair, replacing the one with an equal key, which is returned, and grows the table if it has become
        too full. While a deletion is under way the key must be one that is not stored. */
    method Put(key: K, val: V) returns (old_: Option<(K, V)>)
      requires Consistent() && (Reachable(hash, entries[..]) || !HasKey(eq, contents, key))
      modifies this, entries
      ensures Consistent() && (entries == old(entries) || fresh(entries))
      ensures old_.Some? == old(HasKey(eq, contents, key))
      ensures old_.Some? ==> IsStored(eq, old(contents), key, old_.value)
      ensures contents == Updated(eq, old(contents), key, val)
      ensures old(Reachable(hash, entries[..])) ==> Reachable(hash, entries[..])
      ensures old_.Some? || old(entries.Length) >= 2 * (old(size) + 1) ==>
        entries == old(entries) && StoredAtStop(hash, eq, old(entries[..]), entries[..], key, val)
      ensures old_.None? && old(entries.Length) < 2 * (old(size) + 1) ==> 4 * size <= entries.Length
      decreases if entries.Length < 2 * (size + 1) then 1 else 0, 1
    {
      hide Represents, KeysDistinct, GoodKeys, Occupied, StopsAt, Reachable, HasKey;
      ghost var es, m := entries[..], contents;
      var idx := Probe(key);
      ProbeOwns(hash, eq, es, m, key, idx);
      StoreAll(hash, eq, es, m, key, val, idx);
      assert es[idx] == entries[idx];
      old_ := if entries[idx].Full? then Some((entries[idx].key, entries[idx].val)) else None;
      entries[idx] := Full(key, val);
      contents := Updated(eq, contents, key, val);
      assert entries[..] == es[idx := Full(key, val)];
      if old_.None? {
        size := size + 1;
        if entries.Length < FACTOR_CRITICAL * size {
          Grow();
        }
      }
    }

    /** Moves all entries to a new table with room for four times their number. */
    method Grow()
      requires GoodKeys(hash, eq) && size == |contents| && size > 0
      requires KeysDistinct(eq, entries[..]) && Represents(entries[..], contents)
      modifies this, entries
      ensures Valid() && fresh(entries) && contents == old(contents) && entries.Length >= 4 * size
      decreases 1, 0
    {
      hide Represents, KeysDistinct, GoodKeys, Occupied, Reachable, IsPow2;
      var newhash := MoveAll();
      entries, size := newhash.entries, newhash.size;
    }

    /** The new table with all entries. */
    method MoveAll() returns (newhash: ZHash<K, V>)
      requires GoodKeys(hash, eq) && size == |contents| && size > 0
      requires KeysDistinct(eq, entries[..]) && Represents(entries[..], contents)
      ensures fresh(newhash) && fresh(newhash.entries) && newhash.Valid() && newhash.hash == hash && newhash.eq == eq
      ensures newhash.contents == contents && newhash.entries.Length >= 4 * size
      decreases 0, 3
    {
      hide Represents, KeysDistinct, GoodKeys, Occupied, StopsAt, Reachable, HasKey, StoredAtStop, Loaded, Updated;
      hide IsPow2;
      ghost var es := entries[..];
      newhash := new ZHash<K, V>(hash, eq, size);
      NothingLoaded(es, contents);
      var i: nat := 0;
      while i < entries.Length
        invariant i <= entries.Length && newhash.Valid() && fresh(newhash) && fresh(newhash.entries)
        invariant newhash.hash == hash && newhash.eq == eq && newhash.entries.Length >= 4 * size
        invariant entries[..] == es
        invariant Loaded(es, contents, newhash.contents, i)
      {
        MoveEntry(newhash, i);
        i := i + 1;
      }
      AllLoaded(es, contents, newhash.contents);
    }

    /** Puts the entry of one slot into the new table. */
    method MoveEntry(newhash: ZHash<K, V>, i: nat)
      requires GoodKeys(hash, eq) && size == |contents| && i < entries.Length
      requires KeysDistinct(eq, entries[..]) && Represents(entries[..], contents)
      requires newhash.Valid() && newhash.hash == hash && newhash.eq == eq && newhash != this &&
        newhash.entries != entries
      requires newhash.entries.Length >= 4 * size && Loaded(entries[..], contents, newhash.contents, i)
      modifies newhash, newhash.entries
      ensures newhash.Valid() && newhash.entries == old(newhash.entries)
      ensures Loaded(entries[..], contents, newhash.contents, i + 1)
      decreases 0, 2
    {
      hide Represents, KeysDistinct, GoodKeys, Occupied, StopsAt, Reachable, HasKey, StoredAtStop, Loaded, Updated,
        IsPow2;
      ghost var es := entries[..];
      assert es[i] == entries[i];
      LoadNext(eq, hash, es, contents, newhash.contents, i);
      if entries[i].Full? {
        var present := newhash.Put(entries[i].key, entries[i].val);
      }
      assert entries[..] == es;
    }

    /** Removes a key, then re-inserts the entries of the run that follows its slot. */
    method Remove(key: K) returns (old_: Option<(K, V)>)
      requires Valid()
      modifies this, entries
      ensures Valid() && entries == old(entries)
      ensures old_.Some? <==> HasKey(eq, old(contents), key)
      ensures old_.Some? ==> IsStored(eq, old(contents), key, old_.value)
      ensures contents == Without(eq, old(contents), key)
    {
      hide Represents, KeysDistinct, GoodKeys, Occupied, StopsAt, Reachable, HasKey, Without, Settled;
      ghost var es, m := entries[..], contents;
      var idx := Probe(key);
      StopTells(hash, eq, es, m, key, idx);
      WithoutFacts(hash, eq, m, key);
      assert es[idx] == entries[idx];
      if entries[idx].Empty? {
        return None;
      }
      old_ := Some((entries[idx].key, entries[idx].val));
      RemoveAt(idx);
    }

    /** Empties an occupied slot and re-inserts the entries of the run that follows it. */
    method RemoveAt(idx: nat)
      requires Valid() && idx < entries.Length && entries[idx].Full?
      modifies this, entries
      ensures Valid() && entries == old(entries) && size == old(size) - 1
      ensures contents == Without(eq, old(contents), old(entries[idx].key))
      ensures Settled(old(entries[..]), entries[..], idx) && Steady(hash, old(entries[..]), entries[..], idx)
      ensures exists e :: RunOnly(old(entries[..]), entries[..], idx, e)
    {
      hide Represents, KeysDistinct, GoodKeys, Occupied, StopsAt, Reachable, HasKey, Deleting, Without, Settled,
        Steady, RunOnly;
      ghost var es := entries[..];
      assert es[idx] == entries[idx];
      ghost var free := FreeSlot(es, size);
      ghost var e := StartDeleting(hash, es, idx, free);
      StartSettled(es, idx);
      StartSteady(hash, es, idx);
      ClearSlot(idx);
      Reinsert(es, idx, e);
    }

    /** Marks a slot as free. */
    method ClearSlot(idx: nat)
      requires Consistent() && idx < entries.Length && entries[idx].Full?
      modifies this`size, this`contents, entries
      ensures Consistent() && size == old(size) - 1 && entries[..] == old(entries[..])[idx := Empty]
      ensures contents == Without(eq, old(contents), old(entries[idx].key))
      ensures !HasKey(eq, contents, old(entries[idx].key)) && old(entries[idx].key in contents)
      ensures old(contents) == Updated(eq, contents, old(entries[idx].key), old(entries[idx].val))
    {
      hide Represents, KeysDistinct, GoodKeys, Occupied, HasKey, Updated, Without, IsPow2;
      ghost var es, m := entries[..], contents;
      assert es[idx] == entries[idx];
      ClearUpdatesMap(hash, eq, es, m, idx);
      WithoutRestores(hash, eq, es, m, idx);
      contents := Without(eq, contents, entries[idx].key);
      entries[idx] := Empty;
      size := size - 1;
      assert entries[..] == es[idx := Empty];
    }

    /** The loop of remove: takes out and puts back each entry of the run after slot p. */
    method Reinsert(ghost es0: seq<Slot<K, V>>, p: nat, ghost e: nat)
      requires Consistent() && Deleting(hash, es0, entries[..], p, p, e)
      requires Settled(es0, entries[..], p) && Steady(hash, es0, entries[..], p)
      modifies this, entries
      ensures Valid() && entries == old(entries) && contents == old(contents)
      ensures Settled(es0, entries[..], p) && Steady(hash, es0, entries[..], p) && RunOnly(es0, entries[..], p, e)
    {
      hide Represents, KeysDistinct, GoodKeys, Occupied, StopsAt, Reachable, HasKey, Deleting, Without, Updated;
      hide Settled, Steady, RunOnly;
      DeletingBounds(hash, es0, entries[..], p, p, e);
      var idx: nat := p;
      var busy := true;
      while busy
        invariant Consistent() && entries == old(entries) && contents == old(contents)
        invariant Settled(es0, entries[..], p) && Steady(hash, es0, entries[..], p)
        invariant p < entries.Length && e < entries.Length && idx < entries.Length
        invariant busy ==>
          Deleting(hash, es0, entries[..], p, idx, e) && Dist(entries.Length, p, idx) < Dist(entries.Length, p, e)
        invariant !busy ==> Reachable(hash, entries[..]) && RunOnly(es0, entries[..], p, e)
        decreases busy, entries.Length - Dist(entries.Length, p, idx)
      {
        ghost var es := entries[..];
        DoneDeleting(hash, es0, es, p, idx, e);
        RunEnds(hash, es0, es, p, idx, e);
        NextSlotIsMod(entries.Length, idx);
        ghost var prev := idx;
        idx := Mask(idx + 1);
        assert es[idx] == entries[idx];
        if entries[idx].Full? {
          ReinsertOne(es0, p, prev, e, idx);
        } else {
          busy := false;
        }
      }
    }

    method ReinsertOne(ghost es0: seq<Slot<K, V>>, ghost p: nat, ghost prev: nat, ghost e: nat, idx: nat)
      requires Consistent() && Deleting(hash, es0, entries[..], p, prev, e)
      requires prev < entries.Length && idx == NextSlot(entries.Length, prev) && entries[idx].Full?
      requires Settled(es0, entries[..], p) && Steady(hash, es0, entries[..], p)
      modifies this, entries
      ensures Consistent() && entries == old(entries) && contents == old(contents)
      ensures Deleting(hash, es0, entries[..], p, idx, e)
      ensures Settled(es0, entries[..], p) && Steady(hash, es0, entries[..], p)
      ensures p < entries.Length && e < entries.Length
      ensures Dist(entries.Length, p, prev) < Dist(entries.Length, p, idx) < Dist(entries.Length, p, e)
    {
      hide Represents, KeysDistinct, GoodKeys, Occupied, Reachable, HasKey, Deleting, Without, Updated, StopsAt,
        StoredAtStop;
      hide IsPow2, Settled, Steady;
      ghost var es := entries[..];
      assert es[idx] == entries[idx];
      FreeSlotIsEmpty(hash, es0, es, p, prev, e);
      ClearNext(hash, es0, es, p, prev, e, idx);
      ClearSettled(es0, es, p, idx);
      var tmp := entries[idx];
      ClearSlot(idx);
      ghost var es1, m1 := entries[..], contents;
      assert es1[idx := es[idx]] == es;
      var present := Put(tmp.key, tmp.val);
      ReinsertStored(hash, eq, es0, es1, entries[..], m1, p, idx, e);
      DeletingBounds(hash, es0, entries[..], p, idx, e);
    }
  }

  /** The effect of storing a pair where the probe for its key stops. */
  ghost predicate StoredAtStop<K, V>(hash: K -> nat, eq: (K, K) -> bool, es: seq<Slot<K, V>>, es': seq<Slot<K, V>>,
                                     k: K, v: V)
  {
    exists s: nat :: StopsAt(hash, eq, es, k, s) && es' == es[s := Full(k, v)]
  }

  lemma {:induction false} ProbeOwns<K(!new), V>(hash: K -> nat, eq: (K, K) -> bool, es: seq<Slot<K, V>>, m: map<K, V>,
                                                 k: K, p: nat)
    requires GoodKeys(hash, eq) && KeysDistinct(eq, es) && Represents(es, m) && StopsAt(hash, eq, es, k, p)
    requires Reachable(hash, es) || !HasKey(eq, m, k)
    ensures OwnSlot(eq, es, k, p) && (es[p].Full? <==> HasKey(eq, m, k))
    ensures es[p].Full? ==> IsStored(eq, m, k, (es[p].key, es[p].val))
  {
    KeyHasSlot(eq, es, m, k);
    forall q: nat | q < |es| && es[q].Full? && eq(k, es[q].key) ensures q == p {
      ProbeFinds(hash, eq, es, k, p, q);
    }
  }

  lemma {:induction false} StoreAll<K(!new), V>(hash: K -> nat, eq: (K, K) -> bool, es: seq<Slot<K, V>>, m: map<K, V>,
                                                k: K, v: V, p: nat)
    requires GoodKeys(hash, eq) && KeysDistinct(eq, es) && Represents(es, m) && OwnSlot(eq, es, k, p)
    requires StopsAt(hash, eq, es, k, p)
    ensures var e, u := es[p := Full(k, v)], Updated(eq, m, k, v);
      && KeysDistinct(eq, e) && Represents(e, u)
      && |u| == (if es[p].Full? then |m| else |m| + 1)
      && |Occupied(e)| == (if es[p].Full? then |Occupied(es)| else |Occupied(es)| + 1)
    ensures Reachable(hash, es) ==> Reachable(hash, es[p := Full(k, v)])
    ensures StoredAtStop(hash, eq, es, es[p := Full(k, v)], k, v)
  {
    hide Represents, KeysDistinct, Reachable, Updated, StopsAt, StoredAtStop;
    assert eq(k, k);
    StoreKeepsDistinct(hash, eq, es, k, v, p);
    StoreUpdatesMap(eq, es, m, k, v, p);
    UpdatedCard(eq, es, m, k, v, p);
    StoreOccupied(es, p, k, v);
    StoredHere(hash, eq, es, k, v, p);
    if Reachable(hash, es) {
      StoreKeepsReachable(hash, eq, es, k, v, p);
    }
  }

  lemma {:induction false} StoredHere<K, V>(hash: K -> nat, eq: (K, K) -> bool, es: seq<Slot<K, V>>, k: K, v: V, p: nat)
    requires p < |es| && StopsAt(hash, eq, es, k, p)
    ensures StoredAtStop(hash, eq, es, es[p := Full(k, v)], k, v)
  {}

  lemma {:induction false} FreeSlot<K, V>(es: seq<Slot<K, V>>, size: nat) returns (free: nat)
    requires |Occupied(es)| == size && |es| >= 2 * size && |es| >= 8
    ensures free < |es| && es[free].Empty? && free !in Occupied(es)
  {
    free := MissesOne(Occupied(es), |es|);
  }

  lemma {:induction false} PathStarts<K, V>(hash: K -> nat, eq: (K, K) -> bool, es: seq<Slot<K, V>>, k: K)
    requires |es| > 0
    ensures PathFull(Occupied(es), |es|, Home(hash, |es|, k), Home(hash, |es|, k))
    ensures Passed(hash, eq, es, k, Home(hash, |es|, k))
  {}

  lemma {:induction false} PathStep<K, V>(hash: K -> nat, eq: (K, K) -> bool, es: seq<Slot<K, V>>, k: K, p: nat,
                                          free: nat)
    requires p < |es| && es[p].Full? && !eq(k, es[p].key) && free < |es| && es[free].Empty?
    requires PathFull(Occupied(es), |es|, Home(hash, |es|, k), p) && Passed(hash, eq, es, k, p)
    ensures var h, q := Home(hash, |es|, k), NextSlot(|es|, p);
      && PathFull(Occupied(es), |es|, h, q) && Passed(hash, eq, es, k, q) && Dist(|es|, h, q) == Dist(|es|, h, p) + 1
  {
    var n, h := |es|, Home(hash, |es|, k);
    PathFullNext(Occupied(es), n, h, p, free);
    forall q: nat | q < n && es[q].Full? && eq(k, es[q].key) ensures Dist(n, h, q) >= Dist(n, h, p) + 1 {
      assert q != p;
    }
  }

  lemma {:induction false} WithoutFacts<K(!new), V>(hash: K -> nat, eq: (K, K) -> bool, m: map<K, V>, k: K)
    requires GoodKeys(hash, eq)
    ensures !HasKey(eq, m, k) ==> Without(eq, m, k) == m
    ensures forall x | eq(k, x) :: Without(eq, m, x) == Without(eq, m, k)
  {
    forall x | eq(k, x) ensures Without(eq, m, x) == Without(eq, m, k) {
      forall y ensures eq(k, y) == eq(x, y) {
        assert eq(x, k);
      }
    }
  }

  lemma {:induction false} WithoutRestores<K(!new), V>(hash: K -> nat, eq: (K, K) -> bool, es: seq<Slot<K, V>>,
                                                       m: map<K, V>, p: nat)
    requires GoodKeys(hash, eq) && KeysDistinct(eq, es) && Represents(es, m) && p < |es| && es[p].Full?
    ensures var w := Without(eq, m, es[p].key);
      es[p].key in m && !HasKey(eq, w, es[p].key) && Updated(eq, w, es[p].key, es[p].val) == m
  {
    var k := es[p].key;
    assert eq(k, k);
    OwnKey(eq, es, m, k, p);
    var w := Without(eq, m, k);
    assert Without(eq, w, k) == w;
    assert Updated(eq, w, k, es[p].val) == w[k := m[k]];
  }

  lemma {:induction false} DeletingBounds<K, V>(hash: K -> nat, es0: seq<Slot<K, V>>, es: seq<Slot<K, V>>, p: nat,
                                                idx: nat, e: nat)
    requires Deleting(hash, es0, es, p, idx, e)
    ensures p < |es| && e < |es| && idx < |es| && Dist(|es|, p, idx) < Dist(|es|, p, e)
  {}

  lemma {:induction false} FreeSlotIsEmpty<K, V>(hash: K -> nat, es0: seq<Slot<K, V>>, es: seq<Slot<K, V>>, p: nat,
                                                 idx: nat, e: nat)
    requires Deleting(hash, es0, es, p, idx, e)
    ensures e < |es| && es[e].Empty?
  {
    assert AfterDone(|es|, p, idx, e);
  }

  // Growing

  /** new holds exactly the pairs of the first i slots. */
  ghost predicate Loaded<K, V>(es: seq<Slot<K, V>>, m: map<K, V>, new_: map<K, V>, i: nat) {
    && (forall k | k in new_ :: k in m && new_[k] == m[k] && SlotBefore(es, k, i))
    && (forall j: nat | j < |es| && j < i && es[j].Full? :: es[j].key in new_)
  }

  ghost predicate SlotBefore<K, V>(es: seq<Slot<K, V>>, k: K, i: nat) {
    exists j: nat :: j < |es| && j < i && es[j].Full? && es[j].key == k
  }

  lemma {:induction false} NothingLoaded<K, V>(es: seq<Slot<K, V>>, m: map<K, V>)
    ensures Loaded(es, m, map[], 0)
  {}

  lemma {:induction false} LoadNext<K(!new), V>(eq: (K, K) -> bool, hash: K -> nat, es: seq<Slot<K, V>>, m: map<K, V>,
                                                new_: map<K, V>, i: nat)
    requires GoodKeys(hash, eq) && KeysDistinct(eq, es) && Represents(es, m) && Loaded(es, m, new_, i) && i < |es|
    ensures es[i].Empty? ==> Loaded(es, m, new_, i + 1)
    ensures es[i].Full? ==> !HasKey(eq, new_, es[i].key) && |new_| < |m|
    ensures es[i].Full? ==> Loaded(es, m, Updated(eq, new_, es[i].key, es[i].val), i + 1)
  {
    hide Represents, KeysDistinct, Loaded, GoodKeys, SlotBefore;
    LoadedMono(es, m, new_, i);
    if es[i].Full? {
      NotYetLoaded(eq, hash, es, m, new_, i);
    }
  }

  lemma {:induction false} NotYetLoaded<K(!new), V>(eq: (K, K) -> bool, hash: K -> nat, es: seq<Slot<K, V>>,
                                                    m: map<K, V>, new_: map<K, V>, i: nat)
    requires GoodKeys(hash, eq) && KeysDistinct(eq, es) && Represents(es, m) && Loaded(es, m, new_, i)
    requires i < |es| && es[i].Full?
    ensures !HasKey(eq, new_, es[i].key) && |new_| < |m|
    ensures Updated(eq, new_, es[i].key, es[i].val) == new_[es[i].key := es[i].val]
  {
    var k := es[i].key;
    assert eq(k, k);
    forall x | x in new_ ensures x in m && !eq(k, x) {
      assert SlotBefore(es, x, i);
    }
    assert k in m;
    hide Represents, KeysDistinct, Loaded, GoodKeys, SlotBefore;
    assert k !in new_ && new_.Keys <= m.Keys - {k};
    SubsetCard(new_.Keys, m.Keys - {k});
    assert Without(eq, new_, k) == new_;
  }

  lemma {:induction false} LoadedMono<K, V>(es: seq<Slot<K, V>>, m: map<K, V>, new_: map<K, V>, i: nat)
    requires Represents(es, m) && Loaded(es, m, new_, i) && i < |es|
    ensures es[i].Empty? ==> Loaded(es, m, new_, i + 1)
    ensures es[i].Full? ==> Loaded(es, m, new_[es[i].key := es[i].val], i + 1)
  {
    forall k | k in new_ ensures SlotBefore(es, k, i + 1) {
      assert SlotBefore(es, k, i);
    }
    if es[i].Full? {
      assert SlotBefore(es, es[i].key, i + 1);
    }
  }

  lemma {:induction false} AllLoaded<K, V>(es: seq<Slot<K, V>>, m: map<K, V>, new_: map<K, V>)
    requires Represents(es, m) && Loaded(es, m, new_, |es|)
    ensures new_ == m
  {
    forall k | k in m ensures k in new_ {
      assert Holds(es, k, m[k]);
      var j :| 0 <= j < |es| && es[j] == Full(k, m[k]);
    }
  }
}
