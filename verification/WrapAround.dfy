/** Entries of a probed table that are stored below their home slot because their probe wrapped around the end
    (Robot/apriltags/common/zhash.c): how many there are, and which of them a deletion moves back. */
module WrapAround {
  import opened FiniteSets
  import opened HashTable
  import opened Probing

  ghost predicate StoredIn<K, V>(es: seq<Slot<K, V>>, k: K, i: nat) {
    i < |es| && es[i].Full? && es[i].key == k
  }

  /** No key is stored twice. */
  ghost predicate OneSlotEach<K(!new), V>(es: seq<Slot<K, V>>) {
    forall k: K, i: nat, j: nat | StoredIn(es, k, i) && StoredIn(es, k, j) :: i == j
  }

  lemma {:induction false} DistinctSlots<K(!new), V>(hash: K -> nat, eq: (K, K) -> bool, es: seq<Slot<K, V>>)
    requires GoodKeys(hash, eq) && KeysDistinct(eq, es)
    ensures OneSlotEach(es)
  {
    forall k: K, i: nat, j: nat | StoredIn(es, k, i) && StoredIn(es, k, j) ensures i == j {
      assert eq(k, k);
    }
  }

  ghost predicate AllStored<K(!new), V>(es: seq<Slot<K, V>>, s: set<K>) {
    forall k | k in s :: exists i: nat :: StoredIn(es, k, i)
  }

  ghost predicate OnlyStored<K, V>(es: seq<Slot<K, V>>, s: set<K>) {
    forall i | 0 <= i < |es| && es[i].Full? :: es[i].key in s
  }

  /** The key is stored below its home slot. */
  ghost predicate Wrapped<K, V>(hash: K -> nat, es: seq<Slot<K, V>>, k: K) {
    exists i: nat :: StoredIn(es, k, i) && i < Home(hash, |es|, k)
  }

  ghost function WrappedOf<K, V>(hash: K -> nat, es: seq<Slot<K, V>>, s: set<K>): set<K> {
    set k | k in s && Wrapped(hash, es, k)
  }

  /** The keys with home slot h or above. */
  ghost function From<K>(hash: K -> nat, n: nat, s: set<K>, h: nat): set<K>
    requires n > 0
  {
    set k | k in s && Home(hash, n, k) >= h
  }

  /** Of the keys in s fewer would wrap around in a table of their own than do in this one. */
  ghost predicate Crowded<K, V>(hash: K -> nat, es: seq<Slot<K, V>>, s: set<K>)
    requires |es| > 0
  {
    forall h: nat | h <= |es| :: |From(hash, |es|, s, h)| < |es| - h + |WrappedOf(hash, es, s)|
  }

  // ---------------------------------------------------------------------------------------
  // How many keys wrap around

  ghost function SlotsOf<K, V>(es: seq<Slot<K, V>>, s: set<K>): set<nat> {
    set i | i in Below(|es|) && es[i].Full? && es[i].key in s
  }

  /** Keys and their slots. */
  lemma {:induction false} SlotsCard<K(!new), V>(es: seq<Slot<K, V>>, s: set<K>)
    requires OneSlotEach(es) && AllStored(es, s)
    ensures |SlotsOf(es, s)| == |s|
    decreases |s|
  {
    if k :| k in s {
      var i: nat :| StoredIn(es, k, i);
      SlotsCard(es, s - {k});
      forall j | j in SlotsOf(es, s) ensures j in SlotsOf(es, s - {k}) + {i} {
        assert StoredIn(es, es[j].key, j);
      }
      assert i !in SlotsOf(es, s - {k});
      assert SlotsOf(es, s) == SlotsOf(es, s - {k}) + {i};
    } else {
      assert SlotsOf(es, s) == {};
    }
  }

  ghost function Range(h: nat, n: nat): set<nat> {
    set i | i in Below(n) && i >= h
  }

  lemma {:induction false} RangeCard(h: nat, n: nat)
    requires h <= n
    ensures |Range(h, n)| == n - h
  {
    BelowCard(n);
    BelowCard(h);
    assert Range(h, n) == Below(n) - Below(h);
    assert Below(n) == Below(h) + Range(h, n);
  }

  lemma {:induction false} UnionCard<T>(a: set<T>, b: set<T>)
    ensures |a + b| <= |a| + |b| && (a !! b ==> |a + b| == |a| + |b|)
  {
    assert a + b == a + (b - a);
    SubsetCard(b - a, b);
  }

  lemma {:induction false} WrappedStored<K(!new), V>(hash: K -> nat, es: seq<Slot<K, V>>, s: set<K>, h: nat)
    requires AllStored(es, s) && |es| > 0
    ensures AllStored(es, WrappedOf(hash, es, s)) && AllStored(es, From(hash, |es|, s, h))
  {
    hide Wrapped;
  }

  /** Keys with a home from h on are stored there or wrap around. */
  lemma {:induction false} FromSlots<K(!new), V>(hash: K -> nat, es: seq<Slot<K, V>>, s: set<K>, h: nat, i: nat)
    requires |es| > 0 && i in SlotsOf(es, From(hash, |es|, s, h))
    ensures i in Range(h, |es|) || i in SlotsOf(es, WrappedOf(hash, es, s))
  {
    assert StoredIn(es, es[i].key, i);
  }

  lemma {:induction false} OverflowBound<K(!new), V>(hash: K -> nat, es: seq<Slot<K, V>>, s: set<K>, h: nat)
    requires OneSlotEach(es) && AllStored(es, s) && h <= |es| && |es| > 0
    ensures |From(hash, |es|, s, h)| <= |es| - h + |WrappedOf(hash, es, s)|
  {
    var w, f := WrappedOf(hash, es, s), From(hash, |es|, s, h);
    WrappedStored(hash, es, s, h);
    SlotsCard(es, w);
    SlotsCard(es, f);
    RangeCard(h, |es|);
    hide AllStored, OneSlotEach, WrappedOf, From, SlotsOf, Range;
    forall i | i in SlotsOf(es, f) ensures i in Range(h, |es|) + SlotsOf(es, w) {
      FromSlots(hash, es, s, h, i);
    }
    SubsetCard(SlotsOf(es, f), Range(h, |es|) + SlotsOf(es, w));
    UnionCard(Range(h, |es|), SlotsOf(es, w));
  }

  /** The last free slot. */
  lemma {:induction false} LastFree<K, V>(es: seq<Slot<K, V>>, free: nat) returns (f: nat)
    requires free < |es| && es[free].Empty?
    ensures f < |es| && es[f].Empty? && forall i | f < i < |es| :: es[i].Full?
    decreases |es| - free
  {
    if j: nat :| free < j < |es| && es[j].Empty? { f := LastFree(es, j); } else { f := free; }
  }

  /** Behind the last free slot every entry is at home or above, and every wrapped entry has its home there. */
  lemma {:induction false} BehindLastFree<K(!new), V>(hash: K -> nat, es: seq<Slot<K, V>>, f: nat, i: nat)
    requires Reachable(hash, es) && f < |es| && es[f].Empty? && i < |es| && es[i].Full?
    ensures var h := Home(hash, |es|, es[i].key);
      (i > f ==> f < h <= i) && (i < h ==> i < f < h)
  {
    var n, h := |es|, Home(hash, |es|, es[i].key);
    assert PathFull(Occupied(es), n, h, i);
    assert !(Dist(n, h, f) < Dist(n, h, i));
  }

  /** For the keys of a table the bound is reached. */
  lemma {:induction false} OverflowReached<K(!new), V>(hash: K -> nat, es: seq<Slot<K, V>>, s: set<K>, free: nat)
    returns (h: nat)
    requires Reachable(hash, es) && OneSlotEach(es) && AllStored(es, s) && OnlyStored(es, s)
    requires free < |es| && es[free].Empty?
    ensures h <= |es| && |From(hash, |es|, s, h)| == |es| - h + |WrappedOf(hash, es, s)|
  {
    var f := LastFree(es, free);
    h := f + 1;
    var w, k := WrappedOf(hash, es, s), From(hash, |es|, s, h);
    WrappedStored(hash, es, s, h);
    SlotsCard(es, w);
    SlotsCard(es, k);
    RangeCard(h, |es|);
    hide AllStored, OneSlotEach, Reachable;
    forall i | i in Below(|es|) ensures i in SlotsOf(es, k) <==> i in Range(h, |es|) + SlotsOf(es, w) {
      SlotBehind(hash, es, s, f, i);
    }
    forall i | i in SlotsOf(es, w) ensures i !in Range(h, |es|) {
      SlotBehind(hash, es, s, f, i);
    }
    assert SlotsOf(es, k) == Range(h, |es|) + SlotsOf(es, w);
    UnionCard(Range(h, |es|), SlotsOf(es, w));
  }

  lemma {:induction false} SlotBehind<K(!new), V>(hash: K -> nat, es: seq<Slot<K, V>>, s: set<K>, f: nat, i: nat)
    requires Reachable(hash, es) && OneSlotEach(es) && OnlyStored(es, s) && f < |es| && es[f].Empty? && i < |es|
    requires forall j | f < j < |es| :: es[j].Full?
    ensures var w, k := SlotsOf(es, WrappedOf(hash, es, s)), SlotsOf(es, From(hash, |es|, s, f + 1));
      (i in k <==> i > f || i in w) && !(i > f && i in w)
  {
    hide Reachable;
    if es[i].Full? {
      var x := es[i].key;
      assert StoredIn(es, x, i);
      BehindLastFree(hash, es, f, i);
      assert Wrapped(hash, es, x) <==> i < Home(hash, |es|, x);
    }
  }

  /** If all keys of s but no others are left, and none of them wraps around that did not before, then some do no longer
      exactly if the first table was crowded. */
  lemma {:induction false} CrowdedExactly<K(!new), V>(hash: K -> nat, es0: seq<Slot<K, V>>, es: seq<Slot<K, V>>,
                                                      s: set<K>, free: nat)
    requires |es| == |es0| && OneSlotEach(es0) && AllStored(es0, s)
    requires Reachable(hash, es) && OneSlotEach(es) && AllStored(es, s) && OnlyStored(es, s)
    requires free < |es| && es[free].Empty? && WrappedOf(hash, es, s) <= WrappedOf(hash, es0, s)
    ensures Crowded(hash, es0, s) <==> WrappedOf(hash, es, s) != WrappedOf(hash, es0, s)
  {
    hide Reachable, OneSlotEach, AllStored, OnlyStored, WrappedOf, From;
    var n, w, w0 := |es|, WrappedOf(hash, es, s), WrappedOf(hash, es0, s);
    var h := OverflowReached(hash, es, s, free);
    SubsetCard(w, w0);
    if w != w0 {
      ProperCard(w, w0);
      forall k: nat | k <= n ensures |From(hash, n, s, k)| < n - k + |w0| {
        OverflowBound(hash, es, s, k);
      }
    }
  }

  lemma {:induction false} ProperCard<T>(a: set<T>, b: set<T>)
    requires a < b
    ensures |a| < |b|
  {
    var x :| x in b && x !in a;
    CardAdds(a, x);
    SubsetCard(a + {x}, b);
  }

  /** A table without wrapped entries is not crowded. */
  lemma {:induction false} FlatNotCrowded<K(!new), V>(hash: K -> nat, es: seq<Slot<K, V>>, s: set<K>)
    requires |es| > 0 && Flat(hash, es)
    ensures !Crowded(hash, es, s)
  {
    assert WrappedOf(hash, es, s) == {};
    assert From(hash, |es|, s, |es|) == {};
    assert |From(hash, |es|, s, |es|)| == 0;
  }

  /** A table with a wrapped entry is crowded for the keys that are not in the last slot. */
  lemma {:induction false} LastDropped<K(!new), V>(hash: K -> nat, es: seq<Slot<K, V>>, s: set<K>)
    requires |es| > 0 && Reachable(hash, es) && OneSlotEach(es) && !Flat(hash, es) && es[|es| - 1].Full?
    requires es[|es| - 1].key !in s && AllStored(es, s) && OnlyStored(es, s + {es[|es| - 1].key})
    ensures Crowded(hash, es, s)
  {
    var n, w := |es|, WrappedOf(hash, es, s);
    assert StoredIn(es, es[n - 1].key, n - 1);
    var i: nat :| i < n && es[i].Full? && Home(hash, n, es[i].key) > i;
    assert StoredIn(es, es[i].key, i) && i < n - 1 && es[i].key != es[n - 1].key;
    assert es[i].key in w;
    hide Reachable, Flat;
    forall h: nat | h <= n ensures |From(hash, n, s, h)| < n - h + |w| {
      LastDroppedBound(hash, es, s, h);
    }
  }

  lemma {:induction false} LastDroppedBound<K(!new), V>(hash: K -> nat, es: seq<Slot<K, V>>, s: set<K>, h: nat)
    requires |es| > 0 && OneSlotEach(es) && AllStored(es, s) && h <= |es|
    requires es[|es| - 1].Full? && es[|es| - 1].key !in s
    requires WrappedOf(hash, es, s) != {}
    ensures |From(hash, |es|, s, h)| < |es| - h + |WrappedOf(hash, es, s)|
  {
    var n, w, k := |es|, WrappedOf(hash, es, s), From(hash, |es|, s, h);
    WrappedStored(hash, es, s, h);
    SlotsCard(es, w);
    SlotsCard(es, k);
    if h == n {
      assert k == {};
    } else {
      RangeCard(h, n - 1);
      hide AllStored, OneSlotEach, WrappedOf;
      forall i | i in SlotsOf(es, k) ensures i in Range(h, n - 1) + SlotsOf(es, w) {
        FromSlots(hash, es, s, h, i);
        assert es[i].key in s;
      }
      SubsetCard(SlotsOf(es, k), Range(h, n - 1) + SlotsOf(es, w));
      UnionCard(Range(h, n - 1), SlotsOf(es, w));
    }
  }

  // ---------------------------------------------------------------------------------------
  // What a deletion moves

  /** A deletion at p moves an entry from a slot i to a slot j. If it wraps around afterwards it did before, unless it
      has moved below p; if it no longer does, it has moved from below p to p or above, and only then. */
  lemma {:induction false} Moved<K(!new), V>(hash: K -> nat, es: seq<Slot<K, V>>, es': seq<Slot<K, V>>, p: nat, e: nat,
                                             k: K, i: nat, j: nat)
    requires RunOnly(es, es', p, e) && OneSlotEach(es) && OneSlotEach(es') && i != p
    requires StoredIn(es, k, i) && StoredIn(es', k, j)
    requires PathFull(Occupied(es), |es|, Home(hash, |es|, k), i)
    requires PathFull(Occupied(es'), |es|, Home(hash, |es|, k), j)
    ensures var h := Home(hash, |es|, k);
      && (j < h ==> i < h || j < p <= i)
      && (i < h && h <= j ==> i < p <= j) && (i < p <= j ==> i < h <= j)
  {
    var n, h := |es|, Home(hash, |es|, k);
    assert Dist(n, p, i) >= Dist(n, p, e) ==> StoredIn(es', k, i);
    assert Dist(n, p, j) >= Dist(n, p, e) ==> StoredIn(es, k, j);
    assert es'[e].Empty?;
    assert !(Dist(n, h, e) < Dist(n, h, i)) && !(Dist(n, h, e) < Dist(n, h, j));
    hide StoredIn, PathFull, OneSlotEach, RunOnly, Home;
    InsideRun(n, p, e, h, i, j);
  }

  /** The same, with slots seen from the free slot e. */
  lemma {:induction false} InsideRun(n: nat, p: nat, e: nat, h: nat, i: nat, j: nat)
    requires p < n && e < n && h < n && i < n && j < n && i != p && e != p && i != e && j != e
    requires Dist(n, h, e) >= Dist(n, h, i) && Dist(n, h, e) >= Dist(n, h, j)
    requires (Dist(n, p, i) >= Dist(n, p, e) || Dist(n, p, j) >= Dist(n, p, e)) ==> i == j
    ensures j < h ==> i < h || j < p <= i
    ensures i < h <= j ==> i < p <= j
    ensures i < p <= j ==> i < h <= j
  {}
}
