/** Iteration over the hash table, with removal on the way (the iterator of
    Robot/apriltags/common/zhash.c). */
module HashIterator {
  import opened FiniteSets
  import opened HashTable
  import opened Options
  import opened Probing
  import opened WrapAround

  // ---------------------------------------------------------------------------------------
  // Keys in slot order

  /** The keys of the first i slots. */
  function KeysUpTo<K, V>(es: seq<Slot<K, V>>, i: nat): seq<K>
    requires i <= |es|
  {
    if i == 0 then []
    else if es[i - 1].Full? then KeysUpTo(es, i - 1) + [es[i - 1].key]
    else KeysUpTo(es, i - 1)
  }

  lemma {:induction false} KeysUpToHas<K, V>(es: seq<Slot<K, V>>, i: nat, k: K)
    requires i <= |es|
    ensures k in KeysUpTo(es, i) <==> exists j :: 0 <= j < i && es[j].Full? && es[j].key == k
  {
    if i > 0 { KeysUpToHas(es, i - 1, k); }
  }

  lemma {:induction false} SkipEmpty<K, V>(es: seq<Slot<K, V>>, i: nat, j: nat)
    requires i <= j <= |es| && forall q | i <= q < j :: es[q].Empty?
    ensures KeysUpTo(es, j) == KeysUpTo(es, i)
    decreases j
  {
    if i < j { SkipEmpty(es, i, j - 1); }
  }

  /** Every key of the map is met once. */
  lemma {:induction false} AllKeysOnce<K, V>(eq: (K, K) -> bool, es: seq<Slot<K, V>>, m: map<K, V>)
    requires Represents(es, m) && KeysDistinct(eq, es) && forall k | k in m :: eq(k, k)
    ensures forall k :: k in KeysUpTo(es, |es|) <==> k in m
    ensures NoDuplicates(KeysUpTo(es, |es|))
  {
    forall k ensures k in KeysUpTo(es, |es|) <==> k in m {
      KeysUpToHas(es, |es|, k);
      if k in m {
        assert Holds(es, k, m[k]);
        var i :| 0 <= i < |es| && es[i] == Full(k, m[k]);
        assert es[i].key == k;
      }
    }
    NoKeyTwice(eq, es, m, |es|);
  }

  ghost predicate NoDuplicates<T>(s: seq<T>) {
    forall i, j | 0 <= i < j < |s| :: s[i] != s[j]
  }

  lemma {:induction false} NoKeyTwice<K, V>(eq: (K, K) -> bool, es: seq<Slot<K, V>>, m: map<K, V>, i: nat)
    requires i <= |es| && Represents(es, m) && KeysDistinct(eq, es) && forall k | k in m :: eq(k, k)
    ensures NoDuplicates(KeysUpTo(es, i))
  {
    if i > 0 {
      NoKeyTwice(eq, es, m, i - 1);
      if es[i - 1].Full? {
        KeysUpToHas(es, i - 1, es[i - 1].key);
      }
    }
  }

  // ---------------------------------------------------------------------------------------
  // The iterator

  class ZHashIterator<K(!new), V> {
    const zh: ZHash<K, V>
    /** The slot last returned, or -1. */
    var lastEntry: int

    ghost predicate Valid()
      reads this, zh, zh.entries
    {
      zh.Valid() && -1 <= lastEntry < zh.entries.Length
    }

    constructor (zh: ZHash<K, V>)
      requires zh.Valid()
      ensures Valid() && this.zh == zh && lastEntry == -1
    {
      this.zh := zh;
      lastEntry := -1;
    }

    /** Moves to the next occupied slot. */
    method Next() returns (r: Option<(K, V)>)
      requires Valid()
      modifies this
      ensures Valid() && lastEntry >= old(lastEntry)
      ensures r.Some? ==> lastEntry > old(lastEntry) && zh.entries[lastEntry] == Full(r.value.0, r.value.1)
      ensures r.None? ==> lastEntry == zh.entries.Length - 1
      ensures forall i | old(lastEntry) < i <= lastEntry && (r.Some? ==> i < lastEntry) :: zh.entries[i].Empty?
    {
      hide Reachable, Occupied, HasKey, Represents, KeysDistinct, GoodKeys, IsPow2;
      while lastEntry + 1 < zh.entries.Length
        invariant zh.Valid() && old(lastEntry) <= lastEntry < zh.entries.Length
        invariant forall i | old(lastEntry) < i <= lastEntry :: zh.entries[i].Empty?
      {
        lastEntry := lastEntry + 1;
        if zh.entries[lastEntry].Full? {
          return Some((zh.entries[lastEntry].key, zh.entries[lastEntry].val));
        }
      }
      r := None;
    }

    /** Removes the pair last returned. */
    method Remove()
      requires Valid() && lastEntry >= 0 && zh.entries[lastEntry].Full?
      modifies this, zh, zh.entries
      ensures Valid() && zh.entries == old(zh.entries) && zh.size == old(zh.size) - 1
      ensures lastEntry == old(lastEntry) - 1
      ensures zh.contents == old(zh.contents) - {old(zh.entries[lastEntry].key)}
      ensures Settled(old(zh.entries[..]), zh.entries[..], old(lastEntry))
      ensures Steady(zh.hash, old(zh.entries[..]), zh.entries[..], old(lastEntry))
      ensures exists e :: RunOnly(old(zh.entries[..]), zh.entries[..], old(lastEntry), e)
    {
      hide Represents, KeysDistinct, Occupied, Reachable, HasKey, Without, Settled, Steady, RunOnly;
      ghost var es := zh.entries[..];
      assert es[lastEntry] == zh.entries[lastEntry];
      WithoutOwn(zh.hash, zh.eq, es, zh.contents, lastEntry);
      hide GoodKeys;
      zh.RemoveAt(lastEntry);
      lastEntry := lastEntry - 1;
    }
  }

  lemma {:induction false} WithoutOwn<K(!new), V>(hash: K -> nat, eq: (K, K) -> bool, es: seq<Slot<K, V>>, m: map<K, V>,
                                                  p: nat)
    requires GoodKeys(hash, eq) && KeysDistinct(eq, es) && Represents(es, m) && p < |es| && es[p].Full?
    ensures Without(eq, m, es[p].key) == m - {es[p].key}
  {
    var k := es[p].key;
    assert eq(k, k);
    OwnKey(eq, es, m, k, p);
  }

  /** A complete iteration returns every key exactly once. */
  method Keys<K(!new), V>(zh: ZHash<K, V>) returns (keys: seq<K>)
    requires zh.Valid()
    ensures NoDuplicates(keys) && forall k :: k in keys <==> k in zh.contents
  {
    hide Reachable, Occupied, HasKey, Represents, KeysDistinct, KeysUpTo, NoDuplicates, GoodKeys;
    ghost var es := zh.entries[..];
    var itr := new ZHashIterator<K, V>(zh);
    keys := [];
    KeysNone(es);
    var pair := itr.Next();
    KeysNext(es, 0, itr.lastEntry, pair);
    while pair.Some?
      invariant itr.Valid() && itr.zh == zh && fresh(itr) && es == zh.entries[..]
      invariant pair.Some? ==> itr.lastEntry >= 0 && zh.entries[itr.lastEntry] == Full(pair.value.0, pair.value.1)
      invariant pair.Some? ==> keys == KeysUpTo(es, itr.lastEntry)
      invariant pair.None? ==> keys == KeysUpTo(es, |es|)
      decreases zh.entries.Length - itr.lastEntry, pair.Some?
    {
      ghost var last := itr.lastEntry;
      assert es[last] == zh.entries[last];
      KeysStep(es, last);
      keys := keys + [pair.value.0];
      pair := itr.Next();
      KeysNext(es, last + 1, itr.lastEntry, pair);
    }
    SelfEqual(zh.hash, zh.eq, zh.contents);
    AllKeysOnce(zh.eq, es, zh.contents);
  }

  lemma {:induction false} KeysNone<K, V>(es: seq<Slot<K, V>>)
    ensures KeysUpTo(es, 0) == []
  {}

  lemma {:induction false} KeysStep<K, V>(es: seq<Slot<K, V>>, i: nat)
    requires i < |es| && es[i].Full?
    ensures KeysUpTo(es, i + 1) == KeysUpTo(es, i) + [es[i].key]
  {}

  lemma {:induction false} KeysNext<K, V>(es: seq<Slot<K, V>>, i: nat, last: int, r: Option<(K, V)>)
    requires i <= last + 1 <= |es| && (r.Some? ==> i <= last) && (r.None? ==> last == |es| - 1)
    requires forall q | i <= q <= last && (r.Some? ==> q < last) :: es[q].Empty?
    ensures KeysUpTo(es, if r.Some? then last else |es|) == KeysUpTo(es, i)
  {
    SkipEmpty(es, i, if r.Some? then last else |es|);
  }

  lemma {:induction false} SelfEqual<K(!new), V>(hash: K -> nat, eq: (K, K) -> bool, m: map<K, V>)
    requires GoodKeys(hash, eq)
    ensures forall k | k in m :: eq(k, k)
  {}

  // ---------------------------------------------------------------------------------------
  // Removing while iterating

  ghost function Kept<K, V>(m: map<K, V>, drop: (K, V) -> bool): map<K, V> {
    map k | k in m && !drop(k, m[k]) :: m[k]
  }

  /** Some pairs to be dropped are gone; no slot up to last still holds one. */
  ghost predicate Filtering<K, V>(m0: map<K, V>, m: map<K, V>, es: seq<Slot<K, V>>, drop: (K, V) -> bool, last: int) {
    && (forall k | k in m :: k in m0 && m[k] == m0[k])
    && (forall k | k in m0 && !drop(k, m0[k]) :: k in m)
    && forall i | 0 <= i < |es| && i <= last && es[i].Full? :: !drop(es[i].key, es[i].val)
  }

  lemma {:induction false} FilterSkips<K, V>(m0: map<K, V>, m: map<K, V>, es: seq<Slot<K, V>>, drop: (K, V) -> bool,
                                             last: int, next: int)
    requires Filtering(m0, m, es, drop, last) && -1 <= last <= next < |es|
    requires forall i | last < i < next :: es[i].Empty?
    requires 0 <= next && (es[next].Full? ==> !drop(es[next].key, es[next].val))
    ensures Filtering(m0, m, es, drop, next)
  {}

  /** Removing at p misses no pair, although the re-insertion moves others. */
  lemma {:induction false} FilterDrops<K, V>(m0: map<K, V>, m: map<K, V>, es: seq<Slot<K, V>>, es': seq<Slot<K, V>>,
                                             drop: (K, V) -> bool, last: int, p: nat)
    requires Filtering(m0, m, es, drop, last) && Represents(es, m) && -1 <= last < p < |es| && es[p].Full?
    requires drop(es[p].key, es[p].val) && (forall i | last < i < p :: es[i].Empty?) && Settled(es, es', p)
    ensures Filtering(m0, m - {es[p].key}, es', drop, p - 1)
  {
    forall i | 0 <= i < |es'| && i <= p - 1 && es'[i].Full? ensures !drop(es'[i].key, es'[i].val) {
      assert FromBelow(es, es'[i], p);
    }
  }

  lemma {:induction false} Filtered<K, V>(m0: map<K, V>, m: map<K, V>, es: seq<Slot<K, V>>, drop: (K, V) -> bool)
    requires Filtering(m0, m, es, drop, |es| - 1) && Represents(es, m)
    ensures m == Kept(m0, drop)
  {
    forall k | k in m ensures !drop(k, m0[k]) {
      assert Holds(es, k, m[k]);
      var i :| 0 <= i < |es| && es[i] == Full(k, m[k]);
    }
    assert m.Keys == Kept(m0, drop).Keys;
  }

  // Which pairs the iterator returns

  /** Every pair up to slot last has been met, as has every pair no longer stored, and nothing else. */
  ghost predicate MetAll<K, V>(m0: map<K, V>, m: map<K, V>, es: seq<Slot<K, V>>, met: seq<(K, V)>, last: int) {
    && (forall i | 0 <= i < |es| && i <= last && es[i].Full? :: (es[i].key, es[i].val) in met)
    && (forall k | k in m0 && k !in m :: (k, m0[k]) in met)
    && (forall q | q in met :: q.0 in m0 && m0[q.0] == q.1)
  }

  lemma {:induction false} MetSkips<K, V>(m0: map<K, V>, m: map<K, V>, es: seq<Slot<K, V>>, met: seq<(K, V)>, last: int,
                                          next: int)
    requires MetAll(m0, m, es, met, last) && -1 <= last <= next < |es|
    requires forall i | last < i <= next :: es[i].Empty?
    ensures MetAll(m0, m, es, met, next)
  {}

  lemma {:induction false} MetNext<K, V>(m0: map<K, V>, m: map<K, V>, es: seq<Slot<K, V>>, met: seq<(K, V)>, last: int,
                                         p: nat, pair: (K, V))
    requires MetAll(m0, m, es, met, last) && -1 <= last < p < |es| && es[p] == Full(pair.0, pair.1)
    requires Represents(es, m) && (forall k | k in m :: k in m0 && m[k] == m0[k]) && forall i | last < i < p ::
      es[i].Empty?
    ensures MetAll(m0, m, es, met + [pair], p)
  {}

  lemma {:induction false} MetRemoved<K, V>(m0: map<K, V>, m: map<K, V>, es: seq<Slot<K, V>>, es': seq<Slot<K, V>>,
                                            met: seq<(K, V)>, p: nat)
    requires MetAll(m0, m, es, met, p) && p < |es| && es[p].Full? && Settled(es, es', p)
    requires Represents(es, m) && forall k | k in m :: k in m0 && m[k] == m0[k]
    ensures MetAll(m0, m - {es[p].key}, es', met, p - 1)
  {
    forall i | 0 <= i < |es'| && i <= p - 1 && es'[i].Full? ensures (es'[i].key, es'[i].val) in met {
      assert FromBelow(es, es'[i], p);
    }
  }

  // Which pairs it returns twice: those stored below their home slot that a removal moves past the iterator

  ghost function KeptKeys<K, V>(m: map<K, V>, drop: (K, V) -> bool): set<K> {
    set k | k in m && !drop(k, m[k])
  }

  ghost predicate StoredUpTo<K, V>(es: seq<Slot<K, V>>, q: (K, V), last: int) {
    exists i :: 0 <= i < |es| && i <= last && es[i] == Full(q.0, q.1)
  }

  /** w0 are the keys kept that were wrapped at first, w those still wrapped. A pair met is still stored up to slot last
      or has come back. What has come back was met before, and is met twice once the iterator has passed it again. */
  ghost predicate Repeats<K, V>(m0: map<K, V>, w0: set<K>, w: set<K>, m: map<K, V>, es: seq<Slot<K, V>>,
                                met: seq<(K, V)>, last: int) {
    && w <= w0 && w0 <= m0.Keys
    && (forall q | q in met && q.0 in m :: StoredUpTo(es, q, last) || q.0 in w0 - w)
    && (forall k | k in w0 - w :: (k, m0[k]) in met)
    && (forall k | k in w0 - w && StoredUpTo(es, (k, m0[k]), last) :: !NoDuplicates(met))
    && (w == w0 ==> NoDuplicates(met))
  }

  lemma {:induction false} MetTwice<T>(met: seq<T>, x: T)
    ensures NoDuplicates(met + [x]) <==> x !in met && NoDuplicates(met)
  {
    if x in met {
      var i :| 0 <= i < |met| && met[i] == x;
      assert (met + [x])[i] == (met + [x])[|met|];
    }
    if !NoDuplicates(met) {
      var i, j :| 0 <= i < j < |met| && met[i] == met[j];
      assert (met + [x])[i] == (met + [x])[j];
    }
  }

  /** The next pair. */
  lemma {:induction false} RepeatsNext<K(!new), V>(m0: map<K, V>, w0: set<K>, w: set<K>, m: map<K, V>,
                                                   es: seq<Slot<K, V>>, met: seq<(K, V)>, last: int, p: nat,
                                                   pair: (K, V))
    requires Repeats(m0, w0, w, m, es, met, last) && OneSlotEach(es) && Represents(es, m)
    requires -1 <= last < p < |es| && es[p] == Full(pair.0, pair.1) && forall i | last < i < p :: es[i].Empty?
    requires forall k | k in m :: k in m0 && m[k] == m0[k]
    ensures Repeats(m0, w0, w, m, es, met + [pair], p)
  {
    hide NoDuplicates;
    MetTwice(met, pair);
    assert StoredIn(es, pair.0, p);
    assert pair.0 in m && m[pair.0] == pair.1;
    forall q | q in met + [pair] && q.0 in m ensures StoredUpTo(es, q, p) || q.0 in w0 - w {
      if q == pair { assert es[p] == Full(q.0, q.1); } else { LaterToo(es, q, last, p); }
    }
    forall k | k in w0 - w && StoredUpTo(es, (k, m0[k]), p) ensures !NoDuplicates(met + [pair]) {
      var i :| 0 <= i < |es| && i <= p && es[i] == Full(k, m0[k]);
      if i < p { assert StoredUpTo(es, (k, m0[k]), last); }
    }
    NotYet(es, pair, last, p);
  }

  lemma {:induction false} LaterToo<K, V>(es: seq<Slot<K, V>>, q: (K, V), last: int, next: int)
    requires last <= next
    ensures StoredUpTo(es, q, last) ==> StoredUpTo(es, q, next)
  {}

  lemma {:induction false} NotYet<K(!new), V>(es: seq<Slot<K, V>>, q: (K, V), last: int, p: nat)
    requires OneSlotEach(es) && last < p < |es| && es[p] == Full(q.0, q.1)
    ensures !StoredUpTo(es, q, last)
  {
    assert StoredIn(es, q.0, p);
    forall i: nat | i < |es| && i <= last ensures es[i] != Full(q.0, q.1) {
      assert es[i] == Full(q.0, q.1) ==> StoredIn(es, q.0, i);
    }
  }

  /** What a removal at p does to a table, as far as the iteration depends on it. */
  ghost predicate RemovedAt<K(!new), V>(hash: K -> nat, m: map<K, V>, es: seq<Slot<K, V>>, es': seq<Slot<K, V>>, p: nat,
                                        e: nat) {
    && OneSlotEach(es) && OneSlotEach(es') && Represents(es, m) && p < |es| && es[p].Full?
    && Represents(es', m - {es[p].key}) && Reachable(hash, es) && Reachable(hash, es')
    && RunOnly(es, es', p, e) && Settled(es, es', p)
  }

  /** One key that stays, in slot i before and in slot j after the removal. */
  lemma {:induction false} KeyMoved<K(!new), V>(hash: K -> nat, m: map<K, V>, es: seq<Slot<K, V>>, es': seq<Slot<K, V>>,
                                                p: nat, e: nat, k: K) returns (i: nat, j: nat)
    requires RemovedAt(hash, m, es, es', p, e) && k in m && k != es[p].key
    ensures i < |es| && j < |es'| && i != p && es[i] == Full(k, m[k]) == es'[j] && (j < p ==> i < p)
    ensures Wrapped(hash, es', k) ==> Wrapped(hash, es, k)
    ensures Wrapped(hash, es, k) && !Wrapped(hash, es', k) <==> i < p <= j
  {
    assert Holds(es, k, m[k]) && Holds(es', k, (m - {es[p].key})[k]);
    i :| 0 <= i < |es| && es[i] == Full(k, m[k]);
    j :| 0 <= j < |es'| && es'[j] == Full(k, m[k]);
    OwnPath(hash, es, i);
    OwnPath(hash, es', j);
    assert StoredIn(es, k, i) && StoredIn(es', k, j);
    hide Reachable, Represents, PathFull;
    if j < p {
      assert FromBelow(es, es'[j], p);
      var x: nat :| x < p && x < |es| && es[x] == es'[j];
      assert StoredIn(es, k, x);
    }
    WrappedAt(hash, es, k, i);
    WrappedAt(hash, es', k, j);
    Moved(hash, es, es', p, e, k, i, j);
  }

  lemma {:induction false} WrappedAt<K(!new), V>(hash: K -> nat, es: seq<Slot<K, V>>, k: K, i: nat)
    requires OneSlotEach(es) && StoredIn(es, k, i)
    ensures Wrapped(hash, es, k) <==> i < Home(hash, |es|, k)
  {}

  lemma {:induction false} OwnPath<K, V>(hash: K -> nat, es: seq<Slot<K, V>>, i: nat)
    requires Reachable(hash, es) && i < |es| && es[i].Full?
    ensures PathFull(Occupied(es), |es|, Home(hash, |es|, es[i].key), i)
  {
    hide PathFull;
  }

  lemma {:induction false} StoredOnce<K(!new), V>(es: seq<Slot<K, V>>, k: K, v: V, i: nat, last: int)
    requires OneSlotEach(es) && i < |es| && es[i] == Full(k, v)
    ensures StoredUpTo(es, (k, v), last) <==> i <= last
  {
    if i > last { NotYet(es, (k, v), last, i); }
  }

  /** The removal of the pair at p, which is the next one and is to be dropped. */
  lemma {:induction false} RepeatsDrops<K(!new), V>(hash: K -> nat, m0: map<K, V>, w0: set<K>, m: map<K, V>,
                                                    es: seq<Slot<K, V>>, es': seq<Slot<K, V>>, drop: (K, V) -> bool,
                                                    met: seq<(K, V)>, last: int, p: nat, e: nat)
    requires RemovedAt(hash, m, es, es', p, e) && Filtering(m0, m, es, drop, last) && MetAll(m0, m, es, met, last)
    requires w0 <= KeptKeys(m0, drop) && -1 <= last < p && (forall i | last < i < p :: es[i].Empty?)
    requires drop(es[p].key, es[p].val)
    requires Repeats(m0, w0, WrappedOf(hash, es, KeptKeys(m0, drop)), m, es, met, last)
    ensures Repeats(m0, w0, WrappedOf(hash, es', KeptKeys(m0, drop)), m - {es[p].key}, es',
                    met + [(es[p].key, es[p].val)], p - 1)
  {
    var s, pair, m' := KeptKeys(m0, drop), (es[p].key, es[p].val), m - {es[p].key};
    var met' := met + [pair];
    var w, w' := WrappedOf(hash, es, s), WrappedOf(hash, es', s);
    hide NoDuplicates, Wrapped, StoredUpTo, Reachable, RunOnly, Settled;
    MetTwice(met, pair);
    NotYet(es, pair, last, p);
    KeptStay(m0, m, es, drop, last, p);
    hide RemovedAt, Represents, OneSlotEach;
    forall k | k in w' ensures k in w {
      var i, j := KeyMoved(hash, m, es, es', p, e, k);
    }
    forall q | q in met' && q.0 in m' ensures StoredUpTo(es', q, p - 1) || q.0 in w0 - w' {
      var i, j := KeyMoved(hash, m, es, es', p, e, q.0);
      RepeatsPair(hash, m0, w0, m, es, es', drop, met, last, p, e, q, i, j);
    }
    forall k | k in w0 - w' ensures (k, m0[k]) in met && (StoredUpTo(es', (k, m0[k]), p - 1) ==> !NoDuplicates(met)) {
      var i, j := KeyMoved(hash, m, es, es', p, e, k);
      RepeatsKey(hash, m0, w0, m, es, es', drop, met, last, p, e, k, i, j);
    }
  }

  lemma {:induction false} KeptStay<K, V>(m0: map<K, V>, m: map<K, V>, es: seq<Slot<K, V>>, drop: (K, V) -> bool,
                                          last: int, p: nat)
    requires Filtering(m0, m, es, drop, last) && Represents(es, m) && p < |es| && es[p].Full?
    requires drop(es[p].key, es[p].val)
    ensures forall k | k in KeptKeys(m0, drop) :: k in m && m[k] == m0[k] && k != es[p].key
    ensures forall k | k in m :: k in m0 && m[k] == m0[k]
    ensures es[p].key in m && m[es[p].key] == es[p].val
  {}

  lemma {:induction false} RepeatsPair<K(!new), V>(hash: K -> nat, m0: map<K, V>, w0: set<K>, m: map<K, V>,
                                                   es: seq<Slot<K, V>>, es': seq<Slot<K, V>>, drop: (K, V) -> bool,
                                                   met: seq<(K, V)>, last: int, p: nat, e: nat, q: (K, V), i: nat,
                                                   j: nat)
    requires RemovedAt(hash, m, es, es', p, e) && Filtering(m0, m, es, drop, last) && MetAll(m0, m, es, met, last)
    requires -1 <= last < p && (forall x | last < x < p :: es[x].Empty?) && q in met && q.0 in m && q.0 != es[p].key
    requires Repeats(m0, w0, WrappedOf(hash, es, KeptKeys(m0, drop)), m, es, met, last)
    requires i < |es| && j < |es'| && es[i] == Full(q.0, m[q.0]) == es'[j]
    requires Wrapped(hash, es', q.0) ==> Wrapped(hash, es, q.0)
    requires Wrapped(hash, es, q.0) && !Wrapped(hash, es', q.0) <==> i < p <= j
    ensures StoredUpTo(es', q, p - 1) || q.0 in w0 - WrappedOf(hash, es', KeptKeys(m0, drop))
  {
    hide NoDuplicates, Wrapped, Reachable, RunOnly, Settled, OneSlotEach, StoredUpTo;
    assert q.1 == m[q.0] == m0[q.0];
    StoredOnce(es, q.0, q.1, i, last);
    StoredOnce(es', q.0, q.1, j, p - 1);
    if i <= last && j >= p { assert !drop(es[i].key, es[i].val); }
  }

  lemma {:induction false} RepeatsKey<K(!new), V>(hash: K -> nat, m0: map<K, V>, w0: set<K>, m: map<K, V>,
                                                  es: seq<Slot<K, V>>, es': seq<Slot<K, V>>, drop: (K, V) -> bool,
                                                  met: seq<(K, V)>, last: int, p: nat, e: nat, k: K, i: nat, j: nat)
    requires RemovedAt(hash, m, es, es', p, e) && Filtering(m0, m, es, drop, last) && MetAll(m0, m, es, met, last)
    requires -1 <= last < p && (forall x | last < x < p :: es[x].Empty?) && k in m && k != es[p].key
    requires Repeats(m0, w0, WrappedOf(hash, es, KeptKeys(m0, drop)), m, es, met, last) && k in KeptKeys(m0, drop)
    requires k in w0 && !Wrapped(hash, es', k)
    requires i < |es| && j < |es'| && es[i] == Full(k, m[k]) == es'[j] && (j < p ==> i < p)
    requires Wrapped(hash, es, k) && !Wrapped(hash, es', k) <==> i < p <= j
    ensures (k, m0[k]) in met && (StoredUpTo(es', (k, m0[k]), p - 1) ==> !NoDuplicates(met))
  {
    hide NoDuplicates, Wrapped, Reachable, RunOnly, Settled, OneSlotEach, StoredUpTo;
    assert m[k] == m0[k];
    StoredOnce(es, k, m0[k], i, last);
    StoredOnce(es', k, m0[k], j, p - 1);
    if i < p {
      assert i <= last;
      assert (es[i].key, es[i].val) in met;
    }
  }

  lemma {:induction false} RepeatsStart<K, V>(hash: K -> nat, m: map<K, V>, es: seq<Slot<K, V>>, drop: (K, V) -> bool)
    ensures var w := WrappedOf(hash, es, KeptKeys(m, drop)); Repeats(m, w, w, m, es, [], -1)
  {
    hide Wrapped;
  }

  /** At the end a pair has been met twice exactly if some key kept no longer wraps around. */
  lemma {:induction false} RepeatsEnd<K, V>(m0: map<K, V>, w0: set<K>, w: set<K>, m: map<K, V>, es: seq<Slot<K, V>>,
                                            met: seq<(K, V)>)
    requires Repeats(m0, w0, w, m, es, met, |es| - 1) && Represents(es, m)
    requires forall k | k in w0 :: k in m && m[k] == m0[k]
    ensures NoDuplicates(met) <==> w == w0
  {
    hide NoDuplicates;
    if k :| k in w0 - w {
      assert Holds(es, k, m[k]);
      var i :| 0 <= i < |es| && es[i] == Full(k, m0[k]);
      assert StoredUpTo(es, (k, m0[k]), |es| - 1);
    } else {
      assert w == w0;
    }
  }

  /** Only the pair in the last slot is to be dropped. */
  ghost predicate DropsLast<K, V>(es: seq<Slot<K, V>>, m: map<K, V>, drop: (K, V) -> bool) {
    |es| > 0 && es[|es| - 1].Full? && forall k | k in m :: drop(k, m[k]) <==> k == es[|es| - 1].key
  }

  /** Everything that is known while iterating and removing. */
  ghost predicate Walk<K(!new), V>(hash: K -> nat, m0: map<K, V>, es0: seq<Slot<K, V>>, m: map<K, V>,
                                   es: seq<Slot<K, V>>, drop: (K, V) -> bool, met: seq<(K, V)>, last: int)
  {
    var s := KeptKeys(m0, drop);
    && |es| == |es0| && Filtering(m0, m, es, drop, last) && MetAll(m0, m, es, met, last)
    && Repeats(m0, WrappedOf(hash, es0, s), WrappedOf(hash, es, s), m, es, met, last)
  }

  /** Some pair comes twice: of the keys that are kept, fewer would wrap around without the dropped ones than do now.
      For every slot h, the kept keys with a home from h on are fewer than the slots from h on and the kept wrapped keys
      together. */
  ghost predicate ComesTwice<K(!new), V>(hash: K -> nat, m: map<K, V>, es: seq<Slot<K, V>>, drop: (K, V) -> bool)
    requires |es| > 0
  {
    Crowded(hash, es, KeptKeys(m, drop))
  }

  /** If some entry is wrapped there is such a condition: dropping just the pair in the last slot. */
  lemma {:induction false} WrappedComesTwice<K(!new), V>(hash: K -> nat, eq: (K, K) -> bool, m: map<K, V>,
                                                         es: seq<Slot<K, V>>) returns (drop: (K, V) -> bool)
    requires GoodKeys(hash, eq) && KeysDistinct(eq, es) && Represents(es, m) && Reachable(hash, es) && !Flat(hash, es)
    ensures |es| > 0 && ComesTwice(hash, m, es, drop)
  {
    hide PathFull;
    var i: nat :| i < |es| && es[i].Full? && Home(hash, |es|, es[i].key) > i;
    OwnPath(hash, es, i);
    LastOnPath(es, Home(hash, |es|, es[i].key), i);
    var k := es[|es| - 1].key;
    drop := (x, v) => x == k;
    DropsLastTwice(hash, eq, m, es, drop);
  }

  /** Without a wrapped entry there is none. */
  lemma {:induction false} FlatComesOnce<K(!new), V>(hash: K -> nat, m: map<K, V>, es: seq<Slot<K, V>>,
                                                     drop: (K, V) -> bool)
    requires |es| > 0
    ensures Flat(hash, es) ==> !ComesTwice(hash, m, es, drop)
  {
    hide Flat, Crowded;
    if Flat(hash, es) { FlatNotCrowded(hash, es, KeptKeys(m, drop)); }
  }

  lemma {:induction false} DropsLastTwice<K(!new), V>(hash: K -> nat, eq: (K, K) -> bool, m: map<K, V>,
                                                      es: seq<Slot<K, V>>, drop: (K, V) -> bool)
    requires GoodKeys(hash, eq) && KeysDistinct(eq, es) && Represents(es, m) && Reachable(hash, es) && !Flat(hash, es)
    requires DropsLast(es, m, drop)
    ensures ComesTwice(hash, m, es, drop)
  {
    DistinctSlots(hash, eq, es);
    hide GoodKeys, KeysDistinct, Reachable, Flat, OneSlotEach;
    KeptAreStored(m, es, drop);
    LastDropped(hash, es, KeptKeys(m, drop));
  }

  lemma {:induction false} KeptAreStored<K(!new), V>(m: map<K, V>, es: seq<Slot<K, V>>, drop: (K, V) -> bool)
    requires Represents(es, m)
    ensures AllStored(es, KeptKeys(m, drop))
    ensures forall i | 0 <= i < |es| && es[i].Full? :: es[i].key in KeptKeys(m, drop) || drop(es[i].key, es[i].val)
  {
    forall k | k in KeptKeys(m, drop) ensures exists i: nat :: StoredIn(es, k, i) {
      assert Holds(es, k, m[k]);
      var i :| 0 <= i < |es| && es[i] == Full(k, m[k]);
      assert StoredIn(es, k, i);
    }
  }

  lemma {:induction false} LastOnPath<K, V>(es: seq<Slot<K, V>>, h: nat, i: nat)
    requires i < h < |es| && PathFull(Occupied(es), |es|, h, i)
    ensures es[|es| - 1].Full?
  {
    assert Dist(|es|, h, |es| - 1) < Dist(|es|, h, i);
    assert |es| - 1 in Occupied(es);
  }

  lemma {:induction false} WalkStarts<K(!new), V>(hash: K -> nat, m: map<K, V>, es: seq<Slot<K, V>>,
                                                  drop: (K, V) -> bool)
    requires |es| > 0
    ensures Walk(hash, m, es, m, es, drop, [], -1)
  {
    FilterStart(m, es, drop);
    RepeatsStart(hash, m, es, drop);
  }

  lemma {:induction false} WalkKeeps<K(!new), V>(hash: K -> nat, eq: (K, K) -> bool, m0: map<K, V>,
                                                 es0: seq<Slot<K, V>>, m: map<K, V>, es: seq<Slot<K, V>>,
                                                 drop: (K, V) -> bool, met: seq<(K, V)>, last: int, p: nat,
                                                 pair: (K, V))
    requires Walk(hash, m0, es0, m, es, drop, met, last) && Represents(es0, m0)
    requires GoodKeys(hash, eq) && KeysDistinct(eq, es) && Represents(es, m)
    requires -1 <= last < p < |es| && es[p] == Full(pair.0, pair.1) && (forall i | last < i < p :: es[i].Empty?)
    requires !drop(pair.0, pair.1)
    ensures Walk(hash, m0, es0, m, es, drop, met + [pair], p)
  {
    hide Filtering, MetAll, Repeats, Represents, KeysDistinct, GoodKeys, OneSlotEach, WrappedOf, KeptKeys;
    FilteringPart(m0, m, es, drop, last);
    FilterSkips(m0, m, es, drop, last, p);
    MetNext(m0, m, es, met, last, p, pair);
    DistinctSlots(hash, eq, es);
    var s := KeptKeys(m0, drop);
    RepeatsNext(m0, WrappedOf(hash, es0, s), WrappedOf(hash, es, s), m, es, met, last, p, pair);
  }

  lemma {:induction false} WalkDrops<K(!new), V>(hash: K -> nat, eq: (K, K) -> bool, m0: map<K, V>,
                                                 es0: seq<Slot<K, V>>, m: map<K, V>, es: seq<Slot<K, V>>,
                                                 es': seq<Slot<K, V>>, drop: (K, V) -> bool, met: seq<(K, V)>,
                                                 last: int, p: nat, pair: (K, V), e: nat)
    requires Walk(hash, m0, es0, m, es, drop, met, last) && Represents(es0, m0)
    requires GoodKeys(hash, eq) && KeysDistinct(eq, es) && Represents(es, m) && Reachable(hash, es)
    requires -1 <= last < p < |es| && es[p] == Full(pair.0, pair.1) && (forall i | last < i < p :: es[i].Empty?)
    requires drop(pair.0, pair.1) && Settled(es, es', p) && RunOnly(es, es', p, e)
    requires Reachable(hash, es') && KeysDistinct(eq, es') && Represents(es', m - {pair.0})
    ensures Walk(hash, m0, es0, m - {pair.0}, es', drop, met + [pair], p - 1)
  {
    SameSize(es, es', p);
    hide Filtering, MetAll, Repeats, Represents, KeysDistinct, GoodKeys, Reachable, Settled, OneSlotEach, RunOnly;
    hide Wrapped, KeptKeys;
    FilteringPart(m0, m, es, drop, last);
    FilterDrops(m0, m, es, es', drop, last, p);
    MetNext(m0, m, es, met, last, p, pair);
    MetRemoved(m0, m, es, es', met + [pair], p);
    DistinctSlots(hash, eq, es);
    DistinctSlots(hash, eq, es');
    assert RemovedAt(hash, m, es, es', p, e);
    hide WrappedOf, RemovedAt;
    WrappedAreKept(hash, es0, KeptKeys(m0, drop));
    RepeatsDrops(hash, m0, WrappedOf(hash, es0, KeptKeys(m0, drop)), m, es, es', drop, met, last, p, e);
  }

  lemma {:induction false} SameSize<K, V>(es: seq<Slot<K, V>>, es': seq<Slot<K, V>>, p: nat)
    requires Settled(es, es', p)
    ensures |es'| == |es|
  {}

  lemma {:induction false} WrappedAreKept<K, V>(hash: K -> nat, es: seq<Slot<K, V>>, s: set<K>)
    ensures WrappedOf(hash, es, s) <= s
  {
    hide Wrapped;
  }

  /** What the iteration has done when no occupied slot is left. */
  lemma {:induction false} WalkEnds<K(!new), V>(hash: K -> nat, eq: (K, K) -> bool, m0: map<K, V>,
                                                es0: seq<Slot<K, V>>, m: map<K, V>, es: seq<Slot<K, V>>,
                                                drop: (K, V) -> bool, met: seq<(K, V)>, last: int, free: nat)
    requires Walk(hash, m0, es0, m, es, drop, met, last) && Represents(es, m) && -1 <= last < |es|
    requires forall i | last < i < |es| :: es[i].Empty?
    requires GoodKeys(hash, eq) && KeysDistinct(eq, es0) && Represents(es0, m0)
    requires KeysDistinct(eq, es) && Reachable(hash, es) && free < |es| && es[free].Empty?
    ensures m == Kept(m0, drop) && (forall q :: q in met <==> q.0 in m0 && m0[q.0] == q.1)
    ensures NoDuplicates(met) <==> !ComesTwice(hash, m0, es0, drop)
  {
    hide Filtering, MetAll, Represents, Kept, NoDuplicates, GoodKeys, KeysDistinct, Reachable, OneSlotEach;
    hide Wrapped, Crowded, KeptKeys, StoredUpTo, WrappedOf;
    var n := |es| - 1;
    FilterEnd(m0, m, es, drop, last, n);
    Filtered(m0, m, es, drop);
    FilteringPart(m0, m, es, drop, n);
    MetSkips(m0, m, es, met, last, n);
    AllMet(m0, m, es, met);
    var s := KeptKeys(m0, drop);
    DistinctSlots(hash, eq, es0);
    DistinctSlots(hash, eq, es);
    KeptIsAll(m0, m, drop);
    KeptAreStored(m0, es0, drop);
    AllAreStored(m, es);
    RepeatsSkips(m0, WrappedOf(hash, es0, s), WrappedOf(hash, es, s), m, es, met, last, n);
    WrappedAreKept(hash, es0, s);
    RepeatsEnd(m0, WrappedOf(hash, es0, s), WrappedOf(hash, es, s), m, es, met);
    CrowdedExactly(hash, es0, es, s, free);
  }

  lemma {:induction false} KeptIsAll<K, V>(m0: map<K, V>, m: map<K, V>, drop: (K, V) -> bool)
    requires m == Kept(m0, drop)
    ensures m.Keys == KeptKeys(m0, drop) && forall k | k in KeptKeys(m0, drop) :: k in m && m[k] == m0[k]
  {}

  lemma {:induction false} AllAreStored<K(!new), V>(m: map<K, V>, es: seq<Slot<K, V>>)
    requires Represents(es, m)
    ensures AllStored(es, m.Keys) && OnlyStored(es, m.Keys)
  {
    forall k | k in m.Keys ensures exists i: nat :: StoredIn(es, k, i) {
      assert Holds(es, k, m[k]);
      var i :| 0 <= i < |es| && es[i] == Full(k, m[k]);
      assert StoredIn(es, k, i);
    }
  }

  lemma {:induction false} RepeatsSkips<K, V>(m0: map<K, V>, w0: set<K>, w: set<K>, m: map<K, V>, es: seq<Slot<K, V>>,
                                              met: seq<(K, V)>, last: int, next: int)
    requires Repeats(m0, w0, w, m, es, met, last) && -1 <= last <= next < |es|
    requires forall i | last < i <= next :: es[i].Empty?
    ensures Repeats(m0, w0, w, m, es, met, next)
  {
    hide NoDuplicates;
    forall q: (K, V) ensures StoredUpTo(es, q, next) <==> StoredUpTo(es, q, last) {
      LaterToo(es, q, last, next);
      if StoredUpTo(es, q, next) {
        var i :| 0 <= i < |es| && i <= next && es[i] == Full(q.0, q.1);
        assert i <= last;
      }
    }
  }

  /** Iterates and removes the pairs that satisfy a condition. Exactly the others stay. The iterator returns every
      pair, and some pair twice exactly if ComesTwice says so. */
  method RemoveWhere<K(==, !new), V>(zh: ZHash<K, V>, drop: (K, V) -> bool) returns (met: seq<(K, V)>)
    requires zh.Valid()
    modifies zh, zh.entries
    ensures zh.Valid() && zh.entries == old(zh.entries)
    ensures zh.contents == Kept(old(zh.contents), drop)
    ensures forall q :: q in met <==> q.0 in old(zh.contents) && old(zh.contents)[q.0] == q.1
    ensures NoDuplicates(met) <==> !ComesTwice(zh.hash, old(zh.contents), old(zh.entries[..]), drop)
    ensures Flat(zh.hash, old(zh.entries[..])) ==> NoDuplicates(met)
  {
    hide Reachable, Occupied, HasKey, Represents, KeysDistinct, GoodKeys, Settled, Steady, RunOnly, Kept, Flat, IsPow2;
    hide Walk, NoDuplicates, ComesTwice;
    ghost var m0, es0 := zh.contents, zh.entries[..];
    var itr := new ZHashIterator<K, V>(zh);
    met := [];
    WalkStarts(zh.hash, m0, es0, drop);
    var pair := itr.Next();
    ghost var last, es := -1, zh.entries[..];
    while pair.Some?
      invariant itr.Valid() && itr.zh == zh && fresh(itr) && zh.entries == old(zh.entries) && es == zh.entries[..]
      invariant Walk(zh.hash, m0, es0, zh.contents, es, drop, met, last) && -1 <= last <= itr.lastEntry
      invariant pair.Some? ==> last < itr.lastEntry && es[itr.lastEntry] == Full(pair.value.0, pair.value.1)
      invariant pair.None? ==> itr.lastEntry == |es| - 1
      invariant forall i | last < i <= itr.lastEntry && (pair.Some? ==> i < itr.lastEntry) :: es[i].Empty?
      decreases zh.size, zh.entries.Length - last, pair.Some?
    {
      last, met := DropOrKeep(itr, drop, met, m0, es0, last, pair.value);
      es := zh.entries[..];
      pair := itr.Next();
    }
    ghost var free := FreeSlot(es, zh.size);
    WalkEnds(zh.hash, zh.eq, m0, es0, zh.contents, es, drop, met, last, free);
    FlatComesOnce(zh.hash, m0, es0, drop);
  }

  /** The body of the loop: removes the pair returned last if it is to be dropped. */
  method DropOrKeep<K(==, !new), V>(itr: ZHashIterator<K, V>, drop: (K, V) -> bool, met0: seq<(K, V)>,
                                    ghost m0: map<K, V>, ghost es0: seq<Slot<K, V>>, ghost last0: int, pair: (K, V))
    returns (ghost last: int, met: seq<(K, V)>)
    requires itr.Valid() && Represents(es0, m0) && -1 <= last0 < itr.lastEntry
    requires Walk(itr.zh.hash, m0, es0, itr.zh.contents, itr.zh.entries[..], drop, met0, last0)
    requires itr.zh.entries[itr.lastEntry] == Full(pair.0, pair.1)
    requires forall i | last0 < i < itr.lastEntry :: itr.zh.entries[i].Empty?
    modifies itr, itr.zh, itr.zh.entries
    ensures itr.Valid() && itr.zh.entries == old(itr.zh.entries) && last == itr.lastEntry
    ensures Walk(itr.zh.hash, m0, es0, itr.zh.contents, itr.zh.entries[..], drop, met, last)
    ensures last > last0 || itr.zh.size < old(itr.zh.size)
    ensures itr.zh.size <= old(itr.zh.size)
  {
    hide Reachable, Occupied, HasKey, Represents, KeysDistinct, GoodKeys, Settled, Steady, RunOnly, IsPow2, Walk;
    var zh := itr.zh;
    ghost var es, m, p := zh.entries[..], zh.contents, itr.lastEntry;
    assert forall i | 0 <= i < |es| :: es[i] == zh.entries[i];
    met := met0 + [pair];
    if drop(pair.0, pair.1) {
      itr.Remove();
      ghost var e: nat :| RunOnly(es, zh.entries[..], p, e);
      WalkDrops(zh.hash, zh.eq, m0, es0, m, es, zh.entries[..], drop, met0, last0, p, pair, e);
    } else {
      WalkKeeps(zh.hash, zh.eq, m0, es0, m, es, drop, met0, last0, p, pair);
    }
    last := itr.lastEntry;
  }

  lemma {:induction false} FilteringPart<K, V>(m0: map<K, V>, m: map<K, V>, es: seq<Slot<K, V>>, drop: (K, V) -> bool,
                                               last: int)
    requires Filtering(m0, m, es, drop, last)
    ensures forall k | k in m :: k in m0 && m[k] == m0[k]
  {}

  lemma {:induction false} AllMet<K, V>(m0: map<K, V>, m: map<K, V>, es: seq<Slot<K, V>>, met: seq<(K, V)>)
    requires MetAll(m0, m, es, met, |es| - 1) && Represents(es, m) && forall k | k in m :: k in m0 && m[k] == m0[k]
    ensures forall q :: q in met <==> q.0 in m0 && m0[q.0] == q.1
  {
    forall k | k in m0 ensures (k, m0[k]) in met {
      if k in m {
        assert Holds(es, k, m[k]);
        var i :| 0 <= i < |es| && es[i] == Full(k, m[k]);
        assert (es[i].key, es[i].val) in met;
      }
    }
  }

  lemma {:induction false} FilterStart<K, V>(m0: map<K, V>, es: seq<Slot<K, V>>, drop: (K, V) -> bool)
    ensures Filtering(m0, m0, es, drop, -1)
  {}

  lemma {:induction false} FilterEnd<K, V>(m0: map<K, V>, m: map<K, V>, es: seq<Slot<K, V>>, drop: (K, V) -> bool,
                                           last: int, next: int)
    requires Filtering(m0, m, es, drop, last) && forall i | last < i <= next && 0 <= i < |es| :: es[i].Empty?
    ensures Filtering(m0, m, es, drop, next)
  {}

  /** Eight slots, the identity as hash function; 7 goes to slot 7 and 15, with the same home, to slot 0. Iterating
      over this table and removing 7 returns 15 twice. */
  method WrappedPairTwice() returns (met: seq<(nat, bool)>)
    ensures (forall q :: q in met <==> q == (7, false) || q == (15, true)) && !NoDuplicates(met)
  {
    hide Reachable, Occupied, HasKey, KeysDistinct, IsPow2, NoDuplicates, ComesTwice, Represents, Kept, Flat;
    var hash, eq := (k: nat) => k, (k: nat, l: nat) => k == l;
    var zh := SevenAndFifteen(hash, eq);
    hide GoodKeys;
    met := RemoveWhere(zh, (k, v) => k == 7);
  }

  method SevenAndFifteen(hash: nat -> nat, eq: (nat, nat) -> bool) returns (zh: ZHash<nat, bool>)
    requires GoodKeys(hash, eq) && (forall k :: hash(k) == k) && (forall k, l :: eq(k, l) == (k == l))
    ensures fresh(zh) && zh.Valid() && fresh(zh.entries) && zh.hash == hash
    ensures zh.contents == map[7 := false, 15 := true]
    ensures ComesTwice(hash, zh.contents, zh.entries[..], (k, v) => k == 7)
  {
    hide Reachable, Occupied, HasKey, KeysDistinct, IsPow2, StoredAtStop, Updated, Flat, DropsLast, Represents,
      GoodKeys;
    zh := new ZHash<nat, bool>(hash, eq, 2);
    ghost var es0 := zh.entries[..];
    var old1 := zh.Put(7, false);
    OnePair(eq, 7, false);
    ghost var es1 := zh.entries[..];
    var old2 := zh.Put(15, true);
    WrappedTable(hash, eq, es0, es1, zh.entries[..], zh.contents);
    DropsLastTwice(hash, eq, zh.contents, zh.entries[..], (k, v) => k == 7);
  }

  lemma {:induction false} OnePair<K, V>(eq: (K, K) -> bool, k: K, v: V)
    ensures Updated(eq, map[], k, v) == map[k := v] && |Updated(eq, map[], k, v)| == 1
  {
    assert Without<K, V>(eq, map[], k) == map[];
  }

  lemma {:induction false} WrappedTable(hash: nat -> nat, eq: (nat, nat) -> bool, es0: seq<Slot<nat, bool>>,
                                        es1: seq<Slot<nat, bool>>, es2: seq<Slot<nat, bool>>, m: map<nat, bool>)
    requires (forall k :: hash(k) == k) && (forall k, l :: eq(k, l) == (k == l))
    requires |es0| == 8 && Represents(es0, map[]) && StoredAtStop(hash, eq, es0, es1, 7, false)
    requires StoredAtStop(hash, eq, es1, es2, 15, true)
    requires m == Updated(eq, Updated(eq, map[], 7, false), 15, true)
    ensures m == map[7 := false, 15 := true] && es2[7] == Full(7, false) && es2[0] == Full(15, true)
    ensures !Flat(hash, es2) && DropsLast(es2, m, (k, v) => k == 7)
  {
    hide StoredAtStop, StopsAt;
    assert forall i | 0 <= i < 8 :: es0[i].Empty?;
    StoredAtHome(hash, eq, es0, es1, 7, false);
    StoredAfterHome(hash, eq, es1, es2, 15, true);
  }

  lemma {:induction false} StoredAtHome<K, V>(hash: K -> nat, eq: (K, K) -> bool, es: seq<Slot<K, V>>,
                                              es': seq<Slot<K, V>>, k: K, v: V)
    requires |es| > 0 && StoredAtStop(hash, eq, es, es', k, v) && es[Home(hash, |es|, k)].Empty?
    ensures es' == es[Home(hash, |es|, k) := Full(k, v)]
  {
    var n, h := |es|, Home(hash, |es|, k);
    var s: nat :| StopsAt(hash, eq, es, k, s) && es' == es[s := Full(k, v)];
    assert Dist(n, h, h) < Dist(n, h, s) ==> h in Occupied(es);
  }

  lemma {:induction false} StoredAfterHome<K, V>(hash: K -> nat, eq: (K, K) -> bool, es: seq<Slot<K, V>>,
                                                 es': seq<Slot<K, V>>, k: K, v: V)
    requires |es| > 1 && StoredAtStop(hash, eq, es, es', k, v)
    requires var h := Home(hash, |es|, k); es[h].Full? && !eq(k, es[h].key) && es[NextSlot(|es|, h)].Empty?
    ensures es' == es[NextSlot(|es|, Home(hash, |es|, k)) := Full(k, v)]
  {
    var n, h := |es|, Home(hash, |es|, k);
    var c := NextSlot(n, h);
    var s: nat :| StopsAt(hash, eq, es, k, s) && es' == es[s := Full(k, v)];
    assert s != h;
    assert Dist(n, h, c) < Dist(n, h, s) ==> c in Occupied(es);
  }
}
