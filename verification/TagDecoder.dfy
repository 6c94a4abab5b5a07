/** The decode table of a tag family: every word within a few bit errors of a family code, in an
    open-addressing table (`quick_decode_*`, Robot/apriltags/apriltag.c). */
module TagDecoder {
  import opened Arithmetic
  import opened FiniteSets
  import opened Bits
  import opened Probing
  import opened TagCode

  datatype Entry = Entry(rcode: nat, id: nat, hamming: nat, rotation: nat)

  /** The code that marks a free slot: all 64 bits set. */
  function Marker(): nat {
    Pow2(64) - 1
  }

  // ---------------------------------------------------------------------------------------
  // The table and the set of entries added to it

  ghost function Occupied(es: seq<Entry>): set<nat> {
    set i | i in Below(|es|) && es[i].rcode != Marker()
  }

  ghost predicate Reachable(es: seq<Entry>) {
    forall i: nat | i < |es| && es[i].rcode != Marker() :: PathFull(Occupied(es), |es|, es[i].rcode % |es|, i)
  }

  ghost predicate Holds(es: seq<Entry>, added: set<Entry>) {
    && (forall i | 0 <= i < |es| && es[i].rcode != Marker() :: es[i] in added)
    && (forall e | e in added :: e.rcode != Marker() && e in es)
  }

  ghost predicate TableOk(es: seq<Entry>, added: set<Entry>) {
    |es| > 0 && Reachable(es) && Holds(es, added) && |Occupied(es)| < |es|
  }

  /** p is the first free slot from the home of code on. */
  ghost predicate FreeStop(es: seq<Entry>, code: nat, p: nat) {
    p < |es| && es[p].rcode == Marker() && PathFull(Occupied(es), |es|, code % |es|, p)
  }

  lemma {:induction false} StoreOccupied(es: seq<Entry>, p: nat, e: Entry)
    requires p < |es| && es[p].rcode == Marker() && e.rcode != Marker()
    ensures Occupied(es[p := e]) == Occupied(es) + {p} && |Occupied(es[p := e])| == |Occupied(es)| + 1
  {
    hide Marker;
    assert Occupied(es[p := e]) == Occupied(es) + {p};
  }

  lemma {:induction false} StoreKeepsReachable(es: seq<Entry>, p: nat, e: Entry)
    requires FreeStop(es, e.rcode, p) && Reachable(es) && e.rcode != Marker()
    ensures Reachable(es[p := e])
  {
    hide Marker;
    var f := es[p := e];
    StoreOccupied(es, p, e);
    forall i: nat | i < |f| && f[i].rcode != Marker() ensures PathFull(Occupied(f), |f|, f[i].rcode % |f|, i) {
      PathFullGrows(Occupied(es), Occupied(f), |f|, f[i].rcode % |f|, i);
    }
  }

  lemma {:induction false} StoreHolds(es: seq<Entry>, added: set<Entry>, p: nat, e: Entry)
    requires p < |es| && es[p].rcode == Marker() && Holds(es, added) && e.rcode != Marker()
    ensures Holds(es[p := e], added + {e})
  {
    hide Marker;
    var f := es[p := e];
    forall x | x in added + {e} ensures x in f {
      if x == e {
        assert f[p] == e;
      } else {
        var i :| 0 <= i < |es| && es[i] == x;
        assert f[i] == x;
      }
    }
  }

  /** The entry, unless its code is the one that marks free slots. */
  ghost function Storable(e: Entry): set<Entry> {
    if e.rcode == Marker() then {} else {e}
  }

  /** An entry with the marker leaves the slot free. */
  lemma {:induction false} StoreMarker(es: seq<Entry>, added: set<Entry>, p: nat, e: Entry)
    requires p < |es| && es[p].rcode == Marker() == e.rcode && TableOk(es, added)
    ensures TableOk(es[p := e], added) && Occupied(es[p := e]) == Occupied(es)
  {
    hide Marker;
    var f := es[p := e];
    assert Occupied(f) == Occupied(es);
    forall x | x in added ensures x in f {
      var i :| 0 <= i < |es| && es[i] == x;
      assert f[i] == x;
    }
  }

  /** A probe for a code stops at the first slot that holds it or is free. */
  ghost predicate LookupStop(es: seq<Entry>, code: nat, p: nat) {
    && p < |es| && (es[p].rcode == Marker() || es[p].rcode == code)
    && (forall q: nat | q < |es| && Dist(|es|, code % |es|, q) < Dist(|es|, code % |es|, p) ::
          es[q].rcode != Marker() && es[q].rcode != code)
  }

  /** Lookup is exact: it finds an entry exactly if one with that code was added. */
  lemma {:induction false} LookupExact(es: seq<Entry>, added: set<Entry>, code: nat, p: nat)
    requires TableOk(es, added) && LookupStop(es, code, p) && code != Marker()
    ensures es[p].rcode == code ==> es[p] in added
    ensures es[p].rcode != code ==> forall e | e in added :: e.rcode != code
  {
    hide Marker;
    if es[p].rcode != code {
      forall e | e in added ensures e.rcode != code {
        var i :| 0 <= i < |es| && es[i] == e;
        assert e.rcode == code ==> PathFull(Occupied(es), |es|, code % |es|, i);
        assert p !in Occupied(es);
        var dp, di := Dist(|es|, code % |es|, p), Dist(|es|, code % |es|, i);
        assert e.rcode != code || dp >= di;
        assert e.rcode != code || di >= dp;
      }
    }
  }

  // ---------------------------------------------------------------------------------------
  // The words within t bits of the family codes

  ghost predicate InBall(codes: seq<nat>, nbits: nat, t: nat, e: Entry) {
    && e.id < |codes| && e.rcode < Pow2(nbits) && e.rotation == 0
    && e.hamming == Hamming(e.rcode, codes[e.id], nbits) <= t
  }

  ghost predicate IsFamily(codes: seq<nat>, d: nat) {
    1 <= d <= 8 && 1 <= |codes| < 65535 && forall i | 0 <= i < |codes| :: codes[i] < Pow2(d * d)
  }

  /** The entries a table can hold: not those whose word is the free-slot marker. */
  ghost predicate InTable(codes: seq<nat>, nbits: nat, t: nat, e: Entry) {
    InBall(codes, nbits, t, e) && e.rcode != Marker()
  }

  /** The free-slot marker is not within t bits of a code. */
  ghost predicate MarkerFar(codes: seq<nat>, nbits: nat, t: nat) {
    forall i | 0 <= i < |codes| :: Marker() < Pow2(nbits) ==> Hamming(Marker(), codes[i], nbits) > t
  }

  /** Up to d = 7 no word of d * d bits is the marker. */
  lemma {:induction false} MarkerFarSmall(codes: seq<nat>, d: nat, t: nat)
    requires d <= 7
    ensures MarkerFar(codes, d * d, t)
  {
    hide Marker;
    MarkerBig(d);
  }

  function Flipped1(code: nat, id: nat, j: nat): Entry {
    Entry(Flip(code, j), id, 1, 0)
  }

  function Flipped2(code: nat, id: nat, j: nat, k: nat): Entry {
    Entry(Flip(Flip(code, j), k), id, 2, 0)
  }

  function Flipped3(code: nat, id: nat, j: nat, k: nat, m: nat): Entry {
    Entry(Flip(Flip(Flip(code, j), k), m), id, 3, 0)
  }

  /** The entries that initialisation adds for one code. */
  ghost predicate AddedFor(code: nat, id: nat, nbits: nat, t: nat, e: Entry) {
    || e == Entry(code, id, 0, 0)
    || (t >= 1 && exists j: nat :: j < nbits && e == Flipped1(code, id, j))
    || (t >= 2 && exists j: nat, k: nat :: k < j < nbits && e == Flipped2(code, id, j, k))
    || (t >= 3 && exists j: nat, k: nat, m: nat :: m < k < j < nbits && e == Flipped3(code, id, j, k, m))
  }

  lemma {:induction false} Flip1Facts(code: nat, n: nat, j: nat)
    requires code < Pow2(n) && j < n
    ensures Flip(code, j) < Pow2(n) && Diff(Flip(code, j), code, n) == {j}
  {
    FlipStaysSmall(code, j, n);
    FlipDiff(code, code, j, n);
    assert Diff(code, code, n) == {};
  }

  lemma {:induction false} Flip2Facts(code: nat, n: nat, j: nat, k: nat)
    requires code < Pow2(n) && k < j < n
    ensures Flip(Flip(code, j), k) < Pow2(n) && Diff(Flip(Flip(code, j), k), code, n) == {j, k}
  {
    Flip1Facts(code, n, j);
    FlipStaysSmall(Flip(code, j), k, n);
    FlipDiff(Flip(code, j), code, k, n);
  }

  lemma {:induction false} Flip3Facts(code: nat, n: nat, j: nat, k: nat, m: nat)
    requires code < Pow2(n) && m < k < j < n
    ensures Flip(Flip(Flip(code, j), k), m) < Pow2(n) && Diff(Flip(Flip(Flip(code, j), k), m), code, n) == {j, k, m}
  {
    Flip2Facts(code, n, j, k);
    FlipStaysSmall(Flip(Flip(code, j), k), m, n);
    FlipDiff(Flip(Flip(code, j), k), code, m, n);
  }

  lemma {:induction false} SameDiff(v: nat, w: nat, code: nat, n: nat)
    requires v < Pow2(n) && w < Pow2(n) && Diff(v, code, n) == Diff(w, code, n)
    ensures v == w
  {
    forall b: nat | b < n ensures Bit(v, b) == Bit(w, b) {
      assert b in Diff(v, code, n) <==> b in Diff(w, code, n);
    }
    SameBits(v, w, n);
  }

  /** The three nested flip loops enumerate the ball: an entry is added for a code exactly if its
      word lies within t bits and its recorded distance is the true one. */
  lemma {:induction false} AddedIsBall(code: nat, id: nat, nbits: nat, t: nat, e: Entry)
    requires code < Pow2(nbits) && t <= 3
    ensures AddedFor(code, id, nbits, t, e) <==>
      e.id == id && e.rcode < Pow2(nbits) && e.rotation == 0 && e.hamming == Hamming(e.rcode, code, nbits) <= t
  {
    if AddedFor(code, id, nbits, t, e) {
      AddedInBall(code, id, nbits, t, e);
    }
    if e.id == id && e.rcode < Pow2(nbits) && e.rotation == 0 && e.hamming == Hamming(e.rcode, code, nbits) <= t {
      BallIsAdded(code, id, nbits, t, e);
    }
  }

  lemma {:induction false} AddedInBall(code: nat, id: nat, nbits: nat, t: nat, e: Entry)
    requires code < Pow2(nbits) && AddedFor(code, id, nbits, t, e)
    ensures e.id == id && e.rcode < Pow2(nbits) && e.rotation == 0 && e.hamming == Hamming(e.rcode, code, nbits) <= t
  {
    if e == Entry(code, id, 0, 0) {
      assert Diff(code, code, nbits) == {};
    } else if t >= 1 && exists j: nat :: j < nbits && e == Flipped1(code, id, j) {
      var j: nat :| j < nbits && e == Flipped1(code, id, j);
      Flip1Facts(code, nbits, j);
    } else if t >= 2 && exists j: nat, k: nat :: k < j < nbits && e == Flipped2(code, id, j, k) {
      var j: nat, k: nat :| k < j < nbits && e == Flipped2(code, id, j, k);
      Flip2Facts(code, nbits, j, k);
    } else {
      var j: nat, k: nat, m: nat :| m < k < j < nbits && e == Flipped3(code, id, j, k, m);
      Flip3Facts(code, nbits, j, k, m);
    }
  }

  lemma {:induction false} Largest(s: set<nat>) returns (x: nat)
    requires s != {}
    ensures x in s && forall y | y in s :: y <= x
    decreases |s|
  {
    x :| x in s;
    var x0 := x;
    if s - {x0} != {} {
      var y := Largest(s - {x0});
      x := if y > x0 then y else x0;
    }
    assert forall y | y in s :: y == x0 || y in s - {x0};
  }

  lemma {:induction false} BallIsAdded(code: nat, id: nat, nbits: nat, t: nat, e: Entry)
    requires code < Pow2(nbits) && t <= 3
    requires e.id == id && e.rcode < Pow2(nbits) && e.rotation == 0 && e.hamming == Hamming(e.rcode, code, nbits) <= t
    ensures AddedFor(code, id, nbits, t, e)
  {
    hide Flip, Pow2, Bit;
    var s := Diff(e.rcode, code, nbits);
    if |s| == 0 {
      HammingZero(e.rcode, code, nbits);
    } else {
      var j := Largest(s);
      var s1 := s - {j};
      assert |s1| == |s| - 1;
      if |s| == 1 {
        assert s1 == {};
        assert s == {j};
        Flip1Facts(code, nbits, j);
        SameDiff(e.rcode, Flip(code, j), code, nbits);
        assert e == Flipped1(code, id, j);
      } else {
        var k := Largest(s1);
        var s2 := s1 - {k};
        assert |s2| == |s1| - 1;
        if |s| == 2 {
          assert s2 == {};
          assert s == {j, k};
          Flip2Facts(code, nbits, j, k);
          SameDiff(e.rcode, Flip(Flip(code, j), k), code, nbits);
          assert e == Flipped2(code, id, j, k);
        } else {
          var m := Largest(s2);
          assert |s2 - {m}| == 0;
          assert s2 - {m} == {};
          assert s == {j, k, m};
          Flip3Facts(code, nbits, j, k, m);
          SameDiff(e.rcode, Flip(Flip(Flip(code, j), k), m), code, nbits);
          assert e == Flipped3(code, id, j, k, m);
        }
      }
    }
  }

  // ---------------------------------------------------------------------------------------
  // Building the table

  /** Slots for one code: the words, counted by the ordered choices of the bits that are flipped. */
  function PerCode(nbits: nat, maxhamming: nat): (n: nat)
    ensures maxhamming == 0 ==> n == 1
    ensures maxhamming == 1 ==> n == 1 + nbits
    ensures maxhamming == 2 ==> n == 1 + nbits * nbits
    ensures maxhamming >= 3 && nbits >= 2 ==> n == 1 + nbits * nbits + nbits * (nbits - 1) * (nbits - 2)
  {
    1 + (if maxhamming >= 1 then nbits else 0)
      + (if maxhamming >= 2 && nbits >= 1 then nbits * (nbits - 1) else 0)
      + (if maxhamming >= 3 && nbits >= 2 then nbits * (nbits - 1) * (nbits - 2) else 0)
  }

  class QuickDecode {
    const entries: array<Entry>
    /** Everything added so far. */
    ghost var added: set<Entry>

    ghost predicate Valid()
      reads this, entries
    {
      TableOk(entries[..], added)
    }

    ghost function Used(): nat
      reads this, entries
    {
      |Occupied(entries[..])|
    }

    constructor (n: nat)
      requires n > 0
      ensures Valid() && fresh(entries) && added == {} && entries.Length == n && Used() == 0
    {
      entries := new Entry[n](_ => Entry(Marker(), 0, 0, 0));
      added := {};
      new;
      EmptyTable(entries[..]);
    }

    method Add(code: nat, id: nat, hamming: nat)
      requires Valid() && Used() + 1 < entries.Length
      modifies this, entries
      ensures Valid() && added == old(added) + Storable(Entry(code, id, hamming, 0)) && Used() <= old(Used()) + 1
    {
      hide Marker, Occupied, Reachable, Holds;
      ghost var es, n := entries[..], entries.Length;
      ghost var free := FreeSlot(es);
      var bucket: nat := code % entries.Length;
      ghost var home := bucket;
      HomePath(Occupied(es), n, home);
      while entries[bucket].rcode != Marker()
        invariant bucket < entries.Length == n == |es| && es == entries[..] && home == code % n && added == old(added)
        invariant PathFull(Occupied(es), n, home, bucket)
        decreases n - Dist(n, home, bucket)
      {
        InOccupied(es, bucket);
        PathFullNext(Occupied(es), n, home, bucket, free);
        NextSlotIsMod(n, bucket);
        bucket := (bucket + 1) % entries.Length;
      }
      ghost var e := Entry(code, id, hamming, 0);
      assert es[bucket] == entries[bucket];
      if code != Marker() {
        StoreOccupied(es, bucket, e);
        StoreKeepsReachable(es, bucket, e);
        StoreHolds(es, added, bucket, e);
      } else {
        StoreMarker(es, added, bucket, e);
      }
      entries[bucket] := Entry(code, id, hamming, 0);
      added := added + Storable(e);
      assert entries[..] == es[bucket := e];
    }

    /** Walks the probe sequence of rcode. */
    method Find(rcode: nat) returns (bucket: nat)
      requires Valid()
      ensures bucket < entries.Length && LookupStop(entries[..], rcode, bucket)
    {
      hide Marker, Occupied, Reachable, Holds;
      ghost var es, n := entries[..], entries.Length;
      ghost var free := FreeSlot(es);
      bucket := rcode % entries.Length;
      ghost var home := bucket;
      HomePath(Occupied(es), n, home);
      while entries[bucket].rcode != Marker()
        invariant bucket < n == |es| && es == entries[..] && home == rcode % n
        invariant PathFull(Occupied(es), n, home, bucket)
        invariant forall q: nat | q < n && Dist(n, home, q) < Dist(n, home, bucket) :: es[q].rcode != rcode
        decreases n - Dist(n, home, bucket)
      {
        if entries[bucket].rcode == rcode {
          break;
        }
        InOccupied(es, bucket);
        PathFullNext(Occupied(es), n, home, bucket, free);
        assert forall q: nat | q < n && Dist(n, home, q) < Dist(n, home, bucket) + 1 ::
          q == bucket || es[q].rcode != rcode;
        assert es[bucket] == entries[bucket];
        NextSlotIsMod(n, bucket);
        bucket := (bucket + 1) % entries.Length;
      }
      assert es[bucket] == entries[bucket];
      PathMeansOccupied(es, home, bucket);
    }

    /** Adds the words with one bit of code flipped. */
    method AddOneFlips(code: nat, id: nat, nbits: nat, ghost t: nat)
      requires Valid() && code < Pow2(nbits) && 1 <= t <= 3
      requires Used() + nbits < entries.Length
      modifies this, entries
      ensures Valid() && Used() <= old(Used()) + nbits
      ensures forall e :: e in added <==>
        e in old(added) || (e.rcode != Marker() && exists j: nat :: j < nbits && e == Flipped1(code, id, j))
    {
      hide Marker, Occupied, TableOk;
      var j: nat := 0;
      while j < nbits
        invariant j <= nbits && Valid() && Used() <= old(Used()) + j
        invariant forall e :: e in added <==>
          e in old(added) || (e.rcode != Marker() && exists i: nat :: i < j && e == Flipped1(code, id, i))
      {
        ghost var e := Flipped1(code, id, j);
        Add(Flip(code, j), id, 1);
        j := j + 1;
      }
    }

    /** Adds the words with bit j and a lower bit flipped. */
    method AddTwoFlipsAt(code: nat, id: nat, nbits: nat, j: nat, ghost t: nat)
      requires Valid() && code < Pow2(nbits) && 2 <= t <= 3 && j < nbits
      requires Used() + j < entries.Length
      modifies this, entries
      ensures Valid() && Used() <= old(Used()) + j
      ensures forall e :: e in added <==>
        e in old(added) || (e.rcode != Marker() && exists k: nat :: k < j && e == Flipped2(code, id, j, k))
    {
      hide Marker, Occupied, TableOk;
      var k: nat := 0;
      while k < j
        invariant k <= j && Valid() && Used() <= old(Used()) + k
        invariant forall e :: e in added <==>
          e in old(added) || (e.rcode != Marker() && exists i: nat :: i < k && e == Flipped2(code, id, j, i))
      {
        ghost var e := Flipped2(code, id, j, k);
        Add(Flip(Flip(code, j), k), id, 2);
        k := k + 1;
      }
    }

    method AddTwoFlips(code: nat, id: nat, nbits: nat, ghost t: nat)
      requires Valid() && code < Pow2(nbits) && 2 <= t <= 3 && nbits >= 1
      requires Used() + nbits * (nbits - 1) < entries.Length
      modifies this, entries
      ensures Valid() && Used() <= old(Used()) + nbits * (nbits - 1)
      ensures forall e :: e in added <==>
        e in old(added) || (e.rcode != Marker() && exists j: nat, k: nat ::
          k < j < nbits && e == Flipped2(code, id, j, k))
    {
      hide Marker, Occupied, TableOk;
      var j: nat := 0;
      while j < nbits
        invariant j <= nbits && Valid() && Used() <= old(Used()) + j * (nbits - 1)
        invariant forall e :: e in added <==>
          e in old(added) || (e.rcode != Marker() && exists i: nat, k: nat ::
            k < i < j && e == Flipped2(code, id, i, k))
      {
        MulLe(j + 1, nbits, nbits - 1);
        assert (j + 1) * (nbits - 1) == j * (nbits - 1) + (nbits - 1);
        AddTwoFlipsAt(code, id, nbits, j, t);
        j := j + 1;
      }
    }

    /** Adds the words with bits j, k and a lower bit flipped. */
    method AddThreeFlipsAt(code: nat, id: nat, nbits: nat, j: nat, k: nat, ghost t: nat)
      requires Valid() && code < Pow2(nbits) && t == 3 && k < j < nbits
      requires Used() + k < entries.Length
      modifies this, entries
      ensures Valid() && Used() <= old(Used()) + k
      ensures forall e :: e in added <==>
        e in old(added) || (e.rcode != Marker() && exists m: nat :: m < k && e == Flipped3(code, id, j, k, m))
    {
      hide Marker, Occupied, TableOk;
      var m: nat := 0;
      while m < k
        invariant m <= k && Valid() && Used() <= old(Used()) + m
        invariant forall e :: e in added <==>
          e in old(added) || (e.rcode != Marker() && exists i: nat :: i < m && e == Flipped3(code, id, j, k, i))
      {
        ghost var e := Flipped3(code, id, j, k, m);
        Add(Flip(Flip(Flip(code, j), k), m), id, 3);
        m := m + 1;
      }
    }

    method AddThreeFlipsFrom(code: nat, id: nat, nbits: nat, j: nat, ghost t: nat)
      requires Valid() && code < Pow2(nbits) && t == 3 && j < nbits && nbits >= 2
      requires Used() + (nbits - 1) * (nbits - 2) < entries.Length
      modifies this, entries
      ensures Valid() && Used() <= old(Used()) + (nbits - 1) * (nbits - 2)
      ensures forall e :: e in added <==>
        e in old(added) || (e.rcode != Marker() && exists k: nat, m: nat ::
          m < k < j && e == Flipped3(code, id, j, k, m))
    {
      hide Marker, Occupied, TableOk;
      var k: nat := 0;
      while k < j
        invariant k <= j && Valid() && Used() <= old(Used()) + k * (nbits - 2)
        invariant forall e :: e in added <==>
          e in old(added) || (e.rcode != Marker() && exists i: nat, m: nat ::
            m < i < k && e == Flipped3(code, id, j, i, m))
      {
        MulLe(k + 1, nbits - 1, nbits - 2);
        assert (k + 1) * (nbits - 2) == k * (nbits - 2) + (nbits - 2);
        AddThreeFlipsAt(code, id, nbits, j, k, t);
        k := k + 1;
      }
      MulLe(j, nbits - 1, nbits - 2);
    }

    method AddThreeFlips(code: nat, id: nat, nbits: nat, ghost t: nat)
      requires Valid() && code < Pow2(nbits) && t == 3
      requires nbits >= 2 ==> Used() + nbits * (nbits - 1) * (nbits - 2) < entries.Length
      requires nbits >= 1
      modifies this, entries
      ensures Valid() && Used() <= old(Used()) + if nbits >= 2 then nbits * (nbits - 1) * (nbits - 2) else 0
      ensures forall e :: e in added <==>
        e in old(added) || (e.rcode != Marker() && exists j: nat, k: nat, m: nat ::
          m < k < j < nbits && e == Flipped3(code, id, j, k, m))
    {
      hide Marker, Occupied, TableOk;
      if nbits < 2 {
        return;
      }
      var row := (nbits - 1) * (nbits - 2);
      assert nbits * (nbits - 1) * (nbits - 2) == nbits * row;
      var j: nat := 0;
      while j < nbits
        invariant j <= nbits && Valid() && Used() <= old(Used()) + j * row
        invariant forall e :: e in added <==>
          e in old(added) || (e.rcode != Marker() && exists i: nat, k: nat, m: nat ::
            m < k < i < j && e == Flipped3(code, id, i, k, m))
      {
        MulLe(j + 1, nbits, row);
        assert (j + 1) * row == j * row + row;
        AddThreeFlipsFrom(code, id, nbits, j, t);
        j := j + 1;
      }
    }

    /** Everything added for one family code. */
    method AddCode(code: nat, id: nat, nbits: nat, maxhamming: nat)
      requires Valid() && code < Pow2(nbits) && nbits >= 1
      requires Used() + PerCode(nbits, maxhamming) < entries.Length
      modifies this, entries
      ensures Valid() && Used() <= old(Used()) + PerCode(nbits, maxhamming)
      ensures forall e :: e in added <==>
        || e in old(added)
        || (e.rcode != Marker() && AddedFor(code, id, nbits, if maxhamming < 3 then maxhamming else 3, e))
    {
      hide Marker, Occupied, TableOk;
      ghost var t := if maxhamming < 3 then maxhamming else 3;
      PerCodeParts(nbits, maxhamming);
      Add(code, id, 0);
      if maxhamming >= 1 {
        AddOneFlips(code, id, nbits, t);
      }
      if maxhamming >= 2 {
        AddTwoFlips(code, id, nbits, t);
      }
      if maxhamming >= 3 {
        AddThreeFlips(code, id, nbits, t);
      }
    }
  }

  lemma {:induction false} PerCodeParts(nbits: nat, maxhamming: nat)
    requires nbits >= 1
    ensures nbits >= 2 ==> nbits * (nbits - 1) * (nbits - 2) >= 0
    ensures nbits * (nbits - 1) >= 0 && (nbits == 1 ==> nbits * (nbits - 1) == 0)
  {}

  lemma {:induction false} EmptyTable(es: seq<Entry>)
    requires |es| > 0 && forall i | 0 <= i < |es| :: es[i].rcode == Marker()
    ensures TableOk(es, {}) && |Occupied(es)| == 0
  {
    assert Occupied(es) == {};
  }

  lemma {:induction false} FreeSlot(es: seq<Entry>) returns (free: nat)
    requires |Occupied(es)| < |es|
    ensures free < |es| && free !in Occupied(es)
  {
    free := MissesOne(Occupied(es), |es|);
  }

  lemma {:induction false} HomePath(occ: set<nat>, n: nat, h: nat)
    requires h < n
    ensures PathFull(occ, n, h, h)
  {}

  lemma {:induction false} InOccupied(es: seq<Entry>, i: nat)
    requires i < |es| && es[i].rcode != Marker()
    ensures i in Occupied(es)
  {}

  lemma {:induction false} PathMeansOccupied(es: seq<Entry>, h: nat, p: nat)
    requires h < |es| && p < |es| && PathFull(Occupied(es), |es|, h, p)
    ensures forall q: nat | q < |es| && Dist(|es|, h, q) < Dist(|es|, h, p) :: es[q].rcode != Marker()
  {}

  /** The table of a family: all words within maxhamming bits of a code but the free-slot marker, and nothing else. More
      than three errors are not supported; the table is then the one for three. */
  method QuickDecodeInit(codes: seq<nat>, d: nat, maxhamming: nat) returns (qd: QuickDecode)
    requires IsFamily(codes, d)
    requires 3 * (|codes| * PerCode(d * d, maxhamming)) < 0x8000_0000
    ensures qd.Valid() && fresh(qd) && fresh(qd.entries)
    ensures qd.entries.Length == 3 * (|codes| * PerCode(d * d, maxhamming))
    ensures maxhamming <= 3 ==> forall e :: e in qd.added <==> InTable(codes, d * d, maxhamming, e)
    ensures maxhamming > 3 ==> forall e :: e in qd.added <==> InTable(codes, d * d, 3, e)
    ensures forall e: Entry | e.rcode != Marker() :: e in qd.entries[..] <==> e in qd.added
  {
    hide Marker, Occupied, TableOk, AddedFor, PerCode;
    var nbits := d * d;
    ghost var t := if maxhamming < 3 then maxhamming else 3;
    var per := PerCode(nbits, maxhamming);
    PerCodePositive(nbits, maxhamming);
    var capacity := |codes| * per;
    MulLe(1, |codes|, per);
    qd := new QuickDecode(capacity * 3);
    var i: nat := 0;
    while i < |codes|
      invariant i <= |codes| && qd.Valid() && fresh(qd) && fresh(qd.entries) && qd.entries.Length == capacity * 3
      invariant qd.Used() <= i * per
      invariant forall e :: e in qd.added <==>
        e.rcode != Marker() && exists k: nat :: k < i && AddedFor(codes[k], k, nbits, t, e)
    {
      MulLe(i + 1, |codes|, per);
      assert (i + 1) * per == i * per + per;
      qd.AddCode(codes[i], i, nbits, maxhamming);
      i := i + 1;
    }
    TableHolds(qd.entries[..], qd.added);
    forall e ensures e in qd.added <==> InTable(codes, nbits, t, e) {
      forall k: nat | k < |codes|
        ensures AddedFor(codes[k], k, nbits, t, e) <==>
          e.id == k && InBall(codes, nbits, t, e)
      {
        AddedIsBall(codes[k], k, nbits, t, e);
      }
      if InBall(codes, nbits, t, e) {
        assert AddedFor(codes[e.id], e.id, nbits, t, e);
      }
    }
  }

  lemma {:induction false} TableHolds(es: seq<Entry>, added: set<Entry>)
    requires TableOk(es, added)
    ensures forall e: Entry | e.rcode != Marker() :: e in es <==> e in added
  {
    hide Marker, Reachable, Occupied;
  }

  lemma {:induction false} PerCodePositive(nbits: nat, maxhamming: nat)
    ensures PerCode(nbits, maxhamming) >= 1
  {}

  // ---------------------------------------------------------------------------------------
  // Decoding

  /** rcode lies within t bits of a family code. */
  ghost predicate Near(codes: seq<nat>, nbits: nat, t: nat, rcode: nat) {
    exists i :: 0 <= i < |codes| && Hamming(rcode, codes[i], nbits) <= t
  }

  /** What a table can find: a word near a code that is not the free-slot marker. */
  ghost predicate Found(codes: seq<nat>, nbits: nat, t: nat, rcode: nat) {
    Near(codes, nbits, t, rcode) && rcode != Marker()
  }

  /** Every word near a code can be found exactly if the marker is far from all codes. */
  lemma {:induction false} AllFoundIffMarkerFar(codes: seq<nat>, nbits: nat, t: nat)
    ensures (forall w: nat | w < Pow2(nbits) && Near(codes, nbits, t, w) :: Found(codes, nbits, t, w))
      <==> MarkerFar(codes, nbits, t)
  {
    hide Marker, Pow2, Hamming;
    if i :| 0 <= i < |codes| && Marker() < Pow2(nbits) && Hamming(Marker(), codes[i], nbits) <= t {
      assert Near(codes, nbits, t, Marker()) && !Found(codes, nbits, t, Marker());
    }
  }

  /** The answer for a word: the first of its turns that can be found, and the entry for it. */
  ghost predicate IsAnswer(codes: seq<nat>, d: nat, t: nat, rcode: nat, e: Entry) {
    if exists r :: 0 <= r < 4 && Found(codes, d * d, t, Turns(rcode, d, r)) then
      && e.rotation < 4 && e.rcode == Turns(rcode, d, e.rotation)
      && InTable(codes, d * d, t, e.(rotation := 0))
      && forall r | 0 <= r < e.rotation :: !Found(codes, d * d, t, Turns(rcode, d, r))
    else e == Entry(0, 65535, 255, 0)
  }

  /** One probe finds a word exactly if it is near a code and not the marker. */
  lemma {:induction false} ProbeFindsNear(es: seq<Entry>, added: set<Entry>, codes: seq<nat>, nbits: nat, t: nat,
                                          rcode: nat, p: nat)
    requires TableOk(es, added) && forall e :: e in added <==> InTable(codes, nbits, t, e)
    requires LookupStop(es, rcode, p) && rcode < Pow2(nbits)
    ensures es[p].rcode != Marker() <==> Found(codes, nbits, t, rcode)
    ensures es[p].rcode != Marker() ==> es[p].rcode == rcode && InTable(codes, nbits, t, es[p])
  {
    hide Marker, Hamming, TableOk;
    if rcode != Marker() {
      LookupExact(es, added, rcode, p);
      if Near(codes, nbits, t, rcode) {
        var i :| 0 <= i < |codes| && Hamming(rcode, codes[i], nbits) <= t;
        assert InTable(codes, nbits, t, Entry(rcode, i, Hamming(rcode, codes[i], nbits), 0));
      }
    }
  }

  /** Tries the four turns of rcode in the table. */
  method QuickDecodeCodeword(qd: QuickDecode, ghost codes: seq<nat>, d: nat, ghost t: nat, rcode0: nat)
    returns (entry: Entry)
    requires qd.Valid() && 1 <= d <= 8 && rcode0 < Pow2(d * d)
    requires forall e :: e in qd.added <==> InTable(codes, d * d, t, e)
    ensures IsAnswer(codes, d, t, rcode0, entry)
    ensures t < 255 ==>
      (entry.hamming < 255 <==> exists r :: 0 <= r < 4 && Found(codes, d * d, t, Turns(rcode0, d, r)))
    ensures entry.hamming <= t || (entry.hamming == 255 && entry.id == 65535)
  {
    entry := FirstTurnFound(qd, codes, d, t, rcode0);
    AnswerTells(codes, d, t, rcode0, entry);
  }

  /** A failed lookup is told from an answer by its distance. */
  lemma {:induction false} AnswerTells(codes: seq<nat>, d: nat, t: nat, rcode: nat, e: Entry)
    requires IsAnswer(codes, d, t, rcode, e)
    ensures t < 255 ==>
      (e.hamming < 255 <==> exists r :: 0 <= r < 4 && Found(codes, d * d, t, Turns(rcode, d, r)))
    ensures e.hamming <= t || (e.hamming == 255 && e.id == 65535)
  {
    hide Found, Hamming, Turns, Pow2, Marker;
    if r :| 0 <= r < 4 && Found(codes, d * d, t, Turns(rcode, d, r)) {
      AnswerIsNear(codes, d, t, rcode, e, r);
    }
  }

  /** The loop over the turns. */
  method FirstTurnFound(qd: QuickDecode, ghost codes: seq<nat>, d: nat, ghost t: nat, rcode0: nat)
    returns (entry: Entry)
    requires qd.Valid() && 1 <= d <= 8 && rcode0 < Pow2(d * d)
    requires forall e :: e in qd.added <==> InTable(codes, d * d, t, e)
    ensures IsAnswer(codes, d, t, rcode0, entry)
  {
    hide Marker, TableOk, LookupStop, InTable, Found;
    var rcode := rcode0;
    var ridx: nat := 0;
    while ridx < 4
      invariant ridx <= 4 && rcode == Turns(rcode0, d, ridx) && rcode < Pow2(d * d)
      invariant forall r | 0 <= r < ridx :: !Found(codes, d * d, t, Turns(rcode0, d, r))
    {
      var bucket := qd.Find(rcode);
      ProbeFindsNear(qd.entries[..], qd.added, codes, d * d, t, rcode, bucket);
      assert qd.entries[bucket] == qd.entries[..][bucket];
      if qd.entries[bucket].rcode != Marker() {
        entry := qd.entries[bucket].(rotation := ridx);
        BallShape(codes, d * d, t, qd.entries[bucket]);
        assert entry.(rotation := 0) == qd.entries[bucket];
        return;
      }
      rcode := Rotate90(rcode, d);
      ridx := ridx + 1;
    }
    entry := Entry(0, 65535, 255, 0);
  }

  lemma {:induction false} SmallSquare(d: nat)
    requires d <= 8
    ensures d * d <= 64
  {
    MulLe(d, 8, d);
  }

  lemma {:induction false} BallShape(codes: seq<nat>, nbits: nat, t: nat, e: Entry)
    requires InTable(codes, nbits, t, e)
    ensures e.rotation == 0 && e.hamming <= t
  {}

  // ---------------------------------------------------------------------------------------
  // Error correction

  ghost predicate Separated(codes: seq<nat>, nbits: nat, t: nat) {
    forall i, j | 0 <= i < |codes| && 0 <= j < |codes| && i != j :: Hamming(codes[i], codes[j], nbits) > 2 * t
  }

  /** With codes more than 2t bits apart, the code near a word is unique. */
  lemma {:induction false} NearUnique(codes: seq<nat>, nbits: nat, t: nat, w: nat, i: nat, j: nat)
    requires Separated(codes, nbits, t) && i < |codes| && j < |codes|
    requires Hamming(w, codes[i], nbits) <= t && Hamming(w, codes[j], nbits) <= t
    ensures i == j
  {
    HammingSym(w, codes[i], nbits);
    HammingTriangle(codes[i], w, codes[j], nbits);
  }

  /** The codes are also far from every proper turn of each other and of themselves. */
  ghost predicate SeparatedTurns(codes: seq<nat>, d: nat, t: nat) {
    forall i, j, m: nat {:trigger codes[i], Turns(codes[j], d, m)} |
      0 <= i < |codes| && 0 <= j < |codes| && m < 4 && (i != j || m != 0) ::
      Hamming(Turns(codes[j], d, m), codes[i], d * d) > 2 * t
  }

  lemma {:induction false} TurnNearOnlyOwn(codes: seq<nat>, d: nat, t: nat, w: nat, id: nat, k: nat, r: nat, j: nat)
    requires IsFamily(codes, d) && SeparatedTurns(codes, d, t) && id < |codes| && j < |codes| && k < 4 && r < 4
    requires w < Pow2(d * d) && Hamming(w, Turns(codes[id], d, k), d * d) <= t
    requires Hamming(Turns(w, d, r), codes[j], d * d) <= t
    ensures j == id && (k + r) % 4 == 0
  {
    hide Hamming, Turns, Pow2;
    var n, v := d * d, Turns(codes[id], d, k);
    TurnsSmall(codes[id], d, k);
    TurnsKeepDistance(w, v, d, r);
    TurnsAdd(codes[id], d, k, r);
    HammingSym(Turns(w, d, r), Turns(v, d, r), n);
    HammingTriangle(Turns(v, d, r), Turns(w, d, r), codes[j], n);
    if k + r >= 4 {
      TurnsAdd(codes[id], d, 4, k + r - 4);
      FourTurns(codes[id], d);
    }
    var m := if k + r >= 4 then k + r - 4 else k + r;
    assert Turns(v, d, r) == Turns(codes[id], d, m);
    assert codes[j] == codes[j];
  }

  lemma {:induction false} OwnTurnIsNear(codes: seq<nat>, d: nat, t: nat, w: nat, id: nat, k: nat)
    requires IsFamily(codes, d) && id < |codes| && k < 4 && w < Pow2(d * d)
    requires Hamming(w, Turns(codes[id], d, k), d * d) <= t
    ensures Hamming(Turns(w, d, (4 - k) % 4), codes[id], d * d) == Hamming(w, Turns(codes[id], d, k), d * d)
  {
    hide Hamming, Turns, Pow2;
    var r := (4 - k) % 4;
    TurnsSmall(codes[id], d, k);
    TurnsKeepDistance(w, Turns(codes[id], d, k), d, r);
    TurnsAdd(codes[id], d, k, r);
    FourTurns(codes[id], d);
    assert k + r == 0 || k + r == 4;
    NoTurns(codes[id], d);
  }

  lemma {:induction false} NoTurns(w: nat, d: nat)
    ensures Turns(w, d, 0) == w
  {}

  /** An answer exists when some turn can be found, and names a code near its own turn. */
  lemma {:induction false} AnswerIsNear(codes: seq<nat>, d: nat, t: nat, w: nat, e: Entry, r: nat)
    requires IsAnswer(codes, d, t, w, e) && r < 4 && Found(codes, d * d, t, Turns(w, d, r))
    ensures e.rotation < 4 && e.id < |codes| && e.hamming <= t
    ensures e.hamming == Hamming(Turns(w, d, e.rotation), codes[e.id], d * d)
  {
    hide Found, Hamming, Turns, Pow2, Marker;
    assert InTable(codes, d * d, t, e.(rotation := 0));
  }

  /** A family code turned k times with at most t bits flipped decodes to its id, the number of flipped bits, and the
      turns that are missing to four, unless it has become the free-slot marker, which never decodes. */
  lemma {:induction false} DecodesTurnedCode(codes: seq<nat>, d: nat, t: nat, w: nat, id: nat, k: nat, e: Entry)
    requires IsFamily(codes, d) && SeparatedTurns(codes, d, t) && id < |codes| && k < 4
    requires w < Pow2(d * d) && Hamming(w, Turns(codes[id], d, k), d * d) <= t
    requires IsAnswer(codes, d, t, w, e)
    ensures w != Marker() ==>
      e.id == id && e.hamming == Hamming(w, Turns(codes[id], d, k), d * d) && e.rotation == (4 - k) % 4
    ensures w == Marker() ==> e.hamming == 255 && e.id == 65535
  {
    hide Hamming, Turns, Pow2, IsAnswer, IsFamily, SeparatedTurns, Marker;
    var r := (4 - k) % 4;
    DimensionAtMostEight(codes, d);
    MarkerTurns(w, d, r);
    if w == Marker() {
      MarkerNeverDecodes(codes, d, t, e);
    } else {
      OwnTurnIsNear(codes, d, t, w, id, k);
      assert Near(codes, d * d, t, Turns(w, d, r));
      AnswerIsNear(codes, d, t, w, e, r);
      TurnNearOnlyOwn(codes, d, t, w, id, k, e.rotation, e.id);
    }
  }

  lemma {:induction false} DimensionAtMostEight(codes: seq<nat>, d: nat)
    requires IsFamily(codes, d)
    ensures 1 <= d <= 8
  {}

  lemma {:induction false} MarkerNeverDecodes(codes: seq<nat>, d: nat, t: nat, e: Entry)
    requires 1 <= d <= 8 && Marker() < Pow2(d * d) && IsAnswer(codes, d, t, Marker(), e)
    ensures e == Entry(0, 65535, 255, 0)
  {
    hide Marker, Pow2, Turns, Near;
    forall r: nat | r < 4 ensures Turns(Marker(), d, r) == Marker() {
      MarkerTurns(Marker(), d, r);
    }
  }

  /** Only the word of 64 ones turns into the marker. */
  lemma {:induction false} MarkerTurns(w: nat, d: nat, r: nat)
    requires 1 <= d <= 8 && w < Pow2(d * d) && r <= 4
    ensures Turns(w, d, r) == Marker() <==> w == Marker()
  {
    hide Marker, Pow2, Turns;
    TurnsSmall(w, d, r);
    if d < 8 {
      MarkerBig(d);
    } else {
      if w == Marker() { MarkerStays(r); }
      if Turns(w, d, r) == Marker() {
        MarkerStays(4 - r);
        TurnsAdd(w, d, r, 4 - r);
        FourTurns(w, d);
      }
    }
  }

  lemma {:induction false} MarkerBig(d: nat)
    requires d <= 7
    ensures Pow2(d * d) <= Marker()
  {
    MulLe(d, 7, d);
    MulLe(d, 7, 7);
    Pow2Grows(d * d, 63);
  }

  lemma {:induction false} MarkerStays(r: nat)
    ensures Turns(Marker(), 8, r) == Marker()
  {
    hide Marker, Pow2, Bit;
    if r > 0 {
      MarkerStays(r - 1);
      MarkerBits();
      forall b: nat | b < 64 ensures Bit(Rotated(Marker(), 8), b) == Bit(Marker(), b) {
        CellSplits(8, b);
        RotatedCell(Marker(), 8, b / 8, b % 8);
      }
      SameBits(Rotated(Marker(), 8), Marker(), 64);
    }
  }

  lemma {:induction false} MarkerBits()
    ensures Marker() < Pow2(64) && forall b: nat | b < 64 :: Bit(Marker(), b)
  {
    forall b: nat | b < 64 ensures Bit(Marker(), b) {
      OnesBit(64, b);
    }
  }

  lemma {:induction false} OnesBit(n: nat, b: nat)
    requires b < n
    ensures Bit(Pow2(n) - 1, b)
  {
    if b > 0 { OnesBit(n - 1, b - 1); }
  }

  /** A family of 64-bit codes with the all-white code: its marker is not far, and the code itself does not decode. */
  lemma {:induction false} AllWhiteLost(t: nat, e: Entry)
    requires IsAnswer([Marker()], 8, t, Marker(), e)
    ensures IsFamily([Marker()], 8) && !MarkerFar([Marker()], 64, t) && e == Entry(0, 65535, 255, 0)
  {
    hide Marker, Pow2, IsAnswer;
    MarkerBits();
    MarkerNeverDecodes([Marker()], 8, t, e);
    assert Diff(Marker(), Marker(), 64) == {};
    assert Hamming(Marker(), [Marker()][0], 64) == 0;
  }
}
