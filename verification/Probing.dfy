/** Linear probing in a circular table: the arithmetic shared by the hash table and the tag
    decoder. A table is seen as its length n and the set of its occupied slots. */
module Probing {
  import opened FiniteSets

  /** Steps from h forward to p. */
  function Dist(n: nat, h: nat, p: nat): (d: nat)
    requires h < n && p < n
    ensures d < n
  {
    if p >= h then p - h else p + n - h
  }

  function NextSlot(n: nat, i: nat): (j: nat)
    requires i < n
    ensures j < n
  {
    if i + 1 == n then 0 else i + 1
  }

  lemma {:induction false} NextSlotIsMod(n: nat, i: nat)
    requires i < n
    ensures NextSlot(n, i) == (i + 1) % n
  {}

  /** Every slot from h up to, but not including, p is occupied. */
  ghost predicate PathFull(occ: set<nat>, n: nat, h: nat, p: nat)
    requires h < n && p < n
  {
    forall q: nat | q < n && Dist(n, h, q) < Dist(n, h, p) :: q in occ
  }

  lemma {:induction false} PathFullGrows(occ: set<nat>, more: set<nat>, n: nat, h: nat, p: nat)
    requires h < n && p < n && PathFull(occ, n, h, p) && occ <= more
    ensures PathFull(more, n, h, p)
  {}

  /** One more probe step. */
  lemma {:induction false} PathFullNext(occ: set<nat>, n: nat, h: nat, p: nat, e: nat)
    requires h < n && p < n && e < n && PathFull(occ, n, h, p) && p in occ && e !in occ
    ensures PathFull(occ, n, h, NextSlot(n, p))
    ensures Dist(n, h, NextSlot(n, p)) == Dist(n, h, p) + 1 <= Dist(n, h, e)
  {
    assert Dist(n, h, e) >= Dist(n, h, p);
    assert e != p;
  }

  /** The first free slot after p. */
  lemma {:induction false} FirstFree(occ: set<nat>, n: nat, p: nat, e: nat) returns (f: nat)
    requires p < n && e < n && e != p && e !in occ
    ensures f < n && f != p && f !in occ
    ensures forall q: nat | q < n && 0 < Dist(n, p, q) < Dist(n, p, f) :: q in occ
    decreases Dist(n, p, e)
  {
    if q: nat :| q < n && 0 < Dist(n, p, q) < Dist(n, p, e) && q !in occ {
      f := FirstFree(occ, n, p, q);
    } else {
      f := e;
    }
  }

  /** A full path that leads over c to a slot beyond the free slot e would lead over e. */
  lemma {:induction false} PathAvoids(occ: set<nat>, n: nat, p: nat, c: nat, e: nat, h: nat, q: nat)
    requires p < n && c < n && e < n && h < n && q < n
    requires Dist(n, p, c) < Dist(n, p, e) && e !in occ && PathFull(occ, n, h, q)
    requires q != e && (Dist(n, p, q) < Dist(n, p, c) || Dist(n, p, q) > Dist(n, p, e))
    ensures Dist(n, h, c) >= Dist(n, h, q)
  {
    assert !(Dist(n, h, e) < Dist(n, h, q));
  }
}
