/** The array-backed binary max-heap (Robot/apriltags/common/zmaxheap.c). */
module MaxHeap {

  datatype Entry<T> = Entry(value: real, datum: T)

  const MIN_CAPACITY: nat := 16

  // ---------------------------------------------------------------------------------------
  // Heap order on sequences

  function Parent(j: nat): (p: nat)
    requires j > 0
    ensures p < j && (j == 2 * p + 1 || j == 2 * p + 2)
  {
    (j - 1) / 2
  }

  /** Every node whose parent is at position k or later is at most its parent. */
  ghost predicate OrderedFrom<T>(s: seq<Entry<T>>, k: nat) {
    forall j {:trigger Parent(j)} | 0 < j < |s| && k <= Parent(j) :: s[Parent(j)].value >= s[j].value
  }

  ghost predicate Ordered<T>(s: seq<Entry<T>>) {
    OrderedFrom(s, 0)
  }

  lemma {:induction false} RootIsMaximal<T>(s: seq<Entry<T>>, i: nat)
    requires Ordered(s) && i < |s|
    ensures s[0].value >= s[i].value
  {
    if i > 0 {
      RootIsMaximal(s, Parent(i));
    }
  }

  function Swap<T>(s: seq<Entry<T>>, i: nat, j: nat): (t: seq<Entry<T>>)
    requires i < |s| && j < |s|
    ensures |t| == |s|
  {
    s[i := s[j]][j := s[i]]
  }

  // Sifting a late entry up

  function SiftUp<T>(s: seq<Entry<T>>, i: nat): (t: seq<Entry<T>>)
    requires i < |s|
    ensures |t| == |s|
    decreases i
  {
    if i > 0 && s[Parent(i)].value < s[i].value then SiftUp(Swap(s, i, Parent(i)), Parent(i)) else s
  }

  lemma {:induction false} SiftUpMultiset<T>(s: seq<Entry<T>>, i: nat)
    requires i < |s|
    ensures multiset(SiftUp(s, i)) == multiset(s)
    decreases i
  {
    if i > 0 && s[Parent(i)].value < s[i].value {
      SiftUpMultiset(Swap(s, i, Parent(i)), Parent(i));
    }
  }

  lemma {:induction false} SiftUpUnfold<T>(s: seq<Entry<T>>, i: nat)
    requires i < |s|
    ensures SiftUp(s, i) ==
      if i > 0 && s[Parent(i)].value < s[i].value then SiftUp(Swap(s, i, Parent(i)), Parent(i)) else s
  {}

  /** In order except that i may exceed its parent. */
  ghost predicate OrderedExceptUp<T>(s: seq<Entry<T>>, i: nat) {
    && (forall j {:trigger Parent(j)} | 0 < j < |s| && j != i :: s[Parent(j)].value >= s[j].value)
    && (forall j {:trigger Parent(j)} | 0 < j < |s| && Parent(j) == i && i > 0 :: s[Parent(i)].value >= s[j].value)
  }

  lemma {:induction false} SwapUp<T>(s: seq<Entry<T>>, i: nat)
    requires 0 < i < |s| && OrderedExceptUp(s, i) && s[Parent(i)].value < s[i].value
    ensures OrderedExceptUp(Swap(s, i, Parent(i)), Parent(i))
  {
    var p := Parent(i);
    if p > 0 { assert s[Parent(p)].value >= s[p].value; }
  }

  lemma {:induction false} SiftUpRestores<T>(s: seq<Entry<T>>, i: nat)
    requires i < |s| && OrderedExceptUp(s, i)
    ensures Ordered(SiftUp(s, i))
    decreases i
  {
    if i > 0 && s[Parent(i)].value < s[i].value {
      SwapUp(s, i);
      SiftUpRestores(Swap(s, i, Parent(i)), Parent(i));
    }
  }

  // Sifting an early entry down

  function BetterChild<T>(s: seq<Entry<T>>, i: nat): (b: nat)
    requires i < |s|
    ensures b < |s| && (b == i || (b > 0 && Parent(b) == i && s[b].value > s[i].value))
    ensures 2 * i + 1 < |s| ==> s[b].value >= s[2 * i + 1].value
    ensures 2 * i + 2 < |s| ==> s[b].value >= s[2 * i + 2].value
  {
    var left, right := 2 * i + 1, 2 * i + 2;
    var b := if left < |s| && s[left].value > s[i].value then left else i;
    if right < |s| && s[right].value > s[b].value then right else b
  }

  function SiftDown<T>(s: seq<Entry<T>>, i: nat): (t: seq<Entry<T>>)
    requires i < |s|
    ensures |t| == |s|
    decreases |s| - i
  {
    var b := BetterChild(s, i);
    if b != i then SiftDown(Swap(s, i, b), b) else s
  }

  lemma {:induction false} SiftDownMultiset<T>(s: seq<Entry<T>>, i: nat)
    requires i < |s|
    ensures multiset(SiftDown(s, i)) == multiset(s)
    decreases |s| - i
  {
    var b := BetterChild(s, i);
    if b != i {
      SiftDownMultiset(Swap(s, i, b), b);
    }
  }

  lemma {:induction false} SiftDownUnfold<T>(s: seq<Entry<T>>, i: nat)
    requires i < |s|
    ensures var left, right := 2 * i + 1, 2 * i + 2;
      SiftDown(s, i) ==
        if (left >= |s| || s[i].value >= s[left].value) && (right >= |s| || s[i].value >= s[right].value) then s
        else if right >= |s| || (left < |s| && s[left].value >= s[right].value) then SiftDown(Swap(s, i, left), left)
        else SiftDown(Swap(s, i, right), right)
  {}

  /** In order from k on, except that i may be below its children. */
  ghost predicate OrderedExceptDown<T>(s: seq<Entry<T>>, k: nat, i: nat) {
    && (forall j {:trigger Parent(j)} | 0 < j < |s| && k <= Parent(j) != i :: s[Parent(j)].value >= s[j].value)
    && (forall j {:trigger Parent(j)} | 0 < j < |s| && Parent(j) == i && i > 0 && k <= Parent(i)
          :: s[Parent(i)].value >= s[j].value)
  }

  lemma {:induction false} SwapDown<T>(s: seq<Entry<T>>, k: nat, i: nat)
    requires k <= i < |s| && OrderedExceptDown(s, k, i) && BetterChild(s, i) != i
    ensures OrderedExceptDown(Swap(s, i, BetterChild(s, i)), k, BetterChild(s, i))
  {
    hide BetterChild;
    var b := BetterChild(s, i);
    var t := Swap(s, i, b);
    forall j {:trigger Parent(j)} | 0 < j < |t| && k <= Parent(j) != b ensures t[Parent(j)].value >= t[j].value {
      if Parent(j) == i {
        assert j == 2 * i + 1 || j == 2 * i + 2;
      } else if j == i {
        assert t[j] == s[b] && t[Parent(j)] == s[Parent(i)];
      }
    }
    assert forall j {:trigger Parent(j)} | 0 < j < |t| && Parent(j) == b :: s[b].value >= s[j].value;
  }

  lemma {:induction false} SiftDownRestores<T>(s: seq<Entry<T>>, k: nat, i: nat)
    requires k <= i < |s| && OrderedExceptDown(s, k, i)
    ensures OrderedFrom(SiftDown(s, i), k)
    decreases |s| - i
  {
    if BetterChild(s, i) != i {
      SwapDown(s, k, i);
      SiftDownRestores(Swap(s, i, BetterChild(s, i)), k, BetterChild(s, i));
    }
  }

  // The two operations of the priority queue

  function Added<T>(s: seq<Entry<T>>, e: Entry<T>): (t: seq<Entry<T>>)
    ensures |t| == |s| + 1
  {
    SiftUp(s + [e], |s|)
  }

  lemma {:induction false} StartSift<T>(s: seq<Entry<T>>, e: Entry<T>)
    ensures Added(s, e) == SiftUp(s + [e], |s|)
  {}

  lemma {:induction false} AddKeepsHeap<T>(s: seq<Entry<T>>, e: Entry<T>)
    requires Ordered(s)
    ensures Ordered(Added(s, e)) && multiset(Added(s, e)) == multiset(s) + multiset{e}
  {
    SiftUpMultiset(s + [e], |s|);
    SiftUpRestores(s + [e], |s|);
  }

  /** What is left after removing position idx: the last entry takes the place and sinks. */
  function Removed<T>(s: seq<Entry<T>>, idx: nat): (r: seq<Entry<T>>)
    requires idx < |s|
    ensures |r| == |s| - 1
  {
    var t := s[..|s| - 1];
    if idx == |t| then t else SiftDown(t[idx := s[|s| - 1]], idx)
  }

  lemma {:induction false} RemovedUnfold<T>(s: seq<Entry<T>>, idx: nat)
    ensures idx < |s| ==> var t := s[..|s| - 1];
      Removed(s, idx) == if idx == |t| then t else SiftDown(t[idx := s[|s| - 1]], idx)
  {}

  lemma {:induction false} RemoveMaxKeepsHeap<T>(s: seq<Entry<T>>)
    requires Ordered(s) && |s| > 0
    ensures Ordered(Removed(s, 0)) && multiset(s) == multiset(Removed(s, 0)) + multiset{s[0]}
    ensures forall e | e in multiset(s) :: s[0].value >= e.value
  {
    var t := s[..|s| - 1];
    assert s == t + [s[|s| - 1]];
    if |t| > 0 {
      SiftDownRestores(t[0 := s[|s| - 1]], 0, 0);
      SiftDownMultiset(t[0 := s[|s| - 1]], 0);
    }
    forall e | e in multiset(s) ensures s[0].value >= e.value {
      var i :| 0 <= i < |s| && s[i] == e;
      RootIsMaximal(s, i);
    }
  }

  /** Removing an inner entry keeps the order exactly if the last entry, which takes its place, does not exceed the
      parent there: it only ever sinks. */
  ghost predicate StaysOrdered<T>(s: seq<Entry<T>>, idx: nat)
    requires idx < |s|
  {
    idx == 0 || idx == |s| - 1 || s[|s| - 1].value <= s[Parent(idx)].value
  }

  lemma {:induction false} RemovedOrdered<T>(s: seq<Entry<T>>, idx: nat)
    requires Ordered(s) && idx < |s|
    ensures Ordered(Removed(s, idx)) <==> StaysOrdered(s, idx)
  {
    hide OrderedExceptDown, SiftDown;
    var n := |s| - 1;
    if idx < n {
      var t := s[..n][idx := s[n]];
      if StaysOrdered(s, idx) {
        LastInPlace(s, idx);
        SiftDownRestores(t, 0, idx);
      } else {
        StaysPut(s, idx);
        assert t[Parent(idx)].value < t[idx].value;
      }
    }
  }

  lemma {:induction false} LastInPlace<T>(s: seq<Entry<T>>, idx: nat)
    requires Ordered(s) && idx < |s| - 1 && StaysOrdered(s, idx)
    ensures OrderedExceptDown(s[..|s| - 1][idx := s[|s| - 1]], 0, idx)
  {
    var t := s[..|s| - 1][idx := s[|s| - 1]];
    forall j {:trigger Parent(j)} | 0 < j < |t| && Parent(j) == idx && idx > 0
      ensures t[Parent(idx)].value >= t[j].value
    {
      assert s[Parent(idx)].value >= s[idx].value >= s[j].value;
    }
  }

  /** An entry that exceeds the parent exceeds the children as well and does not sink. */
  lemma {:induction false} StaysPut<T>(s: seq<Entry<T>>, idx: nat)
    requires Ordered(s) && idx < |s| && !StaysOrdered(s, idx)
    ensures Removed(s, idx) == s[..|s| - 1][idx := s[|s| - 1]]
  {
    assert s[Parent(idx)].value >= s[idx].value;
    forall j | 0 < j < |s| && (j == 2 * idx + 1 || j == 2 * idx + 2) ensures s[idx].value >= s[j].value {
      assert Parent(j) == idx;
    }
  }

  lemma {:induction false} LeavesOrdered<T>(s: seq<Entry<T>>, k: nat)
    requires k >= |s| / 2
    ensures OrderedFrom(s, k)
  {}

  lemma {:induction false} HeapifyNext<T>(s: seq<Entry<T>>, i: nat)
    requires i < |s| && OrderedFrom(s, i + 1)
    ensures OrderedFrom(SiftDown(s, i), i) && multiset(SiftDown(s, i)) == multiset(s)
  {
    SiftDownMultiset(s, i);
    SiftDownRestores(s, i, i);
  }

  lemma {:induction false} PrefixOf<T>(b: seq<T>, s: seq<T>, n: nat)
    requires n + 1 <= |b| && s == b[..n + 1]
    ensures b[..n] == s[..|s| - 1] && |s| == n + 1
  {}

  // ---------------------------------------------------------------------------------------
  // The heap structure

  class ZMaxHeap<T(0)> {
    var a: array<Entry<T>>
    var size: nat

    ghost predicate Valid()
      reads this
    {
      size <= a.Length
    }

    ghost function Contents(): (s: seq<Entry<T>>)
      reads this, a
      requires Valid()
    {
      a[..size]
    }

    constructor ()
      ensures Valid() && Contents() == [] && fresh(a)
    {
      a := new Entry<T>[0];
      size := 0;
    }

    method EnsureCapacity(capacity: nat)
      requires Valid()
      modifies this`a
      ensures Valid() && size == old(size) && Contents() == old(Contents())
      ensures a.Length >= capacity && (a == old(a) || fresh(a)) && (old(a.Length) >= capacity ==> a == old(a))
      ensures a != old(a) ==> a.Length == 16 || 16 <= a.Length < 2 * capacity
    {
      if a.Length >= capacity {
        return;
      }
      var newcap := a.Length;
      while newcap < capacity
        invariant newcap >= a.Length && (newcap == a.Length || newcap == 16 || 16 <= newcap < 2 * capacity)
        decreases capacity - newcap
      {
        newcap := if newcap < MIN_CAPACITY then MIN_CAPACITY else newcap * 2;
      }
      var b := new Entry<T>[newcap];
      forall i | 0 <= i < size {
        b[i] := a[i];
      }
      assert b[..size] == a[..size];
      a := b;
    }

    method SwapEntries(i: nat, j: nat)
      requires Valid() && i < size && j < size
      modifies a
      ensures Contents() == Swap(old(Contents()), i, j)
      ensures a[i] == old(a[j]) && a[j] == old(a[i])
    {
      a[i], a[j] := a[j], a[i];
      assert a[..size] == Swap(old(a[..size]), i, j);
    }

    /** Stores an entry behind the others. */
    method Append(p: T, v: real) returns (idx: nat)
      requires Valid()
      modifies this, a
      ensures Valid() && (a == old(a) || fresh(a)) && idx == old(size) < size
      ensures Contents() == old(Contents()) + [Entry(v, p)]
    {
      EnsureCapacity(size + 1);
      ghost var s := Contents();
      idx := size;
      a[idx] := Entry(v, p);
      size := size + 1;
      assert Contents() == s + [Entry(v, p)];
    }

    method Add(p: T, v: real)
      requires Valid() && Ordered(Contents())
      modifies this, a
      ensures Valid() && (a == old(a) || fresh(a))
      ensures Ordered(Contents())
      ensures multiset(Contents()) == multiset(old(Contents())) + multiset{Entry(v, p)}
      ensures size == old(size) + 1
    {
      hide Ordered, OrderedFrom, Added, SiftUp, Swap;
      ghost var s := Contents();
      var idx := Append(p, v);
      ghost var arr := a;
      StartSift(s, Entry(v, p));
      AddKeepsHeap(s, Entry(v, p));

      while idx > 0
        invariant 0 <= idx < size == |s| + 1 && Valid() && a == arr && a[idx].value == v
        invariant SiftUp(Contents(), idx) == Added(s, Entry(v, p))
      {
        SiftUpUnfold(Contents(), idx);
        var parent := Parent(idx);
        if a[parent].value >= v {
          break;
        }
        SwapEntries(idx, parent);
        idx := parent;
      }
      SiftUpUnfold(Contents(), idx);
    }

    /** Removes the entry at idx; false if there is none. */
    method RemoveIndex(idx: nat) returns (ok: bool, e: Entry<T>)
      requires Valid()
      modifies this`size, a
      ensures Valid() && ok == (idx < old(size))
      ensures !ok ==> Contents() == old(Contents())
      ensures ok ==> e == old(Contents())[idx] && Contents() == Removed(old(Contents()), idx)
      ensures ok && Ordered(old(Contents())) ==> (Ordered(Contents()) <==> StaysOrdered(old(Contents()), idx))
    {
      hide SiftDown, Swap, BetterChild, Ordered, StaysOrdered, Removed;
      ghost var s := Contents();
      RemovedUnfold(s, idx);
      if idx < size && Ordered(s) { RemovedOrdered(s, idx); }
      if idx >= size {
        ok, e := false, *;
        return;
      }
      e := a[idx];
      size := size - 1;
      ok := true;
      PrefixOf(a[..], s, size);
      if idx == size {
        return;
      }
      a[idx] := a[size];
      ghost var t := s[..|s| - 1][idx := s[|s| - 1]];
      assert Contents() == t;
      SinkDown(idx, t);
    }

    /** The loop of RemoveIndex: pushes the entry at idx down. */
    method SinkDown(idx: nat, ghost t: seq<Entry<T>>)
      requires Valid() && idx < size && t == Contents()
      modifies a
      ensures Contents() == SiftDown(t, idx)
    {
      hide SiftDown, Swap, BetterChild;
      var parent := idx;
      while parent < size
        invariant Valid() && 0 <= parent < size == |t|
        invariant SiftDown(Contents(), parent) == SiftDown(t, idx)
        decreases size - parent
      {
        SiftDownUnfold(Contents(), parent);
        var left := 2 * parent + 1;
        var right := left + 1;
        // an absent child counts as minus infinity
        var overLeft := left >= size || a[parent].value >= a[left].value;
        var overRight := right >= size || a[parent].value >= a[right].value;
        if overLeft && overRight {
          break;
        }
        if right >= size || (left < size && a[left].value >= a[right].value) {
          SwapEntries(parent, left);
          parent := left;
        } else {
          SwapEntries(parent, right);
          parent := right;
        }
      }
    }

    method RemoveMax() returns (ok: bool, e: Entry<T>)
      requires Valid() && Ordered(Contents())
      modifies this`size, a
      ensures Valid() && Ordered(Contents()) && ok == (old(size) > 0)
      ensures !ok ==> Contents() == old(Contents())
      ensures ok ==> multiset(old(Contents())) == multiset(Contents()) + multiset{e} && size == old(size) - 1
      ensures ok ==> forall f | f in multiset(old(Contents())) :: e.value >= f.value
    {
      ghost var s := Contents();
      if size > 0 {
        RemoveMaxKeepsHeap(s);
      }
      ok, e := RemoveIndex(0);
    }

    method MaxHeapify(parent: nat)
      requires Valid() && parent < size
      modifies a
      ensures Contents() == SiftDown(old(Contents()), parent)
      decreases size - parent
    {
      hide SiftDown, Swap, BetterChild;
      SiftDownUnfold(Contents(), parent);
      var left, right := 2 * parent + 1, 2 * parent + 2;
      var betterchild := parent;
      if left < size && a[left].value > a[betterchild].value {
        betterchild := left;
      }
      if right < size && a[right].value > a[betterchild].value {
        betterchild := right;
      }
      if betterchild != parent {
        SwapEntries(parent, betterchild);
        MaxHeapify(betterchild);
      }
    }

    /** Restores heap order in the whole array. */
    method Rebuild()
      requires Valid()
      modifies a
      ensures Ordered(Contents()) && multiset(Contents()) == multiset(old(Contents()))
    {
      hide OrderedFrom, SiftDown;
      var i := size / 2 - 1;
      LeavesOrdered(Contents(), size / 2);
      while i >= 0
        invariant -1 <= i < size
        invariant OrderedFrom(Contents(), (i + 1) as nat)
        invariant multiset(Contents()) == multiset(old(Contents()))
      {
        HeapifyNext(Contents(), i);
        MaxHeapify(i);
        i := i - 1;
      }
    }
  }

  // ---------------------------------------------------------------------------------------
  // The filtering iterator

  /** The storage b while iterating: the kept entries, then some no longer needed, then those not yet visited. */
  ghost predicate Iterating<T>(b: seq<Entry<T>>, size: nat, all: seq<Entry<T>>, kept: seq<Entry<T>>, inpos: nat,
                               outpos: nat)
  {
    && outpos == |kept| <= inpos <= size == |all| <= |b|
    && b[..outpos] == kept && b[inpos..size] == all[inpos..] && (inpos == outpos ==> kept == all[..inpos])
  }

  lemma {:induction false} IteratingBounds<T>(b: seq<Entry<T>>, size: nat, all: seq<Entry<T>>, kept: seq<Entry<T>>,
                                              inpos: nat, outpos: nat)
    requires Iterating(b, size, all, kept, inpos, outpos)
    ensures outpos == |kept| <= inpos <= size == |all| <= |b|
  {}

  lemma {:induction false} IteratingNext<T>(b: seq<Entry<T>>, size: nat, all: seq<Entry<T>>, kept: seq<Entry<T>>,
                                            inpos: nat, outpos: nat)
    requires Iterating(b, size, all, kept, inpos, outpos) && inpos < size
    ensures outpos < |b| && inpos < |b| && inpos < |all| && b[inpos] == all[inpos]
    ensures Iterating(b[outpos := b[inpos]], size, all, kept + [b[inpos]], inpos + 1, outpos + 1)
  {
    var b' := b[outpos := b[inpos]];
    assert b[inpos] == b[inpos..size][0] == all[inpos..][0];
    assert b'[..outpos + 1] == b[..outpos] + [b[inpos]];
    assert b'[inpos + 1..size] == b[inpos..size][1..] == all[inpos + 1..];
    assert all[..inpos + 1] == all[..inpos] + [all[inpos]];
  }

  class ZMaxHeapIterator<T(0)> {
    const heap: ZMaxHeap<T>
    var inpos: nat
    var outpos: nat
    /** The contents when iteration began, and the visited entries not removed since. */
    ghost const all: seq<Entry<T>>
    ghost var kept: seq<Entry<T>>

    ghost predicate Valid()
      reads this, heap, heap.a
    {
      heap.Valid() && Iterating(heap.a[..], heap.size, all, kept, inpos, outpos)
    }

    constructor (heap: ZMaxHeap<T>)
      requires heap.Valid()
      ensures Valid() && this.heap == heap && inpos == 0 && kept == [] && all == heap.Contents()
    {
      this.heap := heap;
      inpos, outpos := 0, 0;
      all, kept := heap.a[..heap.size], [];
    }

    method Next() returns (ok: bool, e: Entry<T>)
      requires Valid()
      modifies this`inpos, this`outpos, this`kept, heap.a
      ensures Valid() && ok == (old(inpos) < |all|)
      ensures !ok ==> inpos == old(inpos) && kept == old(kept)
      ensures ok ==> inpos == old(inpos) + 1 && e == all[old(inpos)] && kept == old(kept) + [e]
    {
      ghost var b := heap.a[..];
      IteratingBounds(b, heap.size, all, kept, inpos, outpos);
      hide Iterating;
      if inpos >= heap.size {
        ok, e := false, *;
        return;
      }
      IteratingNext(b, heap.size, all, kept, inpos, outpos);
      e := heap.a[inpos];
      assert e == b[inpos];
      if inpos != outpos {
        heap.a[outpos] := heap.a[inpos];
      }
      assert heap.a[..] == b[outpos := b[inpos]];
      kept := kept + [e];
      inpos, outpos := inpos + 1, outpos + 1;
      ok := true;
    }

    /** Removes the entry visited last. */
    method Remove()
      requires Valid() && kept != []
      modifies this`outpos, this`kept
      ensures Valid() && inpos == old(inpos) && kept == old(kept)[..|old(kept)| - 1]
    {
      kept := kept[..|kept| - 1];
      outpos := outpos - 1;
    }

    method Finish()
      requires Valid() && Ordered(all)
      modifies heap`size, heap.a
      ensures heap.Valid() && Ordered(heap.Contents())
      ensures inpos == |all| || inpos != outpos ==> multiset(heap.Contents()) == multiset(kept)
      ensures inpos == outpos ==> heap.Contents() == all
    {
      if inpos == outpos {
        assert heap.a[..heap.size] == heap.a[..inpos] + heap.a[..][inpos..heap.size];
        assert all == all[..inpos] + all[inpos..];
        return;
      }
      assert heap.a[..outpos] == heap.a[..][..outpos];
      heap.size := outpos;
      heap.Rebuild();
    }
  }

  function Survivors<T>(s: seq<Entry<T>>, drop: seq<bool>): seq<Entry<T>>
    requires |drop| == |s|
  {
    if s == [] then []
    else Survivors(s[..|s| - 1], drop[..|s| - 1]) + if drop[|s| - 1] then [] else [s[|s| - 1]]
  }

  /** The survivors among the first i entries. */
  function SurvivorsTo<T>(s: seq<Entry<T>>, drop: seq<bool>, i: nat): seq<Entry<T>>
    requires |drop| == |s| && i <= |s|
  {
    Survivors(s[..i], drop[..i])
  }

  lemma {:induction false} SurvivorsNext<T>(s: seq<Entry<T>>, drop: seq<bool>, i: nat)
    requires |drop| == |s| && i < |s|
    ensures SurvivorsTo(s, drop, i + 1) == SurvivorsTo(s, drop, i) + if drop[i] then [] else [s[i]]
  {
    assert s[..i + 1][..i] == s[..i] && drop[..i + 1][..i] == drop[..i];
  }

  lemma {:induction false} SurvivorsEnds<T>(s: seq<Entry<T>>, drop: seq<bool>)
    requires |drop| == |s|
    ensures SurvivorsTo(s, drop, 0) == [] && SurvivorsTo(s, drop, |s|) == Survivors(s, drop)
  {
    assert s[..|s|] == s && drop[..|s|] == drop;
  }

  lemma {:induction false} DropLast<T>(kept: seq<Entry<T>>, e: Entry<T>)
    ensures (kept + [e])[..|kept + [e]| - 1] == kept && kept + [e] != []
  {}

  /** A complete iteration that removes the chosen positions: the result is a heap of exactly
      the other entries. */
  method FilterHeap<T(0)>(heap: ZMaxHeap<T>, drop: seq<bool>)
    requires heap.Valid() && Ordered(heap.Contents()) && |drop| == heap.size
    modifies heap, heap.a
    ensures heap.Valid() && Ordered(heap.Contents())
    ensures multiset(heap.Contents()) == multiset(Survivors(old(heap.Contents()), drop))
  {
    hide Ordered, Survivors, SurvivorsTo, Iterating;
    var it := new ZMaxHeapIterator<T>(heap);
    ghost var s := heap.Contents();
    var ok, e := it.Next();
    var i: nat := 0;
    SurvivorsEnds(s, drop);
    while ok
      invariant it.Valid() && it.heap == heap && heap.a == old(heap.a) && it.all == s && |drop| == |s|
      invariant it.inpos == (if ok then i + 1 else i) && i <= |s|
      invariant ok ==> i < |s| && it.kept == SurvivorsTo(s, drop, i) + [s[i]]
      invariant !ok ==> i == |s| && it.kept == SurvivorsTo(s, drop, i)
      decreases |s| - i, ok
    {
      DropLast(SurvivorsTo(s, drop, i), s[i]);
      SurvivorsNext(s, drop, i);
      if drop[i] {
        it.Remove();
        assert it.kept == SurvivorsTo(s, drop, i + 1);
      }
      i := i + 1;
      ok, e := it.Next();
    }
    it.Finish();
  }
}
