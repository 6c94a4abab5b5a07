/** Small facts about finite sets of numbers. */
module FiniteSets {

  /** The numbers 0, ..., n - 1. */
  function Below(n: nat): (s: set<nat>)
    ensures forall y: nat :: y in s <==> y < n
  {
    if n == 0 then {} else Below(n - 1) + {n - 1}
  }

  lemma {:induction false} BelowCard(n: nat)
    ensures |Below(n)| == n
  {
    if n > 0 {
      BelowCard(n - 1);
      CardAdds(Below(n - 1), n - 1);
    }
  }

  lemma {:induction false} CardAdds<T>(s: set<T>, x: T)
    requires x !in s
    ensures |s + {x}| == |s| + 1
  {}

  lemma {:induction false} SubsetCard<T>(a: set<T>, b: set<T>)
    requires a <= b
    ensures |a| <= |b|
  {
    assert b == a + (b - a);
  }

  /** A set of fewer than n numbers below n leaves one out. */
  lemma {:induction false} MissesOne(s: set<nat>, n: nat) returns (x: nat)
    requires s <= Below(n) && |s| < n
    ensures x < n && x !in s
  {
    BelowCard(n);
    assert Below(n) <= s ==> s == Below(n);
    x :| x in Below(n) && x !in s;
  }

  /** An injective image is as large as its source. */
  lemma {:induction false} InjectionCard(s: set<nat>, t: set<nat>, f: map<nat, nat>)
    requires s <= f.Keys && (forall x | x in s :: f[x] in t)
    requires forall x, y | x in s && y in s && f[x] == f[y] :: x == y
    ensures |s| <= |t|
    decreases |s|
  {
    if x :| x in s {
      InjectionCard(s - {x}, t - {f[x]}, f);
    }
  }

  /** An injection of the numbers below n into themselves reaches each of them. */
  lemma {:induction false} Reached(f: map<nat, nat>, n: nat, r: nat) returns (x: nat)
    requires f.Keys == Below(n) && r < n && (forall x | x in f :: f[x] < n)
    requires forall x, y | x in f && y in f && f[x] == f[y] :: x == y
    ensures x < n && f[x] == r
  {
    hide Below;
    CardWithout(Below(n), r);
    if forall x | x in f :: f[x] != r {
      Avoids(f, n, r);
    }
    x :| x in f && f[x] == r;
  }

  lemma {:induction false} Avoids(f: map<nat, nat>, n: nat, r: nat)
    requires f.Keys == Below(n) && forall x | x in f :: f[x] < n && f[x] != r
    requires forall x, y | x in f && y in f && f[x] == f[y] :: x == y
    ensures |Below(n)| <= |Below(n) - {r}|
  {
    hide Below;
    InjectionCard(Below(n), Below(n) - {r}, f);
  }

  lemma {:induction false} CardWithout<T>(s: set<T>, x: T)
    requires x in s
    ensures |s - {x}| == |s| - 1
  {
    assert s == (s - {x}) + {x};
  }
}
