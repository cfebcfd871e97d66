/** Machine numbers, and facts about sequences and finite sets that several modules use. */
module Basics {
  type byte = x: nat | x < 256
  type word = x: nat | x < 0x1_0000_0000

  /** A list with its k-th element left out. */
  function RemoveAt<T>(s: seq<T>, k: nat): (r: seq<T>)
    requires k < |s|
    ensures |r| == |s| - 1 && forall j :: 0 <= j < |r| ==> r[j] == s[if j < k then j else j + 1]
  {
    s[..k] + s[k + 1..]
  }

  function Elements(s: seq<nat>): set<nat> {
    set x | x in s
  }

  predicate Distinct<T(==)>(s: seq<T>) {
    forall i, j :: 0 <= i < j < |s| ==> s[i] != s[j]
  }

  lemma {:induction false} DistinctCard(s: seq<nat>)
    requires Distinct(s)
    ensures |Elements(s)| == |s|
  {
    if s == [] {
      assert Elements(s) == {};
    } else {
      var r := s[..|s| - 1];
      DistinctCard(r);
      assert Elements(s) == Elements(r) + {s[|s| - 1]};
    }
  }

  lemma {:induction false} SubsetCard(a: set<nat>, b: set<nat>)
    requires a <= b
    ensures |a| <= |b|
    ensures |a| == |b| ==> a == b
  {
    assert b == a + (b - a);
  }

  /** The first n numbers. */
  function Below(n: nat): (r: set<nat>)
    ensures |r| == n && forall x :: x in r <==> 0 <= x < n
  {
    if n == 0 then {} else Below(n - 1) + {n - 1}
  }

  /** A set of numbers below n has at most n elements, and n of them only when it has them all. */
  lemma BelowCard(s: set<nat>, n: nat)
    requires forall x :: x in s ==> x < n
    ensures |s| <= n
    ensures |s| == n <==> forall x: nat :: x < n ==> x in s
  {
    SubsetCard(s, Below(n));
    if forall x: nat :: x < n ==> x in s {
      assert s == Below(n);
    }
  }

  /** A set of n consecutive numbers at most. */
  lemma {:induction false} RangeCard(s: set<nat>, lo: nat, n: nat)
    requires forall x :: x in s ==> lo <= x < lo + n
    ensures |s| <= n
  {
    if n == 0 {
      assert s == {};
    } else {
      RangeCard(s - {lo + n - 1}, lo, n - 1);
      assert s <= (s - {lo + n - 1}) + {lo + n - 1};
    }
  }
}
