/** Facts about Python lists used as sets: duplicates, sub-lists, `list(set(xs))`. */
module Seqs {

  function Min(a: nat, b: nat): nat
  {
    if a <= b then a else b
  }

  /** No element occurs twice. */
  predicate NoDuplicates<T(==)>(s: seq<T>)
  {
    forall i, j :: 0 <= i < j < |s| ==> s[i] != s[j]
  }

  /** `set(xs)`. */
  function ToSet<T>(s: seq<T>): set<T>
  {
    set x | x in s
  }

  /** A duplicate-free list has as many distinct elements as entries. */
  lemma {:induction false} NoDuplicatesCardinality<T>(s: seq<T>)
    requires NoDuplicates(s)
    ensures |ToSet(s)| == |s|
  {
    if s != [] {
      NoDuplicatesCardinality(s[1..]);
      assert ToSet(s) == ToSet(s[1..]) + {s[0]};
      assert s[0] !in ToSet(s[1..]);
    }
  }

  /** Cutting a list short keeps it duplicate-free. */
  lemma NoDuplicatesPrefix<T>(s: seq<T>, k: nat)
    requires NoDuplicates(s) && k <= |s|
    ensures NoDuplicates(s[..k])
  {
  }

  /** `a` is `b` with some entries left out, the rest in the same order. */
  predicate IsSubsequence<T(==)>(a: seq<T>, b: seq<T>)
    decreases |b|
  {
    if b == [] then a == []
    else (a != [] && a[0] == b[0] && IsSubsequence(a[1..], b[1..])) || IsSubsequence(a, b[1..])
  }

  /**
   * `list(set(xs))`: the distinct elements of `xs`, in an order the caller may
   * not rely on (each step takes an arbitrary element still left).
   */
  method Distinct<T(==)>(xs: seq<T>) returns (r: seq<T>)
    ensures NoDuplicates(r)
    ensures forall x :: x in r <==> x in xs
    ensures |r| == |ToSet(xs)|
  {
    var rest := ToSet(xs);
    r := [];
    while rest != {}
      invariant NoDuplicates(r)
      invariant forall x :: x in r ==> x !in rest
      invariant forall x :: x in xs <==> x in r || x in rest
      invariant |r| + |rest| == |ToSet(xs)|
      decreases |rest|
    {
      var x :| x in rest;
      r := r + [x];
      rest := rest - {x};
    }
  }
}
