/** Small value types and sequence helpers shared by the other modules. */
module Common {

  datatype Option<+T> = None | Some(value: T)

  /** Sum of a sequence of reals, accumulated from the left. */
  function Sum(s: seq<real>): real
  {
    if |s| == 0 then 0.0 else Sum(s[..|s| - 1]) + s[|s| - 1]
  }

  /** Dot product of two sequences of equal length. */
  function Dot(a: seq<real>, w: seq<real>): real
    requires |a| == |w|
  {
    if |a| == 0 then 0.0 else Dot(a[..|a| - 1], w[..|w| - 1]) + a[|a| - 1] * w[|w| - 1]
  }

  /** Element-wise sum of two vectors of equal length (numpy `a + b`). */
  function AddVectors(a: seq<real>, b: seq<real>): (r: seq<real>)
    requires |a| == |b|
    ensures |r| == |a|
  {
    seq(|a|, t requires 0 <= t < |a| => a[t] + b[t])
  }

  /** The set of the values of a sequence. */
  function Elements(s: seq<nat>): (e: set<nat>)
    ensures forall x :: x in e <==> x in s
  {
    set x | x in s
  }

  /** The union of a sequence of sets. */
  function Union(sets: seq<set<nat>>): set<nat>
  {
    if |sets| == 0 then {} else Union(sets[..|sets| - 1]) + sets[|sets| - 1]
  }

  /** Every set of the sequence is part of the union. */
  lemma {:induction false} UnionCover(sets: seq<set<nat>>, n: nat)
    requires n < |sets|
    ensures sets[n] <= Union(sets)
  {
    if n < |sets| - 1 {
      UnionCover(sets[..|sets| - 1], n);
    }
  }

  /** The union holds only what some set of the sequence holds. */
  lemma {:induction false} UnionFrom(sets: seq<set<nat>>, x: nat)
    requires x in Union(sets)
    ensures exists n :: 0 <= n < |sets| && x in sets[n]
  {
    if x !in sets[|sets| - 1] {
      UnionFrom(sets[..|sets| - 1], x);
      var n :| 0 <= n < |sets| - 1 && x in sets[..|sets| - 1][n];
      assert x in sets[n];
    }
  }

  /** Every entry is at most the one after it. */
  predicate NonDecreasing(s: seq<int>)
  {
    forall a, b :: 0 <= a < b < |s| ==> s[a] <= s[b]
  }

  /** Every entry is below the one after it. */
  predicate StrictlyIncreasing(s: seq<int>)
  {
    forall a, b :: 0 <= a < b < |s| ==> s[a] < s[b]
  }

  lemma {:induction false} SumConstant(s: seq<real>, c: real)
    requires forall t :: 0 <= t < |s| ==> s[t] == c
    ensures Sum(s) == |s| as real * c
  {
    if |s| > 0 {
      SumConstant(s[..|s| - 1], c);
    }
  }

  lemma {:induction false} DotConstantLeft(a: seq<real>, w: seq<real>, c: real)
    requires |a| == |w|
    requires forall t :: 0 <= t < |a| ==> a[t] == c
    ensures Dot(a, w) == c * Sum(w)
  {
    if |a| > 0 {
      DotConstantLeft(a[..|a| - 1], w[..|w| - 1], c);
    }
  }
}
