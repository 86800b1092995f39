/**
 * Weighted moving averages over a sampled signal (the `averages`, `moving`
 * and `binom` helpers). Floats are modelled as exact reals.
 */
module Smoothing {
  import opened Common

  // ---------------------------------------------------------------------
  // Integer helpers for the binomial kernel
  // ---------------------------------------------------------------------

  function Fact(n: nat): (r: nat)
    ensures r >= 1
  {
    if n == 0 then 1 else n * Fact(n - 1)
  }

  function Pow2(n: nat): (r: nat)
    ensures r >= 1
  {
    if n == 0 then 1 else 2 * Pow2(n - 1)
  }

  /** Pascal's triangle: the number of k-element subsets of an n-element set. */
  function Choose(n: nat, k: nat): nat
  {
    if k == 0 then 1 else if n == 0 then 0 else Choose(n - 1, k - 1) + Choose(n - 1, k)
  }

  /** Sum of the first m entries of row n of Pascal's triangle. */
  function RowSum(n: nat, m: nat): nat
  {
    if m == 0 then 0 else RowSum(n, m - 1) + Choose(n, m - 1)
  }

  /**
   * factorial(n) / factorial(i) / factorial(n - i), both divisions being
   * Python 2 integer (floor) divisions of non-negative numbers.
   */
  function FactorialQuotient(n: nat, i: nat): int
    requires i <= n
  {
    Fact(n) / Fact(i) / Fact(n - i)
  }

  // ---------------------------------------------------------------------
  // The two kernels
  // ---------------------------------------------------------------------

  /** A kernel family maps a window length to its weights. */
  type Kernel = nat -> seq<real>

  /** `moving(N)`: N copies of 1.0, divided by N. */
  function Moving(n: nat): (w: seq<real>)
    ensures |w| == n
  {
    seq(n, i requires 0 <= i < n => 1.0 / n as real)
  }

  /** `binom(N)`: entry i is the binomial coefficient C(N-1, i) over 2^(N-1), computed through factorials. */
  function Binom(n: nat): (w: seq<real>)
    ensures |w| == n
  {
    seq(n, i requires 0 <= i < n => FactorialQuotient(n - 1, i) as real / Pow2(n - 1) as real)
  }

  /** A kernel family whose every member has the requested length. */
  ghost predicate WellSized(f: Kernel)
  {
    forall m: nat :: |f(m)| == m
  }

  /** A well-sized kernel family whose non-empty members have weights summing to 1. */
  ghost predicate Normalized(f: Kernel)
  {
    WellSized(f) && forall m: nat :: m > 0 ==> Sum(f(m)) == 1.0
  }

  // ---------------------------------------------------------------------
  // numpy building blocks
  // ---------------------------------------------------------------------

  /**
   * Sum over t < count of data[center - t] * w[t], dropping the terms whose
   * data index falls outside the signal (the implicit zero padding of
   * `np.convolve`).
   */
  function ConvolutionTerms(data: seq<real>, w: seq<real>, center: int, count: nat): real
    requires count <= |w|
  {
    if count == 0 then 0.0
    else
      ConvolutionTerms(data, w, center, count - 1)
      + (if 0 <= center - (count - 1) < |data| then data[center - (count - 1)] * w[count - 1] else 0.0)
  }

  /**
   * Entry m of `np.convolve(data, w, "same")` for a kernel no longer than the
   * data: entry m + (|w| - 1) / 2 of the full convolution.
   */
  function SameConvolution(data: seq<real>, w: seq<real>, m: nat): real
  {
    ConvolutionTerms(data, w, m + (|w| - 1) / 2, |w|)
  }

  /** Whether `a * w` broadcasts in numpy for one-dimensional operands. */
  predicate Broadcasts(a: nat, w: nat)
  {
    a == w || a == 1 || w == 1
  }

  /** `np.sum(a * w)` for one-dimensional operands that broadcast. */
  function BroadcastSum(a: seq<real>, w: seq<real>): real
    requires Broadcasts(|a|, |w|)
  {
    if |a| == |w| then Dot(a, w)
    else if |a| == 1 then a[0] * Sum(w)
    else w[0] * Sum(a)
  }

  // ---------------------------------------------------------------------
  // averages
  // ---------------------------------------------------------------------

  /** How a call of `averages` ends. */
  datatype Smoothed =
    | Averaged(values: seq<real>)
    | KernelLengthError   // prints "ERROR" and exits: f(N) has the wrong length
    | NumpyError          // numpy raises: empty convolution operand, or a boundary kernel that does not broadcast

  /** The window after clamping to the length of the data. */
  function Window(n: int, len: nat): nat
    requires n >= 2
  {
    if len < n then len else n
  }

  /** The boundary kernel f(2i+1) can be multiplied with 2i+1 samples. */
  predicate KernelFits(f: Kernel, i: nat)
  {
    Broadcasts(2 * i + 1, |f(2 * i + 1)|)
  }

  /** Boundary kernels f(1), f(3), ..., f(2k-1) all fit. */
  predicate BoundaryKernelsFit(f: Kernel, k: nat)
  {
    forall i: nat :: i < k ==> KernelFits(f, i)
  }

  /** Entry i from the front: the first 2i+1 samples weighted by f(2i+1). */
  function FrontEntry(data: seq<real>, f: Kernel, i: nat): real
    requires 2 * i + 1 <= |data| && KernelFits(f, i)
  {
    BroadcastSum(data[..2 * i + 1], f(2 * i + 1))
  }

  /** Entry i from the back: the last 2i+1 samples weighted by f(2i+1). */
  function BackEntry(data: seq<real>, f: Kernel, i: nat): real
    requires 2 * i + 1 <= |data| && KernelFits(f, i)
  {
    BroadcastSum(data[|data| - (2 * i + 1)..], f(2 * i + 1))
  }

  /** Value of entry m of the result for a clamped window. */
  function EntryAt(data: seq<real>, window: nat, f: Kernel, m: nat): real
    requires m < |data| && window <= |data|
    requires BoundaryKernelsFit(f, window / 2)
  {
    var len := |data|;
    if m < window / 2 then FrontEntry(data, f, m)
    else if m >= len - window / 2 then BackEntry(data, f, len - 1 - m)
    else SameConvolution(data, f(window), m)
  }

  /** The outcome of `averages(data, n, f)`, entry by entry. */
  function AveragesSpec(data: seq<real>, n: int, f: Kernel): Smoothed
  {
    if n < 2 then Averaged(data)
    else
      var window := Window(n, |data|);
      if |f(window)| != window then KernelLengthError
      else if window == 0 || !BoundaryKernelsFit(f, window / 2) then NumpyError
      else Averaged(seq(|data|, m requires 0 <= m < |data| => EntryAt(data, window, f, m)))
  }

  /**
   * `averages(data, N, f)`: "same"-mode convolution with f(N), after which the
   * first and last N/2 entries are recomputed with the shrinking odd kernels
   * f(1), f(3), ...
   */
  method Averages(data: seq<real>, n: int, f: Kernel) returns (r: Smoothed)
    ensures r == AveragesSpec(data, n, f)
    ensures n < 2 ==> r == Averaged(data)
    ensures r.Averaged? ==> |r.values| == |data|
  {
    if n < 2 {
      return Averaged(data);
    }
    var len := |data|;
    var window := if len < n then len else n;
    var weight := f(window);
    if |weight| != window {
      return KernelLengthError;
    }
    if window == 0 {
      return NumpyError;
    }
    var out := new real[len](m requires 0 <= m < len => SameConvolution(data, weight, m));
    var fits := RewriteBoundary(data, f, window / 2, out);
    if !fits {
      return NumpyError;
    }
    EntriesAfterLoop(data, window, f, out[..]);
    r := Averaged(out[..]);
  }

  /**
   * The boundary loop of `averages`: entries i and len-1-i, for i below half,
   * are overwritten with the shrinking-kernel sums; stops with false where
   * numpy would raise.
   */
  method RewriteBoundary(data: seq<real>, f: Kernel, half: nat, out: array<real>) returns (fits: bool)
    requires out.Length == |data| && 2 * half <= |data|
    modifies out
    ensures fits == BoundaryKernelsFit(f, half)
    ensures fits ==> forall m :: 0 <= m < half ==> out[m] == FrontEntry(data, f, m)
    ensures fits ==> forall m :: |data| - half <= m < |data| ==> out[m] == BackEntry(data, f, |data| - 1 - m)
    ensures fits ==> forall m :: half <= m < |data| - half ==> out[m] == old(out[m])
  {
    var len := |data|;
    for i := 0 to half
      invariant BoundaryKernelsFit(f, i)
      invariant forall m :: 0 <= m < i ==> out[m] == FrontEntry(data, f, m)
      invariant forall m :: len - i <= m < len ==> out[m] == BackEntry(data, f, len - 1 - m)
      invariant forall m :: i <= m < len - i ==> out[m] == old(out[m])
    {
      var j := 2 * i + 1;
      var w := f(j);
      if !Broadcasts(j, |w|) {
        assert !KernelFits(f, i);
        return false;
      }
      out[i] := BroadcastSum(data[..j], w);
      out[len - 1 - i] := BroadcastSum(data[len - j..], w);
    }
    return true;
  }

  /** After the boundary loop every entry holds the value EntryAt describes. */
  lemma EntriesAfterLoop(data: seq<real>, window: nat, f: Kernel, out: seq<real>)
    requires window <= |data| == |out| && BoundaryKernelsFit(f, window / 2)
    requires forall m :: 0 <= m < window / 2 ==> out[m] == FrontEntry(data, f, m)
    requires forall m :: |data| - window / 2 <= m < |data| ==> out[m] == BackEntry(data, f, |data| - 1 - m)
    requires forall m :: window / 2 <= m < |data| - window / 2 ==> out[m] == SameConvolution(data, f(window), m)
    ensures out == seq(|data|, m requires 0 <= m < |data| => EntryAt(data, window, f, m))
  {
  }

  // ---------------------------------------------------------------------
  // Properties of the kernels
  // ---------------------------------------------------------------------

  lemma MulAtLeast(b: int, x: int)
    requires b > 0 && x >= 1
    ensures b * x >= b
  {
  }

  lemma MulAtMost(b: int, x: int)
    requires b > 0 && x <= -1
    ensures b * x <= -b
  {
  }

  /** Integer division of an exact multiple recovers the factor. */
  lemma DivExact(a: int, q: int, b: int)
    requires b > 0 && a == q * b
    ensures a / b == q
  {
    var d, m := a / b, a % b;
    assert a == b * d + m && 0 <= m < b;
    assert b * (q - d) == m by { assert q * b - b * d == b * (q - d); }
    if q - d >= 1 { MulAtLeast(b, q - d); }
    if q - d <= -1 { MulAtMost(b, q - d); }
  }

  lemma {:induction false} ChooseAbove(n: nat, k: nat)
    requires k > n
    ensures Choose(n, k) == 0
  {
    if n > 0 {
      ChooseAbove(n - 1, k - 1);
      ChooseAbove(n - 1, k);
    }
  }

  lemma {:induction false} ChooseSelf(n: nat)
    ensures Choose(n, n) == 1
  {
    if n > 0 {
      ChooseSelf(n - 1);
      ChooseAbove(n - 1, n);
    }
  }

  lemma PascalProduct(a: int, b: int, k: int, n: int, fk: int, fnk1: int, f1: int)
    requires a * fk * ((n - k) * fnk1) == f1
    requires b * (k * fk) * fnk1 == f1
    ensures (a + b) * (k * fk) * ((n - k) * fnk1) == n * f1
  {
    var x := a * fk * ((n - k) * fnk1);
    var y := b * (k * fk) * fnk1;
    calc {
      (a + b) * (k * fk) * ((n - k) * fnk1);
      a * (k * fk) * ((n - k) * fnk1) + b * (k * fk) * ((n - k) * fnk1);
      { assert a * (k * fk) * ((n - k) * fnk1) == k * x; }
      k * x + b * (k * fk) * ((n - k) * fnk1);
      { assert b * (k * fk) * ((n - k) * fnk1) == (n - k) * y; }
      k * x + (n - k) * y;
    }
  }

  /** C(n, k) * k! * (n - k)! == n! */
  lemma {:induction false} ChooseTimesFactorials(n: nat, k: nat)
    requires k <= n
    ensures Choose(n, k) * Fact(k) * Fact(n - k) == Fact(n)
  {
    if k == 0 {
    } else if k == n {
      ChooseSelf(n);
    } else {
      ChooseTimesFactorials(n - 1, k - 1);
      ChooseTimesFactorials(n - 1, k);
      var a, b := Choose(n - 1, k - 1), Choose(n - 1, k);
      var f1, fk, fnk1 := Fact(n - 1), Fact(k - 1), Fact(n - 1 - k);
      assert Fact(k) == k * fk;
      assert Fact(n - k) == (n - k) * fnk1;
      assert Fact(n) == n * f1;
      assert Choose(n, k) == a + b;
      PascalProduct(a, b, k, n, fk, fnk1, f1);
    }
  }

  lemma Regroup(c: int, x: int, y: int, p: int)
    requires c * x * y == p
    ensures p == (c * y) * x && p == c * (x * y) && p == c * (y * x)
  {
  }

  /** The Python 2 factorial quotient is exactly the binomial coefficient. */
  lemma FactorialQuotientIsChoose(n: nat, i: nat)
    requires i <= n
    ensures FactorialQuotient(n, i) == Choose(n, i)
  {
    ChooseTimesFactorials(n, i);
    var c, fi, fni, fn := Choose(n, i), Fact(i), Fact(n - i), Fact(n);
    Regroup(c, fi, fni, fn);
    DivExact(fn, c * fni, fi);
    DivExact(c * fni, c, fni);
  }

  lemma ChooseSymmetric(n: nat, k: nat)
    requires k <= n
    ensures Choose(n, k) == Choose(n, n - k)
  {
    ChooseTimesFactorials(n, k);
    ChooseTimesFactorials(n, n - k);
    var fk, fnk, fn := Fact(k), Fact(n - k), Fact(n);
    assert n - (n - k) == k;
    Regroup(Choose(n, k), fk, fnk, fn);
    Regroup(Choose(n, n - k), fnk, fk, fn);
    DivExact(fn, Choose(n, k), fk * fnk);
    DivExact(fn, Choose(n, n - k), fk * fnk);
  }

  lemma {:induction false} RowSumPascal(n: nat, m: nat)
    ensures RowSum(n + 1, m + 1) == RowSum(n, m + 1) + RowSum(n, m)
  {
    if m > 0 {
      RowSumPascal(n, m - 1);
    }
  }

  /** The entries of row n of Pascal's triangle add up to 2^n. */
  lemma {:induction false} RowSumIsPow2(n: nat)
    ensures RowSum(n, n + 1) == Pow2(n)
  {
    if n > 0 {
      RowSumIsPow2(n - 1);
      RowSumPascal(n - 1, n);
      ChooseAbove(n - 1, n);
    }
  }

  /** Closed form of `binom(N)`: entry i is C(N-1, i) / 2^(N-1). */
  lemma BinomEntry(n: nat, i: nat)
    requires i < n
    ensures Binom(n)[i] == Choose(n - 1, i) as real / Pow2(n - 1) as real
  {
    FactorialQuotientIsChoose(n - 1, i);
  }

  /** `binom(N)` reads the same from both ends. */
  lemma BinomSymmetric(n: nat, i: nat)
    requires i < n
    ensures Binom(n)[i] == Binom(n)[n - 1 - i]
  {
    BinomEntry(n, i);
    BinomEntry(n, n - 1 - i);
    ChooseSymmetric(n - 1, i);
  }

  lemma AddFractions(x: real, y: real, p: real)
    requires p > 0.0
    ensures x / p + y / p == (x + y) / p
  {
  }

  lemma {:induction false} BinomPrefixSum(n: nat, m: nat)
    requires 0 < n && m <= n
    ensures Sum(Binom(n)[..m]) == RowSum(n - 1, m) as real / Pow2(n - 1) as real
  {
    if m > 0 {
      var w, p := Binom(n), Pow2(n - 1) as real;
      assert w[..m][..m - 1] == w[..m - 1];
      assert Sum(w[..m]) == Sum(w[..m - 1]) + w[m - 1];
      BinomPrefixSum(n, m - 1);
      BinomEntry(n, m - 1);
      AddFractions(RowSum(n - 1, m - 1) as real, Choose(n - 1, m - 1) as real, p);
    }
  }

  /** The weights of `binom(N)` add up to 1. */
  lemma BinomSumsToOne(n: nat)
    requires n > 0
    ensures Sum(Binom(n)) == 1.0
  {
    var w := Binom(n);
    BinomPrefixSum(n, n);
    RowSumIsPow2(n - 1);
    assert w[..n] == w;
    var p := Pow2(n - 1) as real;
    assert RowSum(n - 1, n) as real == p;
    assert Sum(w) == p / p;
    DivSelf(p);
  }

  lemma DivSelf(p: real)
    requires p > 0.0
    ensures p / p == 1.0
  {
  }

  /** The weights of `moving(N)` add up to 1. */
  lemma MovingSumsToOne(n: nat)
    requires n > 0
    ensures Sum(Moving(n)) == 1.0
  {
    SumConstant(Moving(n), 1.0 / n as real);
  }

  lemma MovingNormalized()
    ensures Normalized(Moving)
  {
    forall m: nat | m > 0 ensures Sum(Moving(m)) == 1.0 {
      MovingSumsToOne(m);
    }
  }

  lemma BinomNormalized()
    ensures Normalized(Binom)
  {
    forall m: nat | m > 0 ensures Sum(Binom(m)) == 1.0 {
      BinomSumsToOne(m);
    }
  }

  // ---------------------------------------------------------------------
  // Properties of averages
  // ---------------------------------------------------------------------

  /**
   * With a kernel family of the right sizes, `averages` of non-empty data
   * succeeds, and its first and last N/2 entries are the weighted sums of the
   * first and last 2i+1 samples under f(2i+1).
   */
  lemma AveragesBoundary(data: seq<real>, n: int, f: Kernel, i: nat)
    requires WellSized(f) && n >= 2 && |data| > 0
    requires i < Window(n, |data|) / 2
    ensures AveragesSpec(data, n, f).Averaged?
    ensures var out := AveragesSpec(data, n, f).values;
            var j, len := 2 * i + 1, |data|;
            |out| == len
            && out[i] == Dot(data[..j], f(j))
            && out[len - 1 - i] == Dot(data[len - j..], f(j))
  {
    var len := |data|;
    assert BoundaryKernelsFit(f, Window(n, len) / 2);
    var out := AveragesSpec(data, n, f).values;
    assert out[len - 1 - i] == EntryAt(data, Window(n, len), f, len - 1 - i);
  }

  /** The windows of the interior entries lie inside the signal. */
  lemma {:induction false} ConvolutionOfConstant(data: seq<real>, w: seq<real>, center: int, count: nat, c: real)
    requires count <= |w|
    requires forall t :: 0 <= t < |data| ==> data[t] == c
    requires 0 <= center - count + 1 && center < |data|
    ensures ConvolutionTerms(data, w, center, count) == c * Sum(w[..count])
  {
    if count > 0 {
      ConvolutionOfConstant(data, w, center, count - 1, c);
      assert w[..count][..count - 1] == w[..count - 1];
    }
  }

  /**
   * A normalized kernel leaves a constant signal unchanged: every entry of
   * `averages` of a constant series is that constant.
   */
  lemma AveragesKeepsConstant(data: seq<real>, n: int, f: Kernel, c: real)
    requires Normalized(f) && |data| > 0
    requires forall t :: 0 <= t < |data| ==> data[t] == c
    ensures AveragesSpec(data, n, f).Averaged?
    ensures forall m :: 0 <= m < |data| ==> AveragesSpec(data, n, f).values[m] == c
  {
    if n >= 2 {
      var len, window := |data|, Window(n, |data|);
      assert BoundaryKernelsFit(f, window / 2);
      var out := AveragesSpec(data, n, f).values;
      forall m | 0 <= m < len ensures out[m] == c {
        assert out[m] == EntryAt(data, window, f, m);
        if m < window / 2 {
          DotConstantLeft(data[..2 * m + 1], f(2 * m + 1), c);
        } else if m >= len - window / 2 {
          var j := 2 * (len - 1 - m) + 1;
          DotConstantLeft(data[len - j..], f(j), c);
        } else {
          var w := f(window);
          ConvolutionOfConstant(data, w, m + (window - 1) / 2, window, c);
          assert w[..window] == w;
        }
      }
    }
  }

  /** Both shipped kernels keep a constant altitude series constant. */
  lemma BinomAndMovingKeepConstant(data: seq<real>, n: int, c: real)
    requires |data| > 0
    requires forall t :: 0 <= t < |data| ==> data[t] == c
    ensures AveragesSpec(data, n, Binom).Averaged? && AveragesSpec(data, n, Moving).Averaged?
    ensures forall m :: 0 <= m < |data| ==>
              AveragesSpec(data, n, Binom).values[m] == c && AveragesSpec(data, n, Moving).values[m] == c
  {
    BinomNormalized();
    MovingNormalized();
    AveragesKeepsConstant(data, n, Binom, c);
    AveragesKeepsConstant(data, n, Moving, c);
  }
}
