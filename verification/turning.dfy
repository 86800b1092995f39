/**
 * The pure side of the turning-point search: leg sums, the enumeration of
 * index combinations, the evenly spaced seed pool, the argmax-based
 * refinement candidates and the scan that keeps the best combination.
 * Distances are exact reals given by a metric on fix indices.
 */
module TurningPoints {
  import opened Common
  import Smoothing

  /** Distance in metres between the fixes with the given indices. */
  type Metric = (nat, nat) -> real

  // ---------------------------------------------------------------------
  // Leg sums
  // ---------------------------------------------------------------------

  /** Sum of dist(coords[n], coords[n+1]) over consecutive pairs, added from the left. */
  function LegSum(dist: Metric, coords: seq<nat>): real
  {
    if |coords| < 2 then 0.0
    else LegSum(dist, coords[..|coords| - 1]) + dist(coords[|coords| - 2], coords[|coords| - 1])
  }

  /** Splitting a route at a shared vertex splits its length. */
  lemma {:induction false} LegSumSplit(dist: Metric, a: seq<nat>, b: seq<nat>)
    requires |a| > 0 && |b| > 0 && a[|a| - 1] == b[0]
    ensures LegSum(dist, a + b[1..]) == LegSum(dist, a) + LegSum(dist, b)
  {
    if |b| > 1 {
      var b' := b[..|b| - 1];
      LegSumSplit(dist, a, b');
      assert (a + b[1..])[..|a + b[1..]| - 1] == a + b'[1..];
      assert b'[|b'| - 1] == (a + b[1..])[|a + b[1..]| - 2];
    } else {
      assert a + b[1..] == a;
    }
  }

  /** A metric that is never negative gives routes of non-negative length. */
  lemma {:induction false} LegSumNonNegative(dist: Metric, coords: seq<nat>)
    requires forall i: nat, j: nat :: dist(i, j) >= 0.0
    ensures LegSum(dist, coords) >= 0.0
  {
    if |coords| >= 2 {
      LegSumNonNegative(dist, coords[..|coords| - 1]);
    }
  }

  function Reverse(s: seq<nat>): (r: seq<nat>)
    ensures |r| == |s|
    ensures forall k :: 0 <= k < |s| ==> r[k] == s[|s| - 1 - k]
  {
    if |s| == 0 then [] else [s[|s| - 1]] + Reverse(s[..|s| - 1])
  }

  /** Under a symmetric metric a route and its reverse have the same length. */
  lemma {:induction false} LegSumReverse(dist: Metric, coords: seq<nat>)
    requires forall i: nat, j: nat :: dist(i, j) == dist(j, i)
    ensures LegSum(dist, Reverse(coords)) == LegSum(dist, coords)
  {
    if |coords| >= 2 {
      var n := |coords|;
      var init := coords[..n - 1];
      LegSumReverse(dist, init);
      var r := Reverse(coords);
      assert r == [coords[n - 1]] + Reverse(init);
      LegSumSplit(dist, [coords[n - 1], coords[n - 2]], Reverse(init));
      assert [coords[n - 1], coords[n - 2]] + Reverse(init)[1..] == r;
      assert LegSum(dist, [coords[n - 1], coords[n - 2]]) == dist(coords[n - 1], coords[n - 2]) by {
        assert [coords[n - 1], coords[n - 2]][..1] == [coords[n - 1]];
      }
    }
  }

  // ---------------------------------------------------------------------
  // itertools.combinations
  // ---------------------------------------------------------------------

  function Prepend(x: nat, cs: seq<seq<nat>>): (r: seq<seq<nat>>)
    ensures |r| == |cs| && forall k :: 0 <= k < |cs| ==> r[k] == [x] + cs[k]
  {
    seq(|cs|, k requires 0 <= k < |cs| => [x] + cs[k])
  }

  /**
   * `combinations(pool, r)`: every choice of r positions of the pool, in
   * increasing position order, listed lexicographically by position.
   */
  function Combinations(pool: seq<nat>, r: nat): seq<seq<nat>>
    decreases |pool|
  {
    if r == 0 then [[]]
    else if |pool| < r then []
    else Prepend(pool[0], Combinations(pool[1..], r - 1)) + Combinations(pool[1..], r)
  }

  /** Every combination has exactly r entries. */
  lemma {:induction false} CombinationsLength(pool: seq<nat>, r: nat)
    ensures forall c :: c in Combinations(pool, r) ==> |c| == r
    decreases |pool|
  {
    if r > 0 && |pool| >= r {
      CombinationsLength(pool[1..], r - 1);
      CombinationsLength(pool[1..], r);
    }
  }

  /** Every entry of a combination is an entry of the pool. */
  lemma {:induction false} CombinationsFromPool(pool: seq<nat>, r: nat)
    ensures forall c, k :: c in Combinations(pool, r) && 0 <= k < |c| ==> c[k] in pool
    decreases |pool|
  {
    if r > 0 && |pool| >= r {
      var rest := pool[1..];
      CombinationsFromPool(rest, r - 1);
      CombinationsFromPool(rest, r);
      var tails := Combinations(rest, r - 1);
      forall c, k | c in Prepend(pool[0], tails) && 0 <= k < |c|
        ensures c[k] in pool
      {
        var i :| 0 <= i < |tails| && c == [pool[0]] + tails[i];
        if k > 0 {
          assert c[k] == tails[i][k - 1];
        }
      }
    }
  }

  /** The first entry of a non-decreasing pool is at most every later one. */
  lemma HeadAtMostRest(pool: seq<nat>)
    requires NonDecreasing(pool) && |pool| > 0
    ensures forall y :: y in pool[1..] ==> pool[0] <= y
  {
    forall y | y in pool[1..]
      ensures pool[0] <= y
    {
      var j :| 0 <= j < |pool| - 1 && pool[1..][j] == y;
      assert pool[j + 1] == y;
    }
  }

  /** The first entry of a strictly increasing pool is below every later one. */
  lemma HeadBelowRest(pool: seq<nat>)
    requires StrictlyIncreasing(pool) && |pool| > 0
    ensures forall y :: y in pool[1..] ==> pool[0] < y
  {
    forall y | y in pool[1..]
      ensures pool[0] < y
    {
      var j :| 0 <= j < |pool| - 1 && pool[1..][j] == y;
      assert pool[j + 1] == y;
    }
  }

  /** Putting an entry no larger than any other in front keeps a sequence non-decreasing. */
  lemma ConsNonDecreasing(x: nat, tail: seq<nat>)
    requires NonDecreasing(tail) && forall y :: y in tail ==> x <= y
    ensures NonDecreasing([x] + tail)
  {
    var c := [x] + tail;
    forall a, b | 0 <= a < b < |c|
      ensures c[a] <= c[b]
    {
      assert c[b] == tail[b - 1];
      if a > 0 {
        assert c[a] == tail[a - 1];
      } else {
        assert tail[b - 1] in tail;
      }
    }
  }

  /** Putting an entry below every other in front keeps a sequence strictly increasing. */
  lemma ConsStrictlyIncreasing(x: nat, tail: seq<nat>)
    requires StrictlyIncreasing(tail) && forall y :: y in tail ==> x < y
    ensures StrictlyIncreasing([x] + tail)
  {
    var c := [x] + tail;
    forall a, b | 0 <= a < b < |c|
      ensures c[a] < c[b]
    {
      assert c[b] == tail[b - 1];
      if a > 0 {
        assert c[a] == tail[a - 1];
      } else {
        assert tail[b - 1] in tail;
      }
    }
  }

  /** A non-decreasing pool gives non-decreasing combinations. */
  lemma {:induction false} CombinationsNonDecreasing(pool: seq<nat>, r: nat)
    requires NonDecreasing(pool)
    ensures forall c :: c in Combinations(pool, r) ==> NonDecreasing(c)
    decreases |pool|
  {
    if r > 0 && |pool| >= r {
      var rest := pool[1..];
      CombinationsNonDecreasing(rest, r - 1);
      CombinationsNonDecreasing(rest, r);
      CombinationsFromPool(rest, r - 1);
      HeadAtMostRest(pool);
      var tails := Combinations(rest, r - 1);
      forall c | c in Prepend(pool[0], tails)
        ensures NonDecreasing(c)
      {
        var i :| 0 <= i < |tails| && c == [pool[0]] + tails[i];
        assert tails[i] in tails;
        ConsNonDecreasing(pool[0], tails[i]);
      }
    }
  }

  /** A strictly increasing pool gives strictly increasing combinations. */
  lemma {:induction false} CombinationsStrictlyIncreasing(pool: seq<nat>, r: nat)
    requires StrictlyIncreasing(pool)
    ensures forall c :: c in Combinations(pool, r) ==> StrictlyIncreasing(c)
    decreases |pool|
  {
    if r > 0 && |pool| >= r {
      var rest := pool[1..];
      CombinationsStrictlyIncreasing(rest, r - 1);
      CombinationsStrictlyIncreasing(rest, r);
      CombinationsFromPool(rest, r - 1);
      HeadBelowRest(pool);
      var tails := Combinations(rest, r - 1);
      forall c | c in Prepend(pool[0], tails)
        ensures StrictlyIncreasing(c)
      {
        var i :| 0 <= i < |tails| && c == [pool[0]] + tails[i];
        assert tails[i] in tails;
        ConsStrictlyIncreasing(pool[0], tails[i]);
      }
    }
  }

  /** There are C(|pool|, r) combinations. */
  lemma {:induction false} CombinationsCount(pool: seq<nat>, r: nat)
    ensures |Combinations(pool, r)| == Smoothing.Choose(|pool|, r)
    decreases |pool|
  {
    if r > 0 && |pool| >= r {
      CombinationsCount(pool[1..], r - 1);
      CombinationsCount(pool[1..], r);
    } else if r > 0 {
      Smoothing.ChooseAbove(|pool|, r);
    }
  }

  /** A pool with at least r entries yields at least one combination. */
  lemma {:induction false} CombinationsNonEmpty(pool: seq<nat>, r: nat)
    requires r <= |pool|
    ensures |Combinations(pool, r)| > 0
    decreases |pool|
  {
    if r > 0 {
      CombinationsNonEmpty(pool[1..], r - 1);
    }
  }

  // ---------------------------------------------------------------------
  // The seed pool
  // ---------------------------------------------------------------------

  /** `np.uint16`: keeps the value modulo 2^16. */
  function UInt16(x: int): nat
  {
    x % 65536
  }

  /**
   * `np.uint16(np.arange(guess) * (datapoints - 1) / (guess - 1))` with
   * Python 2 floor division on the integer array.
   */
  function SeedPool(datapoints: nat, guess: nat): (pool: seq<nat>)
    requires datapoints >= 1 && guess >= 2
    ensures |pool| == guess
  {
    seq(guess, g requires 0 <= g < guess => UInt16(g * (datapoints - 1) / (guess - 1)))
  }

  lemma MulMonotone(a: nat, b: nat, c: nat)
    requires a <= b
    ensures a * c <= b * c
  {
  }

  lemma MulCancel(x: int, y: int, d: nat)
    requires d > 0 && x * d < y * d
    ensures x < y
  {
    if x >= y {
      MulMonotoneInt(y, x, d);
    }
  }

  lemma MulMonotoneInt(a: int, b: int, c: nat)
    requires a <= b
    ensures a * c <= b * c
  {
  }

  lemma DivMonotone(a: nat, b: nat, d: nat)
    requires a <= b && d > 0
    ensures a / d <= b / d
  {
    var qa, qb := a / d, b / d;
    assert qa * d <= a;
    assert b < (qb + 1) * d;
    MulCancel(qa, qb + 1, d);
  }

  lemma UInt16Small(x: int)
    requires 0 <= x < 65536
    ensures UInt16(x) == x
  {
  }

  /** floor(g n / d) never exceeds n for g <= d. */
  lemma ScaledAtMost(g: nat, n: nat, d: nat)
    requires 0 < d && g <= d
    ensures g * n / d <= n
  {
    MulMonotone(g, d, n);
    DivMonotone(g * n, d * n, d);
    Smoothing.DivExact(d * n, n, d);
  }

  /** Entry g of the seed pool is floor(g (N-1) / (guess-1)), below N: the uint16 cast changes nothing. */
  lemma SeedPoolEntries(datapoints: nat, guess: nat)
    requires 1 <= datapoints <= 65536 && guess >= 2
    ensures forall g :: 0 <= g < guess ==>
              SeedPool(datapoints, guess)[g] == g * (datapoints - 1) / (guess - 1) < datapoints
  {
    var n, d := datapoints - 1, guess - 1;
    forall g | 0 <= g < guess
      ensures SeedPool(datapoints, guess)[g] == g * n / d < datapoints
    {
      var x := g * n / d;
      ScaledAtMost(g, n, d);
      UInt16Small(x);
    }
  }

  /** The seed pool starts at the first fix and ends at the last one. */
  lemma SeedPoolEnds(datapoints: nat, guess: nat)
    requires 1 <= datapoints <= 65536 && guess >= 2
    ensures SeedPool(datapoints, guess)[0] == 0
    ensures SeedPool(datapoints, guess)[guess - 1] == datapoints - 1
  {
    SeedPoolEntries(datapoints, guess);
    var n, d := datapoints - 1, guess - 1;
    Smoothing.DivExact(d * n, n, d);
  }

  /** The seed pool never decreases, so its combinations follow the track. */
  lemma SeedPoolNonDecreasing(datapoints: nat, guess: nat)
    requires 1 <= datapoints <= 65536 && guess >= 2
    ensures NonDecreasing(SeedPool(datapoints, guess))
  {
    var pool := SeedPool(datapoints, guess);
    var n, d := datapoints - 1, guess - 1;
    SeedPoolEntries(datapoints, guess);
    forall a, b | 0 <= a < b < guess
      ensures pool[a] <= pool[b]
    {
      MulMonotone(a, b, n);
      DivMonotone(a * n, b * n, d);
    }
  }

  // ---------------------------------------------------------------------
  // Refinement candidates
  // ---------------------------------------------------------------------

  /** `np.argmax`: the first index holding the largest value. */
  function ArgMax(s: seq<real>): (k: nat)
    requires |s| > 0
    ensures k < |s|
  {
    if |s| == 1 then 0
    else
      var k := ArgMax(s[..|s| - 1]);
      if s[|s| - 1] > s[k] then |s| - 1 else k
  }

  /** One step of the scan: the last entry wins only when it beats the argmax of the others. */
  lemma ArgMaxStep(s: seq<real>, init: seq<real>)
    requires |s| > 1 && init == s[..|s| - 1]
    ensures ArgMax(s) == if s[|s| - 1] > s[ArgMax(init)] then |s| - 1 else ArgMax(init)
  {
  }

  /** The argmax holds the largest value, and every earlier index holds a smaller one. */
  lemma {:induction false} ArgMaxIsFirstMax(s: seq<real>)
    requires |s| > 0
    ensures forall t :: 0 <= t < |s| ==> s[t] <= s[ArgMax(s)]
    ensures forall t :: 0 <= t < ArgMax(s) ==> s[t] < s[ArgMax(s)]
  {
    if |s| > 1 {
      var init := s[..|s| - 1];
      ArgMaxIsFirstMax(init);
      assert forall t :: 0 <= t < |init| ==> s[t] == init[t];
    }
  }

  /** The two legs from vertex a to fix t and from t to vertex b. */
  function Via(dist: Metric, a: nat, b: nat, t: nat): real
  {
    dist(a, t) + dist(b, t)
  }

  /**
   * The fix in [lo, hi] best placed between vertices a and b: scanning from
   * lo, a later fix replaces the best so far only when it scores higher.
   */
  function Bridge(dist: Metric, a: nat, b: nat, lo: nat, hi: nat): (t: nat)
    requires lo <= hi
    ensures lo <= t <= hi
    decreases hi - lo
  {
    if hi == lo then lo
    else
      var t := Bridge(dist, a, b, lo, hi - 1);
      if Via(dist, a, b, hi) > Via(dist, a, b, t) then hi else t
  }

  /** The bridge maximises Via over [lo, hi], and is the first fix to do so. */
  lemma {:induction false} BridgeIsFirstMax(dist: Metric, a: nat, b: nat, lo: nat, hi: nat)
    requires lo <= hi
    ensures forall u: nat :: lo <= u <= hi ==> Via(dist, a, b, u) <= Via(dist, a, b, Bridge(dist, a, b, lo, hi))
    ensures forall u: nat :: lo <= u < Bridge(dist, a, b, lo, hi) ==> Via(dist, a, b, u) < Via(dist, a, b, Bridge(dist, a, b, lo, hi))
    decreases hi - lo
  {
    if hi > lo {
      BridgeIsFirstMax(dist, a, b, lo, hi - 1);
    }
  }

  /** The fix in [lo, hi] farthest from vertex a, scanning as for the bridge. */
  function Farthest(dist: Metric, a: nat, lo: nat, hi: nat): (t: nat)
    requires lo <= hi
    ensures lo <= t <= hi
    decreases hi - lo
  {
    if hi == lo then lo
    else
      var t := Farthest(dist, a, lo, hi - 1);
      if dist(a, hi) > dist(a, t) then hi else t
  }

  /** The farthest fix maximises dist(a, _) over [lo, hi], and is the first fix to do so. */
  lemma {:induction false} FarthestIsFirstMax(dist: Metric, a: nat, lo: nat, hi: nat)
    requires lo <= hi
    ensures forall u: nat :: lo <= u <= hi ==> dist(a, u) <= dist(a, Farthest(dist, a, lo, hi))
    ensures forall u: nat :: lo <= u < Farthest(dist, a, lo, hi) ==> dist(a, u) < dist(a, Farthest(dist, a, lo, hi))
    decreases hi - lo
  {
    if hi > lo {
      FarthestIsFirstMax(dist, a, lo, hi - 1);
    }
  }

  /** The cached row of distances from fix a to every fix of a track of n fixes. */
  function DistanceRow(dist: Metric, a: nat, n: nat): (row: seq<real>)
    ensures |row| == n
    ensures forall t :: 0 <= t < n ==> row[t] == dist(a, t)
  {
    seq(n, t requires 0 <= t < n => dist(a, t))
  }

  /** Argmax over the summed row slices [lo, hi] of a and b, as a track index. */
  function RowBridge(rowA: seq<real>, rowB: seq<real>, lo: nat, hi: nat): (t: nat)
    requires lo <= hi < |rowA| && |rowB| == |rowA|
    ensures lo <= t <= hi
  {
    ArgMax(AddVectors(rowA[lo..hi + 1], rowB[lo..hi + 1])) + lo
  }

  /** Argmax over the row slice [lo, hi] of a, as a track index. */
  function RowFarthest(rowA: seq<real>, lo: nat, hi: nat): (t: nat)
    requires lo <= hi < |rowA|
    ensures lo <= t <= hi
  {
    ArgMax(rowA[lo..hi + 1]) + lo
  }

  /** The argmax of the Via scores of [lo, hi], shifted by lo, is the bridge. */
  lemma {:induction false} ArgMaxIsBridge(dist: Metric, a: nat, b: nat, lo: nat, hi: nat, s: seq<real>)
    requires lo <= hi && |s| == hi - lo + 1
    requires forall u :: 0 <= u < |s| ==> s[u] == Via(dist, a, b, lo + u)
    ensures lo + ArgMax(s) == Bridge(dist, a, b, lo, hi)
    decreases hi - lo
  {
    if hi > lo {
      var init := s[..|s| - 1];
      ArgMaxIsBridge(dist, a, b, lo, hi - 1, init);
      ArgMaxStep(s, init);
      var t := Bridge(dist, a, b, lo, hi - 1);
      assert s[t - lo] == Via(dist, a, b, t);
    }
  }

  /** The argmax of the distances from a over [lo, hi], shifted by lo, is the farthest fix. */
  lemma {:induction false} ArgMaxIsFarthest(dist: Metric, a: nat, lo: nat, hi: nat, s: seq<real>)
    requires lo <= hi && |s| == hi - lo + 1
    requires forall u :: 0 <= u < |s| ==> s[u] == dist(a, lo + u)
    ensures lo + ArgMax(s) == Farthest(dist, a, lo, hi)
    decreases hi - lo
  {
    if hi > lo {
      var init := s[..|s| - 1];
      ArgMaxIsFarthest(dist, a, lo, hi - 1, init);
      ArgMaxStep(s, init);
      var t := Farthest(dist, a, lo, hi - 1);
      assert s[t - lo] == dist(a, t);
    }
  }

  /** Read from the true distance rows, the row argmax is the bridge. */
  lemma BridgeOfRows(dist: Metric, n: nat, rowA: seq<real>, rowB: seq<real>, a: nat, b: nat, lo: nat, hi: nat)
    requires lo <= hi < n
    requires rowA == DistanceRow(dist, a, n) && rowB == DistanceRow(dist, b, n)
    ensures RowBridge(rowA, rowB, lo, hi) == Bridge(dist, a, b, lo, hi)
  {
    var s := AddVectors(rowA[lo..hi + 1], rowB[lo..hi + 1]);
    forall u | 0 <= u < |s|
      ensures s[u] == Via(dist, a, b, lo + u)
    {
      assert s[u] == rowA[lo + u] + rowB[lo + u];
    }
    ArgMaxIsBridge(dist, a, b, lo, hi, s);
  }

  /** Read from the true distance row, the row argmax is the farthest fix. */
  lemma FarthestOfRow(dist: Metric, n: nat, rowA: seq<real>, a: nat, lo: nat, hi: nat)
    requires lo <= hi < n
    requires rowA == DistanceRow(dist, a, n)
    ensures RowFarthest(rowA, lo, hi) == Farthest(dist, a, lo, hi)
  {
    var s := rowA[lo..hi + 1];
    forall u | 0 <= u < |s|
      ensures s[u] == dist(a, lo + u)
    {
      assert s[u] == rowA[lo + u];
    }
    ArgMaxIsFarthest(dist, a, lo, hi, s);
  }

  /** A route of at least two vertices, ordered along the track and inside it. */
  predicate Route(coords: seq<nat>, datapoints: nat)
  {
    |coords| >= 2 && NonDecreasing(coords) && forall k :: 0 <= k < |coords| ==> coords[k] < datapoints
  }

  /** The previous vertex of vertex n, or the track start for the first one. */
  function Before(coords: seq<nat>, n: nat): nat
    requires n < |coords|
  {
    if n == 0 then 0 else coords[n - 1]
  }

  /** The next vertex of vertex n, or the track end for the last one. */
  function After(coords: seq<nat>, n: nat, datapoints: nat): nat
    requires n < |coords| && datapoints >= 1
  {
    if n == |coords| - 1 then datapoints - 1 else coords[n + 1]
  }

  /** A vertex lies between its neighbours, and its next neighbour is a fix of the track. */
  lemma NeighboursOrdered(coords: seq<nat>, n: nat, datapoints: nat)
    requires Route(coords, datapoints) && n < |coords|
    ensures datapoints >= 1
    ensures Before(coords, n) <= coords[n] <= After(coords, n, datapoints) < datapoints
  {
    assert coords[0] < datapoints;
    if n > 0 {
      assert coords[n - 1] <= coords[n];
    }
    if n < |coords| - 1 {
      assert coords[n] <= coords[n + 1];
    }
  }

  /**
   * The fixes proposed around vertex j with neighbours i and k: j itself, the
   * bridge between i and k, the farthest fix from the far neighbour when j is
   * the first vertex (or from the near one when it is the last), and the
   * bridges on either side of j when those stretches are not empty.
   */
  function Gather(i: nat, j: nat, k: nat, first: bool, last: bool,
                  around: nat, fromStart: nat, fromEnd: nat, left: nat, right: nat): set<nat>
  {
    {j, around}
    + (if first then {fromStart} else if last then {fromEnd} else {})
    + (if i < j then {left} else {})
    + (if j < k then {right} else {})
  }

  /** The candidates the refinement proposes around vertex n. */
  function VertexCandidates(dist: Metric, datapoints: nat, coords: seq<nat>, n: nat): set<nat>
    requires Route(coords, datapoints) && n < |coords|
  {
    NeighboursOrdered(coords, n, datapoints);
    var i, j, k := Before(coords, n), coords[n], After(coords, n, datapoints);
    Gather(i, j, k, n == 0, n == |coords| - 1,
           Bridge(dist, i, k, i, k), Farthest(dist, k, 0, k), Farthest(dist, i, i, k),
           Bridge(dist, i, j, i, j), Bridge(dist, j, k, j, k))
  }

  /**
   * The fixes proposed around a vertex, read from the cached rows of its
   * neighbours i, k and of itself j: argmax over row slices, shifted back to
   * track indices.
   */
  function RowProposals(distI: seq<real>, distJ: seq<real>, distK: seq<real>, first: bool, last: bool, i: nat, j: nat, k: nat): set<nat>
    requires i <= j <= k < |distI| && |distJ| == |distI| && |distK| == |distI|
  {
    Gather(i, j, k, first, last,
           RowBridge(distI, distK, i, k), RowFarthest(distK, 0, k), RowFarthest(distI, i, k),
           RowBridge(distI, distJ, i, j), RowBridge(distJ, distK, j, k))
  }

  /** Read from the true distance rows, the proposals are the vertex's candidates. */
  lemma RowProposalsAreCandidates(dist: Metric, datapoints: nat, coords: seq<nat>, n: nat,
                                  distI: seq<real>, distJ: seq<real>, distK: seq<real>)
    requires Route(coords, datapoints) && n < |coords|
    requires distI == DistanceRow(dist, Before(coords, n), datapoints)
    requires distJ == DistanceRow(dist, coords[n], datapoints)
    requires distK == DistanceRow(dist, After(coords, n, datapoints), datapoints)
    ensures Before(coords, n) <= coords[n] <= After(coords, n, datapoints) < datapoints
    ensures RowProposals(distI, distJ, distK, n == 0, n == |coords| - 1, Before(coords, n), coords[n], After(coords, n, datapoints))
            == VertexCandidates(dist, datapoints, coords, n)
  {
    NeighboursOrdered(coords, n, datapoints);
    var i, j, k := Before(coords, n), coords[n], After(coords, n, datapoints);
    BridgeOfRows(dist, datapoints, distI, distK, i, k, i, k);
    FarthestOfRow(dist, datapoints, distK, k, 0, k);
    FarthestOfRow(dist, datapoints, distI, i, i, k);
    BridgeOfRows(dist, datapoints, distI, distJ, i, j, i, j);
    BridgeOfRows(dist, datapoints, distJ, distK, j, k, j, k);
  }

  /** The candidate sets around vertices 0 .. upto-1, in vertex order. */
  function VertexCandidateSets(dist: Metric, datapoints: nat, coords: seq<nat>, upto: nat): (sets: seq<set<nat>>)
    requires Route(coords, datapoints) && upto <= |coords|
    ensures |sets| == upto
    ensures forall n :: 0 <= n < upto ==> sets[n] == VertexCandidates(dist, datapoints, coords, n)
  {
    seq(upto, n requires 0 <= n < upto => VertexCandidates(dist, datapoints, coords, n))
  }

  /** The candidates around vertices 0 .. upto-1. */
  function Candidates(dist: Metric, datapoints: nat, coords: seq<nat>, upto: nat): set<nat>
    requires Route(coords, datapoints) && upto <= |coords|
  {
    Union(VertexCandidateSets(dist, datapoints, coords, upto))
  }

  /** Moving to the next vertex adds the candidates around it. */
  lemma CandidatesStep(dist: Metric, datapoints: nat, coords: seq<nat>, n: nat)
    requires Route(coords, datapoints) && n < |coords|
    ensures Candidates(dist, datapoints, coords, n + 1)
            == Candidates(dist, datapoints, coords, n) + VertexCandidates(dist, datapoints, coords, n)
  {
    var sets := VertexCandidateSets(dist, datapoints, coords, n + 1);
    assert sets[..n] == VertexCandidateSets(dist, datapoints, coords, n);
  }

  /** Gathered proposals contain j and stay within [i, k] when every proposal does. */
  lemma GatherBetween(i: nat, j: nat, k: nat, first: bool, last: bool,
                      around: nat, fromStart: nat, fromEnd: nat, left: nat, right: nat)
    requires i <= j <= k && i <= around <= k && i <= left <= k && i <= right <= k
    requires first ==> i <= fromStart <= k
    requires !first && last ==> i <= fromEnd <= k
    ensures j in Gather(i, j, k, first, last, around, fromStart, fromEnd, left, right)
    ensures forall x :: x in Gather(i, j, k, first, last, around, fromStart, fromEnd, left, right) ==> i <= x <= k
  {
  }

  /**
   * Vertex n proposes itself, and every fix it proposes lies on the track
   * between its neighbours.
   */
  lemma VertexCandidatesBetween(dist: Metric, datapoints: nat, coords: seq<nat>, n: nat)
    requires Route(coords, datapoints) && n < |coords|
    ensures coords[n] in VertexCandidates(dist, datapoints, coords, n)
    ensures forall x :: x in VertexCandidates(dist, datapoints, coords, n) ==>
              Before(coords, n) <= x <= After(coords, n, datapoints) < datapoints
  {
    NeighboursOrdered(coords, n, datapoints);
    var i, j, k := Before(coords, n), coords[n], After(coords, n, datapoints);
    GatherBetween(i, j, k, n == 0, n == |coords| - 1,
                  Bridge(dist, i, k, i, k), Farthest(dist, k, 0, k), Farthest(dist, i, i, k),
                  Bridge(dist, i, j, i, j), Bridge(dist, j, k, j, k));
  }

  /** Every vertex of the route before upto is a candidate, so a round never loses the incumbent. */
  lemma VertexIsCandidate(dist: Metric, datapoints: nat, coords: seq<nat>, n: nat, upto: nat)
    requires Route(coords, datapoints) && n < upto <= |coords|
    ensures coords[n] in Candidates(dist, datapoints, coords, upto)
  {
    UnionCover(VertexCandidateSets(dist, datapoints, coords, upto), n);
    VertexCandidatesBetween(dist, datapoints, coords, n);
  }

  /** Every candidate is a fix of the track. */
  lemma CandidatesOnTrack(dist: Metric, datapoints: nat, coords: seq<nat>, upto: nat, x: nat)
    requires Route(coords, datapoints) && upto <= |coords|
    requires x in Candidates(dist, datapoints, coords, upto)
    ensures x < datapoints
  {
    var sets := VertexCandidateSets(dist, datapoints, coords, upto);
    UnionFrom(sets, x);
    var n :| 0 <= n < upto && x in sets[n];
    VertexCandidatesBetween(dist, datapoints, coords, n);
  }

  // ---------------------------------------------------------------------
  // The scan over combinations
  // ---------------------------------------------------------------------

  /** What `max_turning_points` returns. */
  datatype Best = Best(coords: Option<seq<nat>>, distance: real, keep: set<nat>, data: set<nat>, changed: bool)

  /** The near-best band 0.95 + 0.02 * count. */
  function Band(count: nat): real
  {
    0.95 + 0.02 * count as real
  }

  /** State before the first combination: the incumbent and empty sets. */
  function Incumbent(coords: Option<seq<nat>>, distance: real): Best
  {
    Best(coords, distance, {}, {}, false)
  }

  /** One iteration of the loop in `max_turning_points`. */
  function ScanStep(dist: Metric, count: nat, b: Best, c: seq<nat>): Best
  {
    var d := LegSum(dist, c);
    var data := b.data + Elements(c);
    if d > b.distance then b.(coords := Some(c), distance := d, data := data, changed := true)
    else if d > Band(count) * b.distance then b.(keep := b.keep + Elements(c), data := data)
    else b.(data := data)
  }

  /** A combination within the near-best band of the running best adds its fixes to `keep`. */
  lemma ScanStepNearBest(dist: Metric, count: nat, b: Best, c: seq<nat>, d: real, running: real)
    requires d == LegSum(dist, c) && running == b.distance
    requires !(d > running) && d > Band(count) * running
    ensures ScanStep(dist, count, b, c) == b.(keep := b.keep + Elements(c), data := b.data + Elements(c))
  {
  }

  /** A combination below the near-best band only adds its fixes to `data`. */
  lemma ScanStepBelowBand(dist: Metric, count: nat, b: Best, c: seq<nat>, d: real, running: real)
    requires d == LegSum(dist, c) && running == b.distance
    requires !(d > running) && !(d > Band(count) * running)
    ensures ScanStep(dist, count, b, c) == b.(data := b.data + Elements(c))
  {
  }

  /** `max_turning_points` over the given combinations, in order. */
  function Scan(dist: Metric, count: nat, start: Best, combos: seq<seq<nat>>): Best
  {
    if |combos| == 0 then start
    else ScanStep(dist, count, Scan(dist, count, start, combos[..|combos| - 1]), combos[|combos| - 1])
  }

  /**
   * The scan keeps the strict maximum: the result is at least the incoming
   * distance and every combination's leg sum, and it is one of them.
   */
  lemma {:induction false} ScanIsMaximum(dist: Metric, count: nat, start: Best, combos: seq<seq<nat>>)
    ensures var s := Scan(dist, count, start, combos);
            && s.distance >= start.distance
            && (forall k :: 0 <= k < |combos| ==> LegSum(dist, combos[k]) <= s.distance)
            && (s.distance == start.distance || exists k :: 0 <= k < |combos| && s.distance == LegSum(dist, combos[k]))
  {
    if |combos| > 0 {
      var init := combos[..|combos| - 1];
      ScanIsMaximum(dist, count, start, init);
      var s := Scan(dist, count, start, combos);
      forall k | 0 <= k < |combos| ensures LegSum(dist, combos[k]) <= s.distance {
        if k < |init| { assert combos[k] == init[k]; }
      }
      if s.distance != start.distance && s.distance != LegSum(dist, combos[|combos| - 1]) {
        var k :| 0 <= k < |init| && s.distance == LegSum(dist, init[k]);
        assert combos[k] == init[k];
      }
    }
  }

  /**
   * `changed` is set exactly when some combination beats the incoming
   * distance; then the returned coords are the first combination reaching
   * the returned distance, whose leg sum it is; otherwise the incumbent is
   * returned unchanged.
   */
  lemma {:induction false} ScanWinner(dist: Metric, count: nat, start: Best, combos: seq<seq<nat>>)
    requires !start.changed
    ensures var s := Scan(dist, count, start, combos);
            && (s.changed <==> exists k :: 0 <= k < |combos| && LegSum(dist, combos[k]) > start.distance)
            && (!s.changed ==> s.coords == start.coords && s.distance == start.distance)
            && (s.changed ==> exists k :: 0 <= k < |combos| && s.coords == Some(combos[k])
                                 && s.distance == LegSum(dist, combos[k])
                                 && forall k' :: 0 <= k' < k ==> LegSum(dist, combos[k']) < s.distance)
  {
    if |combos| > 0 {
      var n := |combos| - 1;
      var init := combos[..n];
      ScanWinner(dist, count, start, init);
      ScanIsMaximum(dist, count, start, init);
      var p := Scan(dist, count, start, init);
      var s := Scan(dist, count, start, combos);
      forall k | 0 <= k < n ensures combos[k] == init[k] { }
      if p.changed && s.distance == p.distance {
        var k :| 0 <= k < |init| && p.coords == Some(init[k]) && p.distance == LegSum(dist, init[k])
                 && forall k' :: 0 <= k' < k ==> LegSum(dist, init[k']) < p.distance;
        assert s.coords == Some(combos[k]);
      }
      if s.changed && s.distance != p.distance {
        forall k' | 0 <= k' < n ensures LegSum(dist, combos[k']) < s.distance {
          assert LegSum(dist, init[k']) <= p.distance;
        }
      }
    }
  }

  /** `data` is exactly the set of indices of all enumerated combinations. */
  lemma {:induction false} ScanData(dist: Metric, count: nat, start: Best, combos: seq<seq<nat>>)
    ensures forall x :: x in Scan(dist, count, start, combos).data <==>
              x in start.data || exists k :: 0 <= k < |combos| && x in combos[k]
  {
    if |combos| > 0 {
      var init := combos[..|combos| - 1];
      ScanData(dist, count, start, init);
      forall x | x in Scan(dist, count, start, combos).data
        ensures x in start.data || exists k :: 0 <= k < |combos| && x in combos[k]
      {
        if x !in start.data && x !in combos[|combos| - 1] {
          var k :| 0 <= k < |init| && x in init[k];
          assert combos[k] == init[k];
        }
      }
      forall x, k | 0 <= k < |combos| && x in combos[k]
        ensures x in Scan(dist, count, start, combos).data
      {
        if k < |init| { assert combos[k] == init[k]; }
      }
    }
  }

  /** Combination k did not beat the running best but came within the near-best band of it. */
  predicate NearBest(dist: Metric, count: nat, start: Best, combos: seq<seq<nat>>, k: nat)
    requires k < |combos|
  {
    var running := Scan(dist, count, start, combos[..k]).distance;
    Band(count) * running < LegSum(dist, combos[k]) <= running
  }

  lemma NearBestInPrefix(dist: Metric, count: nat, start: Best, combos: seq<seq<nat>>, m: nat, k: nat)
    requires k < m <= |combos|
    requires NearBest(dist, count, start, combos[..m], k)
    ensures NearBest(dist, count, start, combos, k)
  {
    assert combos[..m][..k] == combos[..k];
    assert combos[..m][k] == combos[k];
  }

  /** Whatever is kept was also enumerated. */
  lemma {:induction false} ScanKeepInData(dist: Metric, count: nat, start: Best, combos: seq<seq<nat>>)
    requires start.keep <= start.data
    ensures Scan(dist, count, start, combos).keep <= Scan(dist, count, start, combos).data
  {
    if |combos| > 0 {
      ScanKeepInData(dist, count, start, combos[..|combos| - 1]);
    }
  }

  /** An index enters `keep` only from a near-best combination. */
  lemma {:induction false} ScanKeepNearBest(dist: Metric, count: nat, start: Best, combos: seq<seq<nat>>)
    ensures forall x :: x in Scan(dist, count, start, combos).keep ==>
              x in start.keep || exists k :: 0 <= k < |combos| && x in combos[k] && NearBest(dist, count, start, combos, k)
  {
    if |combos| > 0 {
      var n := |combos| - 1;
      var init := combos[..n];
      ScanKeepNearBest(dist, count, start, init);
      var p := Scan(dist, count, start, init);
      forall x | x in Scan(dist, count, start, combos).keep && x !in start.keep
        ensures exists k :: 0 <= k < |combos| && x in combos[k] && NearBest(dist, count, start, combos, k)
      {
        if x in p.keep {
          var k :| 0 <= k < |init| && x in init[k] && NearBest(dist, count, start, init, k);
          NearBestInPrefix(dist, count, start, combos, n, k);
        } else {
          assert x in combos[n];
          assert NearBest(dist, count, start, combos, n);
        }
      }
    }
  }

  /** Every combination is a route of r vertices on a track of n fixes. */
  predicate Routes(combos: seq<seq<nat>>, n: nat, r: nat)
  {
    forall k :: 0 <= k < |combos| ==> |combos[k]| == r && Route(combos[k], n)
  }

  /** Every fix named by a combination lies on a track of n fixes. */
  predicate FixesBelow(combos: seq<seq<nat>>, n: nat)
  {
    forall c, k :: c in combos && 0 <= k < |c| ==> c[k] < n
  }

  /** Routes on the track name only fixes of the track. */
  lemma RoutesFixesBelow(combos: seq<seq<nat>>, n: nat, r: nat)
    requires Routes(combos, n, r)
    ensures FixesBelow(combos, n)
  {
    forall c, k | c in combos && 0 <= k < |c|
      ensures c[k] < n
    {
      var j :| 0 <= j < |combos| && combos[j] == c;
    }
  }

  /** A present route has r vertices, lies on the track and `distance` is its leg sum. */
  predicate Holds(dist: Metric, n: nat, r: nat, coords: Option<seq<nat>>, distance: real)
  {
    coords.Some? ==> |coords.value| == r && Route(coords.value, n) && distance == LegSum(dist, coords.value)
  }

  /** Combinations of at least two fixes from an ordered pool of fixes are routes. */
  lemma CombinationsAreRoutes(pool: seq<nat>, n: nat, r: nat)
    requires NonDecreasing(pool) && r >= 2
    requires forall k :: 0 <= k < |pool| ==> pool[k] < n
    ensures Routes(Combinations(pool, r), n, r)
  {
    var combos := Combinations(pool, r);
    CombinationsLength(pool, r);
    CombinationsFromPool(pool, r);
    CombinationsNonDecreasing(pool, r);
    forall k | 0 <= k < |combos|
      ensures |combos[k]| == r && Route(combos[k], n)
    {
      var c := combos[k];
      assert c in combos;
      forall t | 0 <= t < |c|
        ensures c[t] < n
      {
        assert c[t] in pool;
      }
    }
  }

  /** The seed combinations are routes of points + 2 vertices. */
  lemma SeedsAreRoutes(datapoints: nat, points: nat, guess: int)
    requires 1 <= datapoints <= 65536
    ensures Routes(Seeds(datapoints, points, guess), datapoints, points + 2)
    ensures FixesBelow(Seeds(datapoints, points, guess), datapoints)
  {
    var g := SeedCount(points, guess);
    SeedPoolEntries(datapoints, g);
    SeedPoolNonDecreasing(datapoints, g);
    CombinationsAreRoutes(SeedPool(datapoints, g), datapoints, points + 2);
    RoutesFixesBelow(Seeds(datapoints, points, guess), datapoints, points + 2);
  }

  /** The ascending candidate fixes give routes of r vertices. */
  lemma SortedCombinationsAreRoutes(candidates: set<nat>, n: nat, r: nat)
    requires r >= 2
    ensures Routes(Combinations(SortedBelow(candidates, n), r), n, r)
  {
    var pool := SortedBelow(candidates, n);
    assert NonDecreasing(pool);
    CombinationsAreRoutes(pool, n, r);
  }

  /**
   * Scanning routes from the incumbent keeps a route: the result holds a
   * route whenever the incumbent did or some combination beat the incoming
   * distance, it is at least as long as the incumbent and every combination,
   * and it keeps only fixes of the track.
   */
  lemma ScanKeepsRoute(dist: Metric, n: nat, r: nat, count: nat, coords: Option<seq<nat>>, distance: real, combos: seq<seq<nat>>)
    requires Routes(combos, n, r) && Holds(dist, n, r, coords, distance)
    ensures var s := Scan(dist, count, Incumbent(coords, distance), combos);
            && Holds(dist, n, r, s.coords, s.distance)
            && s.distance >= distance
            && (s.changed ==> s.coords.Some?)
            && (s.coords.Some? <==> coords.Some? || exists k :: 0 <= k < |combos| && LegSum(dist, combos[k]) > distance)
            && (forall k :: 0 <= k < |combos| ==> LegSum(dist, combos[k]) <= s.distance)
            && (forall x :: x in s.keep ==> x < n)
  {
    var start := Incumbent(coords, distance);
    var s := Scan(dist, count, start, combos);
    ScanIsMaximum(dist, count, start, combos);
    ScanWinner(dist, count, start, combos);
    ScanKeepNearBest(dist, count, start, combos);
    if s.changed {
      var k :| 0 <= k < |combos| && s.coords == Some(combos[k]) && s.distance == LegSum(dist, combos[k])
               && forall k' :: 0 <= k' < k ==> LegSum(dist, combos[k']) < s.distance;
    }
    forall x | x in s.keep
      ensures x < n
    {
      var k :| 0 <= k < |combos| && x in combos[k] && NearBest(dist, count, start, combos, k);
      var t :| 0 <= t < |combos[k]| && combos[k][t] == x;
    }
  }

  /**
   * A refinement round keeps a route: rescanning the sorted candidates
   * around the incumbent route returns a route of the same size, on the
   * track, no shorter than the incumbent, keeping only fixes of the track.
   */
  lemma RoundKeepsRoute(dist: Metric, n: nat, points: nat, count: nat, coords: seq<nat>, distance: real, candidates: set<nat>)
    requires Holds(dist, n, points + 2, Some(coords), distance)
    ensures FixesBelow(Combinations(SortedBelow(candidates, n), points + 2), n)
    ensures var s := Scan(dist, count, Incumbent(Some(coords), distance), Combinations(SortedBelow(candidates, n), points + 2));
            && Holds(dist, n, points + 2, s.coords, s.distance)
            && s.coords.Some? && s.distance >= distance
            && (forall x :: x in s.keep ==> x < n)
  {
    var combos := Combinations(SortedBelow(candidates, n), points + 2);
    SortedCombinationsAreRoutes(candidates, n, points + 2);
    RoutesFixesBelow(combos, n, points + 2);
    ScanKeepsRoute(dist, n, points + 2, count, Some(coords), distance, combos);
  }

  /** The vertices that start a leg: all but the last. */
  function LegStarts(coords: seq<nat>): (r: seq<nat>)
    ensures |coords| > 0 ==> r == coords[..|coords| - 1]
  {
    if |coords| == 0 then [] else coords[..|coords| - 1]
  }

  /** The number of fixes in the seed pool: `guess`, raised to points + 2 when smaller. */
  function SeedCount(points: nat, guess: int): (g: nat)
    ensures g >= points + 2 && (guess >= points + 2 ==> g == guess)
  {
    if guess < points + 2 then points + 2 else guess
  }

  /** The seed combinations `calc_turning_points` starts from. */
  function Seeds(datapoints: nat, points: nat, guess: int): seq<seq<nat>>
    requires datapoints >= 1
  {
    Combinations(SeedPool(datapoints, SeedCount(points, guess)), points + 2)
  }

  /**
   * With a metric that is never negative some seed combination beats the
   * initial distance of -1, so the search always finds a route.
   */
  lemma SeedsBeatSentinel(dist: Metric, datapoints: nat, points: nat, guess: int)
    requires datapoints >= 1
    requires forall i: nat, j: nat :: dist(i, j) >= 0.0
    ensures exists k :: 0 <= k < |Seeds(datapoints, points, guess)| && LegSum(dist, Seeds(datapoints, points, guess)[k]) > -1.0
  {
    var g := SeedCount(points, guess);
    CombinationsNonEmpty(SeedPool(datapoints, g), points + 2);
    LegSumNonNegative(dist, Seeds(datapoints, points, guess)[0]);
  }

  // ---------------------------------------------------------------------
  // sorted() of the candidate set
  // ---------------------------------------------------------------------

  /** `sorted(s)` for a set of indices below n: its members in ascending order. */
  function SortedBelow(s: set<nat>, n: nat): (r: seq<nat>)
    ensures StrictlyIncreasing(r)
    ensures forall x :: x in r <==> x in s && x < n
    ensures forall k :: 0 <= k < |r| ==> r[k] < n
  {
    if n == 0 then []
    else
      var r := SortedBelow(s, n - 1);
      if n - 1 in s then r + [n - 1] else r
  }
}
