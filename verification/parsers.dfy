/**
 * The flight object: reading an IGC log into its per-fix fields, the
 * per-fix distance cache and the turning-point search over it.
 */
module Parsers {
  import opened Common
  import opened Igc
  import opened TurningPoints

  /** What `calc_turning_points` returns, or the TypeError it raises when no route was ever found. */
  datatype Solution = Solved(distance: real, coords: seq<nat>) | NoRoute

  /** The flight name: the file name without a trailing ".igc". */
  function BaseName(fileName: string): (name: string)
    ensures name == fileName || name + ".igc" == fileName
  {
    if |fileName| >= 4 && fileName[|fileName| - 4..] == ".igc" then fileName[..|fileName| - 4] else fileName
  }

  /** Stripping the extension undoes appending it, and names without it are kept. */
  lemma BaseNameOfIgc(name: string, other: string)
    requires |other| < 4 || other[|other| - 4..] != ".igc"
    ensures BaseName(name + ".igc") == name
    ensures BaseName(other) == other
  {
    var full := name + ".igc";
    assert full[|full| - 4..] == ".igc";
    assert full[..|full| - 4] == name;
  }

  class Flight {
    var name: string
    var location: Option<string>
    var pilot: Option<string>
    var glider: Option<string>
    var date: Option<Date>
    var time: seq<Stamp>
    var lat: seq<real>
    var lon: seq<real>
    var gpsheight: seq<int>
    var barheight: seq<int>
    var datapoints: nat
    /** Rows of distances already computed, keyed by the fix they start from. */
    var distances: map<nat, seq<real>>
    /** The great-circle formula of `calc_FAI_distance` on (lat1, lon1, lat2, lon2) in degrees. */
    const fai: (real, real, real, real) -> real

    /** `calc_distance(i, j)` on the current fixes (0.0 off the track, which no caller asks for). */
    function Metric(): TurningPoints.Metric
      reads this`lat, this`lon
    {
      var la, lo, f := lat, lon, fai;
      (i: nat, j: nat) => if i < |la| && j < |la| && i < |lo| && j < |lo| then f(la[i], lo[i], la[j], lo[j]) else 0.0
    }

    /** The distances from fix i to every fix of the track. */
    function Row(i: nat): seq<real>
      reads this`lat, this`lon, this`datapoints
    {
      DistanceRow(Metric(), i, datapoints)
    }

    /**
     * The per-fix lists have one entry per fix, the track length does not
     * exceed them, and every cached row is the true row of a fix of the track.
     */
    ghost predicate Valid()
      reads this
    {
      && |time| == |lat| == |lon| == |barheight| == |gpsheight|
      && datapoints <= |lat|
      && forall i :: i in distances ==> i < datapoints && distances[i] == Row(i)
    }

    /** The fields `read_igc` writes, with the values of its two loop locals. */
    function State(days: nat, timeOld: Option<nat>): Reader
      reads this
    {
      Reader(date, location, pilot, glider, days, timeOld, time, lat, lon, barheight, gpsheight)
    }

    /** `__init__` up to its call of `read_igc`: empty fields and the name without ".igc". */
    constructor (fileName: string, fai: (real, real, real, real) -> real)
      ensures name == BaseName(fileName) && this.fai == fai
      ensures location == None && pilot == None && glider == None && date == None
      ensures time == [] && lat == [] && lon == [] && gpsheight == [] && barheight == []
      ensures datapoints == 0 && distances == map[]
      ensures Valid()
    {
      location, pilot, glider, date := None, None, None, None;
      if |fileName| >= 4 && fileName[|fileName| - 4..] == ".igc" {
        name := fileName[..|fileName| - 4];
      } else {
        name := fileName;
      }
      time, lat, lon, gpsheight, barheight := [], [], [], [], [];
      datapoints := 0;
      distances := map[];
      this.fai := fai;
    }

    /**
     * One pass of the `read_igc` loop: a B record appends a fix, a SITE,
     * PILOT or GLIDERTYPE header sets that field, an HFDTE header sets the
     * date, anything else is skipped; on an exception nothing is written.
     */
    method ReadLine(raw: string, days: nat, timeOld: Option<nat>) returns (error: Option<IgcError>, days': nat, timeOld': Option<nat>)
      modifies this`date, this`location, this`pilot, this`glider, this`time, this`lat, this`lon,
               this`barheight, this`gpsheight
      ensures var out := Step(old(State(days, timeOld)), raw);
              && (out.Read? ==> error == None && State(days', timeOld') == out.state)
              && (out.Raised? ==> error == Some(out.error) && State(days, timeOld) == out.state)
    {
      var line := Strip(raw);
      var fix := ParseB(line);
      if fix.Some? {
        error, days', timeOld' := ReadFix(fix.value, days, timeOld);
      } else {
        error := ReadHeader(line, days, timeOld);
        days', timeOld' := days, timeOld;
      }
    }

    /**
     * A B record: the time of day, moved past midnight when it falls before
     * the previous fix, is stamped with the flight date and the fix is
     * appended; a bad altitude or a missing date raises instead.
     */
    method ReadFix(b: BRecord, days: nat, timeOld: Option<nat>) returns (error: Option<IgcError>, days': nat, timeOld': Option<nat>)
      modifies this`time, this`lat, this`lon, this`barheight, this`gpsheight
      ensures var out := StepFix(old(State(days, timeOld)), b);
              && (out.Read? ==> error == None && State(days', timeOld') == out.state)
              && (out.Raised? ==> error == Some(out.error) && State(days, timeOld) == out.state)
    {
      error, days' := None, days;
      var t := days * 86400 + TimeOfDay(b);
      if timeOld.Some? && timeOld.value != 0 && t < timeOld.value {
        t := t + 86400;
        days' := days + 1;
      }
      timeOld' := Some(t);
      var baro := ParseInt(b.baro);
      var gps := ParseInt(b.gps);
      if baro.None? || gps.None? {
        return Some(BadAltitude), days, timeOld;
      }
      if date.None? {
        return Some(NoDate), days, timeOld;
      }
      time := time + [Stamp(date.value, t)];
      lat := lat + [Latitude(b)];
      lon := lon + [Longitude(b)];
      barheight := barheight + [baro.value];
      gpsheight := gpsheight + [gps.value];
    }

    /** A line that is not a B record: the header fields it sets, or the exception it raises. */
    method ReadHeader(line: string, days: nat, timeOld: Option<nat>) returns (error: Option<IgcError>)
      modifies this`date, this`location, this`pilot, this`glider
      ensures var out := StepHeader(old(State(days, timeOld)), line);
              && (out.Read? ==> error == None && State(days, timeOld) == out.state)
              && (out.Raised? ==> error == Some(out.error) && State(days, timeOld) == out.state)
    {
      error := None;
      if Contains(line, "HPSITSITE") {
        var v := AfterColon(line);
        if v.None? {
          return Some(MissingColon);
        }
        location := v;
      } else if Contains(line, "HOPLTPILOT") {
        var v := AfterColon(line);
        if v.None? {
          return Some(MissingColon);
        }
        pilot := v;
      } else if Contains(line, "HOGTYGLIDERTYPE") {
        var v := AfterColon(line);
        if v.None? {
          return Some(MissingColon);
        }
        glider := v;
      } else {
        var d := ParseDate(line);
        if d.Some? {
          if !ValidDate(d.value) {
            return Some(BadDate);
          }
          date := d;
        }
      }
    }

    /**
     * `read_igc`: the fields end as the line-by-line reading leaves them; on
     * success the track length is the number of fixes, and on an exception
     * the fields keep what the lines before it wrote.
     */
    method ReadIgc(lines: seq<string>) returns (error: Option<IgcError>)
      requires Valid() && distances == map[]
      modifies this`date, this`location, this`pilot, this`glider, this`time, this`lat, this`lon,
               this`barheight, this`gpsheight, this`datapoints
      ensures Valid()
      ensures var out := Run(Start(old(State(0, None))), lines);
              && State(0, None) == Start(out.state)
              && (out.Read? ==> error == None && datapoints == |lon|)
              && (out.Raised? ==> error == Some(out.error) && datapoints == old(datapoints))
    {
      ghost var s0 := Start(State(0, None));
      error := None;
      var days: nat := 0;
      var timeOld: Option<nat> := None;
      var k := 0;
      while k < |lines|
        invariant 0 <= k <= |lines|
        invariant Run(s0, lines[..k]) == Read(State(days, timeOld))
        invariant datapoints == old(datapoints) && distances == map[] && error == None
      {
        assert lines[..k + 1][..k] == lines[..k];
        error, days, timeOld := ReadLine(lines[k], days, timeOld);
        if error.Some? {
          RunStopsAtError(s0, lines, k + 1);
          RunAppendsOnePerBLine(s0, lines);
          return;
        }
        k := k + 1;
      }
      assert lines[..k] == lines;
      RunAppendsOnePerBLine(s0, lines);
      datapoints := |lon|;
    }

    /**
     * `get_distances(i)`: the row of distances from fix i, computed and
     * cached on the first request and served from the cache afterwards;
     * no other row is touched.
     */
    method GetDistances(i: nat) returns (row: seq<real>)
      requires Valid() && i < datapoints
      modifies this`distances
      ensures Valid()
      ensures row == Row(i)
      ensures distances == old(distances)[i := row]
      ensures i in old(distances) ==> distances == old(distances)
    {
      if i in distances {
        assert distances[i := distances[i]] == distances;
        return distances[i];
      }
      var m := Metric();
      var a := new real[datapoints](_ => 0.0);
      for n := 0 to datapoints
        invariant distances == old(distances)
        invariant forall t :: 0 <= t < n ==> a[t] == m(i, t)
      {
        a[n] := m(i, n);
      }
      assert a[..] == Row(i);
      distances := distances[i := a[..]];
      row := a[..];
    }

    /**
     * `calc_turning_point_distance`: the length of the route through coords,
     * read from the cached rows; the rows of the leg starts are cached afterwards.
     */
    method TurningPointDistance(coords: seq<nat>) returns (d: real)
      requires Valid() && forall k :: 0 <= k < |coords| ==> coords[k] < datapoints
      modifies this`distances
      ensures Valid()
      ensures d == LegSum(Metric(), coords)
      ensures distances.Keys == old(distances).Keys + Elements(LegStarts(coords))
    {
      d := 0.0;
      if |coords| == 0 {
        return;
      }
      ghost var m := Metric();
      for n := 0 to |coords| - 1
        invariant Valid() && m == Metric()
        invariant d == LegSum(m, coords[..n + 1])
        invariant distances.Keys == old(distances).Keys + Elements(coords[..n])
      {
        var i := coords[n];
        var j := coords[n + 1];
        var row := GetDistances(i);
        assert row[j] == m(i, j);
        assert coords[..n + 2][..n + 1] == coords[..n + 1];
        assert coords[..n + 1] == coords[..n] + [i];
        d := d + row[j];
      }
      assert coords[..|coords| - 1 + 1] == coords;
    }

    /**
     * `max_turning_points`: the scan over the combinations, in order,
     * starting from the incumbent route and distance.
     */
    method MaxTurningPoints(combos: seq<seq<nat>>, coords: Option<seq<nat>>, distance: real, count: nat) returns (best: Best)
      requires Valid()
      requires FixesBelow(combos, datapoints)
      modifies this`distances
      ensures Valid()
      ensures best == Scan(Metric(), count, Incumbent(coords, distance), combos)
      ensures old(distances).Keys <= distances.Keys
    {
      ghost var m := Metric();
      var bestCoords, bestDistance, changed := coords, distance, false;
      var keep: set<nat> := {};
      var data: set<nat> := {};
      for k := 0 to |combos|
        invariant Valid() && m == Metric()
        invariant Best(bestCoords, bestDistance, keep, data, changed) == Scan(m, count, Incumbent(coords, distance), combos[..k])
        invariant old(distances).Keys <= distances.Keys
      {
        var test := combos[k];
        assert combos[..k + 1][..k] == combos[..k];
        ghost var before := Best(bestCoords, bestDistance, keep, data, changed);
        data := data + Elements(test);
        var newDistance := TurningPointDistance(test);
        assert newDistance == LegSum(m, test);
        if newDistance > bestDistance {
          bestCoords := Some(test);
          changed := true;
          bestDistance := newDistance;
          assert Best(bestCoords, bestDistance, keep, data, changed) == ScanStep(m, count, before, test);
        } else if newDistance > Band(count) * bestDistance {
          ScanStepNearBest(m, count, before, test, newDistance, bestDistance);
          keep := keep + Elements(test);
        } else {
          ScanStepBelowBand(m, count, before, test, newDistance, bestDistance);
        }
      }
      assert combos[..|combos|] == combos;
      best := Best(bestCoords, bestDistance, keep, data, changed);
    }

    /**
     * One pass of the loop over the vertices in `calc_turning_points`: reads
     * the cached rows of vertex n and its neighbours and adds the fixes they
     * propose.
     */
    method ProposeAround(coords: seq<nat>, n: nat, iter: set<nat>) returns (result: set<nat>)
      requires Valid() && Route(coords, datapoints) && n < |coords|
      modifies this`distances
      ensures Valid()
      ensures result == iter + VertexCandidates(Metric(), datapoints, coords, n)
    {
      NeighboursOrdered(coords, n, datapoints);
      var i: nat, j: nat, k: nat;
      j := coords[n];
      if n == 0 {
        i, k := 0, coords[n + 1];
      } else if n == |coords| - 1 {
        i, k := coords[n - 1], datapoints - 1;
      } else {
        i, k := coords[n - 1], coords[n + 1];
      }
      assert i == Before(coords, n) && k == After(coords, n, datapoints);
      ghost var m := Metric();
      var distI := GetDistances(i);
      var distJ := GetDistances(j);
      var distK := GetDistances(k);
      assert m == Metric();
      RowProposalsAreCandidates(m, datapoints, coords, n, distI, distJ, distK);
      result := iter + RowProposals(distI, distJ, distK, n == 0, n == |coords| - 1, i, j, k);
    }

    /**
     * The body of the refinement loop of `calc_turning_points` up to the
     * stop test: `keep` plus the fixes proposed around every vertex.
     */
    method RefineCandidates(coords: seq<nat>, keep: set<nat>) returns (iter: set<nat>)
      requires Valid() && Route(coords, datapoints)
      modifies this`distances
      ensures Valid()
      ensures iter == keep + Candidates(Metric(), datapoints, coords, |coords|)
    {
      iter := keep;
      for n := 0 to |coords|
        invariant Valid()
        invariant iter == keep + Candidates(Metric(), datapoints, coords, n)
      {
        CandidatesStep(Metric(), datapoints, coords, n);
        iter := ProposeAround(coords, n, iter);
      }
    }

    /**
     * One round of the refinement loop of `calc_turning_points`: propose the
     * candidate fixes around the current route; stop when none of them is
     * new, otherwise rescan every combination of the sorted candidates.
     */
    method RefineRound(coords: seq<nat>, distance: real, keep: set<nat>, data: set<nat>, points: nat, count: nat)
      returns (stop: bool, best: Best)
      requires Valid() && Holds(Metric(), datapoints, points + 2, Some(coords), distance)
      requires forall x :: x in keep ==> x < datapoints
      modifies this`distances
      ensures Valid()
      ensures var iter := keep + Candidates(Metric(), datapoints, coords, |coords|);
              && (forall x :: x in iter ==> x < datapoints)
              && (stop <==> iter <= data)
              && (!stop ==> best == Scan(Metric(), count, Incumbent(Some(coords), distance),
                                         Combinations(SortedBelow(iter, datapoints), points + 2)))
      ensures !stop ==>
                && Holds(Metric(), datapoints, points + 2, best.coords, best.distance)
                && best.coords.Some? && best.distance >= distance
                && forall x :: x in best.keep ==> x < datapoints
    {
      var iter := RefineCandidates(coords, keep);
      forall x | x in iter
        ensures x < datapoints
      {
        if x !in keep {
          CandidatesOnTrack(Metric(), datapoints, coords, |coords|, x);
        }
      }
      if iter <= data {
        return true, Incumbent(Some(coords), distance);
      }
      RoundKeepsRoute(Metric(), datapoints, points, count, coords, distance, iter);
      best := MaxTurningPoints(Combinations(SortedBelow(iter, datapoints), points + 2), Some(coords), distance, count);
      stop := false;
    }

    /**
     * The `while` loop of `calc_turning_points`, entered with the result of
     * the seed scan and empty `keep` and `data`: it runs refinement rounds
     * while the last scan improved the route, at most `maxiter` of them. A
     * route it starts from or finds is kept: it never gets shorter and stays
     * a route of points + 2 vertices on the track.
     */
    method RefineLoop(coords: Option<seq<nat>>, distance: real, changed: bool, points: nat, maxiter: int)
      returns (coords': Option<seq<nat>>, distance': real)
      requires Valid() && Holds(Metric(), datapoints, points + 2, coords, distance)
      requires changed ==> coords.Some?
      modifies this`distances
      ensures Valid()
      ensures Holds(Metric(), datapoints, points + 2, coords', distance')
      ensures (coords'.Some? <==> coords.Some?) && distance' >= distance
    {
      ghost var m := Metric();
      var count := 0;
      var keep: set<nat> := {};
      var data: set<nat> := {};
      var more := changed;
      coords', distance' := coords, distance;
      while more && count < maxiter
        invariant Valid() && m == Metric()
        invariant Holds(m, datapoints, points + 2, coords', distance')
        invariant more ==> coords'.Some?
        invariant (coords'.Some? <==> coords.Some?) && distance' >= distance
        invariant forall x :: x in keep ==> x < datapoints
        decreases maxiter - count
      {
        var stop, best := RefineRound(coords'.value, distance', keep, data, points, count);
        if stop {
          break;
        }
        coords', distance', keep, data, more := best.coords, best.distance, best.keep, best.data, best.changed;
        count := count + 1;
      }
    }

    /**
     * `calc_turning_points`: seeds the search with every combination of
     * points + 2 evenly spaced fixes, then refines around the best route
     * until it stops improving, adds no new fix or runs out of rounds. The
     * route returned is ordered along the track, its length is its leg sum
     * and it is at least as long as every seed combination; no route exists
     * exactly when no seed combination is longer than -1.
     */
    method CalcTurningPoints(points: nat, guess: int, maxiter: int) returns (result: Solution)
      requires Valid() && 1 <= datapoints <= 65536
      modifies this`distances
      ensures Valid()
      ensures var seeds := Seeds(datapoints, points, guess);
              && (result.NoRoute? <==> forall k :: 0 <= k < |seeds| ==> LegSum(Metric(), seeds[k]) <= -1.0)
              && (result.Solved? ==>
                    && result.distance == LegSum(Metric(), result.coords)
                    && |result.coords| == points + 2
                    && Route(result.coords, datapoints)
                    && forall k :: 0 <= k < |seeds| ==> LegSum(Metric(), seeds[k]) <= result.distance)
    {
      var seeds := Seeds(datapoints, points, guess);
      SeedsAreRoutes(datapoints, points, guess);
      var best := MaxTurningPoints(seeds, None, -1.0, 0);
      ScanKeepsRoute(Metric(), datapoints, points + 2, 0, None, -1.0, seeds);
      var coords, distance := RefineLoop(best.coords, best.distance, best.changed, points, maxiter);
      if coords.None? {
        return NoRoute;
      }
      var total := TurningPointDistance(coords.value);
      return Solved(total, coords.value);
    }
  }
}
