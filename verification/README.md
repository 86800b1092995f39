# Paragliding flight logs: a verified model

This project models the core of a flight-log tool for paragliders. The tool
reads IGC flight-recorder files into a `Flight` object. It smooths the
sampled signals with weighted moving averages. It searches the track for the
turning points that give the longest route under the FAI rules. The model
has five modules:

- `Common`: options, sums, dot products and the ordering predicates shared
  by the other modules.
- `Smoothing`: `averages`, `moving` and `binom`. `averages` computes a
  "same"-mode convolution with the kernel `f(N)` and then rewrites the
  first and last `N/2` entries with the shrinking odd kernels `f(1)`,
  `f(3)`, and so on. `Smoothing.Averages` keeps the boundary loop as an
  in-place loop over an array.
- `Igc`: reading an IGC file line by line.
  - B records are fixes: time of day, latitude, longitude, validity, and
    barometric and GPS altitude.
  - It also reads the date, site, pilot and glider headers.
  - Day rollover: a fix earlier than the one before it starts a new day.
  - Each line is one step of a fold (`Igc.Step`). A whole file is `Igc.Run`.
  - Times are whole seconds. Coordinates are exact reals.
- `TurningPoints`: the specification of the turning-point search.
  - Leg sums of routes and ordered combinations (`itertools.combinations`).
  - The evenly spaced seed pool, stored as unsigned 16-bit integers.
  - First-index argmax.
  - The refinement candidates proposed around each vertex of a route.
  - The scan that keeps the strictly best combination, the near-best
    indices and every index it touched.
- `Parsers`: the `Flight` class. Its fields are updated in place.
  - It reads the lines into the per-fix sequences.
  - It holds the cache of distance rows (`distances`, a map from a fix to
    its row).
  - It has the search methods, each proved against the `TurningPoints`
    specification.

The great-circle distance (`calc_FAI_distance`) is not modelled. It enters
as a function parameter `fai` of the `Flight` constructor, and
`Flight.Metric()` applies it to the stored coordinates. The properties of
the search hold for any distance function. Where a property needs
non-negative or symmetric distances, it says so in its `requires`.

All source files are Python 2. The integer `/` in `N / 2` and in the seed
pool is floor division. Both operands are non-negative there, so Dafny's
`/` agrees with it.

`averages`, `moving` and `binom` are defined in `paragliding/utils.py` and
imported by `paragliding/parsers.py`. `track.py` holds an older copy of them
and of `Flight.read_igc`.
- The smoothing copies compute the same values, so one definition models both.
- The `read_igc` copies read every line the same way, so the line-level
  model in `Igc` covers both. The copy in `track.py` differs in three ways:
  - it stores longitudes in `long` rather than `lon`;
  - it prints unrecognised lines instead of logging them;
  - it never sets `datapoints` or `datarange` and does not close the file.
- So the `datapoints` clause of `Parsers.Flight.ReadIgc` describes only the
  copy in the package.

Lines are byte strings whose characters are their latin1 code points,
because `read_igc` decodes each line from latin1. Stripping happens in two
places:
- The whole line is stripped before it is decoded, removing ASCII
  whitespace only (`Igc.Strip`).
- A header value is stripped after decoding. That strip also removes
  U+001C to U+001F, U+0085 and U+00A0 (`Igc.StripText`).

## Model

| member | source | states |
|---|---|---|
| Smoothing.Averages | paragliding/utils.py:10-34 | The result is exactly the entry-wise specification `AveragesSpec`. A window below 2 returns the data unchanged. A successful result has as many entries as the data. A kernel of the wrong length aborts (`exit()`). A boundary kernel that numpy cannot multiply is an error. |
| Smoothing.RewriteBoundary | track.py:295-299 | The boundary loop in place, as in both copies (`paragliding/utils.py:28-32` is the same loop). For each i < N/2, entry i becomes the weighted sum of the first 2i+1 samples under f(2i+1), and entry len-1-i the weighted sum of the last 2i+1. Every entry in between keeps its convolution value. It reports failure exactly when some boundary kernel does not broadcast. |
| Smoothing.AveragesBoundary | paragliding/utils.py:28-32 | For every i below half the clamped window, output entry i is the dot product of the first 2i+1 samples with f(2i+1), and entry len-1-i the dot product of the last 2i+1 samples with it. |
| Smoothing.AveragesKeepsConstant | track.py:285-300 | For the `averages` of both copies and any kernel family whose kernels have the requested length and sum to 1, a constant signal is returned unchanged, entry for entry, including the boundary entries and every clamped window. |
| Smoothing.BinomAndMovingKeepConstant | paragliding/utils.py:37-44 | Smoothing a constant signal with `binom` or with `moving` returns it unchanged. |
| Smoothing.Moving | paragliding/utils.py:37-38 | `moving(N)` has N entries, each 1/N. Its partner lemmas `MovingSumsToOne` and `MovingNormalized` prove that the entries sum to 1. |
| Smoothing.Binom | paragliding/utils.py:41-44 | `binom(N)` has N entries, each the factorial quotient over 2^(N-1). `BinomEntry`, `BinomSymmetric` and `BinomSumsToOne` prove the closed form, the symmetry and the sum. |
| Smoothing.MovingSumsToOne | paragliding/utils.py:37-38 | The N weights of `moving(N)` sum to 1. |
| Smoothing.MovingNormalized | track.py:279-280 | `moving(N)` has N entries that sum to 1, for every N > 0. |
| Smoothing.FactorialQuotientIsChoose | paragliding/utils.py:43 | The factorial quotient (N-1)!/i!/(N-1-i)!, with floor divisions, is exactly the binomial coefficient C(N-1, i). |
| Smoothing.BinomEntry | paragliding/utils.py:41-44 | Entry i of `binom(N)` is C(N-1, i) / 2^(N-1). |
| Smoothing.BinomSymmetric | paragliding/utils.py:41-44 | `binom(N)` is symmetric: entry i equals entry N-1-i. |
| Smoothing.BinomSumsToOne | paragliding/utils.py:41-44 | The weights of `binom(N)` sum to 1. |
| Smoothing.BinomNormalized | track.py:282-283 | `binom(N)` has N entries that sum to 1, for every N > 0. |
| Smoothing.RowSumIsPow2 | paragliding/utils.py:43 | The binomial coefficients of row n sum to 2^n, the divisor in `binom`. |
| Smoothing.ChooseSymmetric | paragliding/utils.py:43 | C(n, k) = C(n, n-k). |
| Igc.ParseInt | paragliding/parsers.py:186-187 | `int()` of a five-character altitude group: an optional leading '-' followed by digits gives the signed value. Any other arrangement of digits and '-' is the ValueError that `Igc.StepFix` raises as `BadAltitude`. `AltitudeRoundTrip` and `AltitudeGroupRead` prove this in both directions. |
| Igc.AltitudeRoundTrip | paragliding/parsers.py:186-187 | Every altitude from -9999 to 99999, written as a zero-padded five-character group with a leading '-' when negative, reads back as itself. |
| Igc.AltitudeGroupRead | paragliding/parsers.py:186-187 | Conversely, a five-character group of digits and '-' that `int()` accepts is the written group of its value, or "-0000". So every other arrangement raises ValueError. |
| Igc.ParseB | paragliding/parsers.py:168-170 | The B-record pattern matched at the start of the stripped line, giving its twelve groups as numbers and flags. `ParseFormatRoundTrip` and `FormatParseRoundTrip` prove it inverse to `FormatB`. |
| Igc.StepFix | paragliding/parsers.py:170-194 | One B record: the time with day rollover, the signed coordinates and the altitudes are appended to the five per-fix lists, or the line raises. `BLineAppendsFix`, `StepFixKeepsRollover` and `StepAppendsOnePerBLine` state its effect. |
| Igc.StepHeader | paragliding/parsers.py:196-215 | Any other line: a SITE, PILOT or GLIDERTYPE header, an HFDTE date, or nothing. `HeaderValues` and `StepHeaderKeepsTrack` state its effect. |
| Igc.Step | paragliding/parsers.py:165-215 | One pass of the loop: strip the line, then treat it as a fix if the B pattern matches and as a header otherwise. |
| Igc.Run | paragliding/parsers.py:165-215 | The loop over all lines, stopping at the first exception. `RunStopsAtError`, `RunAppendsOnePerBLine` and `RunKeepsRollover` state its properties. |
| Igc.ColonIndex | paragliding/parsers.py:197 | Returns the first ':' of the line when there is one, and reports none exactly when the line has no ':'. |
| Igc.StripLeftRemovesSpace | paragliding/parsers.py:166 | The left strip removes only whitespace, and what it keeps is a suffix that does not start with whitespace. |
| Igc.StripRightRemovesSpace | paragliding/parsers.py:166 | The right strip removes only whitespace, and what it keeps is a prefix that does not end with whitespace. |
| Igc.StripTrims | paragliding/parsers.py:197-205 | Stripping, with the byte or the latin1 text whitespace rule, returns the slice s[a..b] where everything before a and from b on is whitespace and the slice neither starts nor ends with whitespace: exactly the surrounding whitespace is removed. |
| Igc.ParseFormatRoundTrip | paragliding/parsers.py:168 | The B-record pattern recovers every field of a well-formed record from its fixed-width text, whatever follows the 35 matched characters. |
| Igc.FormatParseRoundTrip | track.py:161 | Every match yields a well-formed record, and formatting that record gives back the 35 matched characters. |
| Igc.ValueRoundTrip | paragliding/parsers.py:168 | A digit group read as a number and written back at the same width is unchanged. |
| Igc.BLineAppendsFix | paragliding/parsers.py:168-194 | A B line appends exactly one fix. Its time is days*86400 + HH*3600 + MM*60 + SS, plus one day and a day-counter increment when it is earlier than the previous fix. Its latitude is DD + MMmmm/60000, negated for 'S'. Its longitude is DDD + MMmmm/60000, negated for 'W'. Group 11 is the barometric altitude and group 12 the GPS altitude. |
| Igc.LatitudeNotRangeChecked | paragliding/parsers.py:178-180 | Every well-formed B line with latitude degrees of 91 or more is accepted with those degrees, and its latitude lies outside [-90, 90]: the reader checks digits only, not ranges. |
| Igc.StepAppendsOnePerBLine | track.py:158-208 | One line appends one entry to each of the five per-fix lists if it is a B record that reads without error, and nothing otherwise. Entries already stored are kept. |
| Igc.StepHeaderKeepsTrack | track.py:189-208 | A non-B line leaves the fixes, the day counter and the previous time unchanged. |
| Igc.HeaderValues | paragliding/parsers.py:196-212 | Location, pilot and glider change only on a line naming their header (HPSITSITE, HOPLTPILOT, HOGTYGLIDERTYPE), and the stored value has no surrounding whitespace under the latin1 text rule (U+0085, U+00A0 and U+001C to U+001F count as whitespace). A SITE header without ':' raises IndexError. A date header stores only a valid date of the years 2000-2099. An exception leaves every field as it was. `HeaderTextStored` and `HeaderDateStored` state the stored values. |
| Igc.HeaderTextStored | paragliding/parsers.py:196-206 | On a line with a ':' at position k and none before it, the first of HPSITSITE, HOPLTPILOT and HOGTYGLIDERTYPE named on the line gets the stripped text after position k, and nothing else changes. |
| Igc.ParseDateDigits | paragliding/parsers.py:207-209 | "HFDTE" followed by digit pairs DD, MM, YY gives the date (2000+YY, MM, DD). |
| Igc.HeaderDateStored | paragliding/parsers.py:207-211 | On a line naming no text header, an HFDTE line with digits DDMMYY stores the date (2000+YY, MM, DD) when `datetime` accepts it, and raises ValueError otherwise. Every other such line changes nothing. |
| Igc.RunAppendsOnePerBLine | paragliding/parsers.py:165-222 | The five per-fix lists stay the same length. A complete read appends exactly one fix per B line, so `datapoints` equals the number of B lines. A read that raises appends no more than that. |
| Igc.RunStopsAtError | paragliding/parsers.py:165-215 | An exception on a line ends the read: later lines change nothing. |
| Igc.StepFixKeepsRollover | paragliding/parsers.py:172-176 | For a time of day below 24h, one fix keeps the rollover invariant. The stored offsets are non-decreasing, the last one is the previous time, and that time lies within the current day. |
| Igc.StepKeepsRollover | paragliding/parsers.py:165-215 | Any line keeps the rollover invariant when its fix time of day is below 24h. |
| Igc.RunKeepsRollover | paragliding/parsers.py:165-215 | Reading any lines whose fix times of day are below 24h keeps the rollover invariant. |
| Igc.RunTimesNonDecreasing | track.py:165-169 | From an empty track, when every fix has a time of day below 24h, the offsets of the stored fix times (seconds since the header date) never decrease, even across midnight. The stored time is the header date plus this offset, so it never decreases while only one HFDTE header has been read. |
| Parsers.BaseName | paragliding/parsers.py:92-95 | The flight name is either the file name itself or the file name minus a trailing ".igc". |
| Parsers.BaseNameOfIgc | paragliding/parsers.py:92-95 | The flight name is the file name without a trailing ".igc". Names without that suffix are kept as they are. |
| Parsers.Flight.constructor | paragliding/parsers.py:85-105 | A new flight has no location, pilot, glider or date. It has empty per-fix lists, zero data points and an empty distance cache. Its name is the base name. |
| Parsers.Flight.ReadFix | paragliding/parsers.py:168-194 | Updates the per-fix fields and returns the day counter and previous time exactly as `Igc.StepFix` specifies. On an exception nothing is written. |
| Parsers.Flight.ReadHeader | paragliding/parsers.py:196-215 | Updates the date, location, pilot and glider exactly as `Igc.StepHeader` specifies. On an exception nothing is written. |
| Parsers.Flight.ReadLine | track.py:158-208 | One loop pass over a line changes the flight's fields, and returns the loop locals, exactly as `Igc.Step` specifies. |
| Parsers.Flight.ReadIgc | paragliding/parsers.py:152-225 | After reading, the flight's fields are what `Igc.Run` computes from its fields before reading. On success `datapoints` is the number of fixes, and on an exception the error is returned. The cache stays valid. |
| Parsers.Flight.GetDistances | paragliding/parsers.py:463-469 | Returns the row of distances from fix i to every fix. On a miss it stores that row under i. On a hit it returns the stored row and changes nothing. No other key's row is touched, and every cached row stays the true row. |
| Parsers.Flight.TurningPointDistance | paragliding/parsers.py:436-442 | Returns the sum of the distances between consecutive coords: 0 for fewer than two. Afterwards the rows of exactly the leg starts have been added to the cache. |
| TurningPoints.DistanceRow | paragliding/parsers.py:466-468 | A row has one entry per fix, and entry n is the distance from the row's fix to n. |
| TurningPoints.LegSum | paragliding/parsers.py:436-442 | The sum of dist(coords[n], coords[n+1]) over consecutive pairs, 0 for fewer than two coords. `Parsers.Flight.TurningPointDistance` is proved to compute it. |
| TurningPoints.LegSumSplit | paragliding/parsers.py:436-442 | The length of two routes joined at a shared vertex is the sum of their lengths. |
| TurningPoints.LegSumNonNegative | paragliding/parsers.py:436-442 | With non-negative distances, a route length is non-negative. |
| TurningPoints.LegSumReverse | paragliding/parsers.py:436-442 | With a symmetric distance, a route and its reverse have the same length. |
| Parsers.Flight.MaxTurningPoints | paragliding/parsers.py:353-371 | The loop returns exactly the specified scan over the combinations, in order, starting from the incumbent route and distance. Cached rows are kept. |
| TurningPoints.ScanStep | paragliding/parsers.py:359-369 | One iteration of the scan: the combination's indices join `data`, a strictly longer combination replaces the incumbent and sets `changed`, and otherwise one inside the band adds its indices to `keep`. |
| TurningPoints.Scan | paragliding/parsers.py:357-371 | The scan over all combinations in order. `ScanIsMaximum`, `ScanWinner`, `ScanData`, `ScanKeepNearBest` and `ScanKeepInData` state its properties. |
| TurningPoints.ScanIsMaximum | paragliding/parsers.py:357-371 | The returned distance is at least the incoming one and every combination's length. It is either the incoming distance or the length of some combination. |
| TurningPoints.ScanWinner | paragliding/parsers.py:363-366 | `changed` is true exactly when some combination beats the incoming distance. Then the returned route is the first combination of maximal length: ties keep the earlier one, because the comparison is strict. Otherwise the incumbent is returned unchanged. |
| TurningPoints.ScanData | paragliding/parsers.py:359-360 | `data` is exactly the set of indices of every enumerated combination. |
| TurningPoints.ScanKeepNearBest | paragliding/parsers.py:367-369 | Every index in `keep` comes from a combination that failed to beat the running best and was inside the band at its turn. |
| TurningPoints.ScanKeepInData | paragliding/parsers.py:359-369 | `keep` is a subset of `data`. |
| TurningPoints.Combinations | paragliding/parsers.py:377-380 | `itertools.combinations(pool, r)`: the r-element selections by increasing position, in lexicographic order of positions. `CombinationsLength`, `CombinationsFromPool`, `CombinationsCount` and the ordering lemmas state its properties. |
| TurningPoints.CombinationsLength | paragliding/parsers.py:377-380 | Every combination of r elements has length r. |
| TurningPoints.CombinationsFromPool | paragliding/parsers.py:377-380 | Every element of a combination is drawn from the pool. |
| TurningPoints.CombinationsNonDecreasing | paragliding/parsers.py:377-380 | Combinations of a non-decreasing pool are non-decreasing. |
| TurningPoints.CombinationsStrictlyIncreasing | paragliding/parsers.py:429-431 | Combinations of a sorted pool of distinct indices are strictly increasing. |
| TurningPoints.CombinationsCount | paragliding/parsers.py:377-380 | There are C(n, r) combinations of a pool of n entries. |
| TurningPoints.CombinationsNonEmpty | paragliding/parsers.py:377-380 | When r is at most the pool size, there is at least one combination. |
| TurningPoints.SeedCount | paragliding/parsers.py:375-376 | The number of seed indices is at least points+2, and it is `guess` when `guess` is already that large. |
| TurningPoints.SeedPool | paragliding/parsers.py:379 | The seed pool has `guess` entries. |
| TurningPoints.UInt16Small | paragliding/parsers.py:379 | The unsigned 16-bit conversion leaves values below 65536 unchanged. |
| TurningPoints.SeedPoolEntries | paragliding/parsers.py:379 | Seed entry g is floor(g*(N-1)/(guess-1)), a fix of the track, for tracks of at most 65536 fixes. |
| TurningPoints.SeedPoolEnds | paragliding/parsers.py:379 | The seed pool starts at fix 0 and ends at fix N-1. |
| TurningPoints.SeedPoolNonDecreasing | paragliding/parsers.py:379 | The seed pool is non-decreasing. |
| TurningPoints.SeedsAreRoutes | paragliding/parsers.py:377-381 | Every seed combination is a non-decreasing route of points+2 fixes of the track. |
| TurningPoints.SeedsBeatSentinel | paragliding/parsers.py:353 | With non-negative distances, some seed combination beats the initial distance -1, so the seed scan always finds a route. |
| TurningPoints.ArgMax | paragliding/parsers.py:406 | `argmax` returns an index of its argument. |
| TurningPoints.ArgMaxIsFirstMax | paragliding/parsers.py:406 | `argmax` is the first index of the maximum: nothing is larger, and everything before it is smaller. |
| TurningPoints.Bridge | paragliding/parsers.py:406 | The index that maximises the distance through it from i to k lies in [i, k]. |
| TurningPoints.BridgeIsFirstMax | paragliding/parsers.py:406 | The bridge index maximises dist(a, t) + dist(b, t) over [lo, hi], and every earlier index is strictly worse. |
| TurningPoints.Farthest | paragliding/parsers.py:410 | The index farthest from a fix, within an interval, lies in that interval. |
| TurningPoints.FarthestIsFirstMax | paragliding/parsers.py:410-414 | The farthest index maximises dist(a, t) over [lo, hi], and every earlier index is strictly closer. |
| TurningPoints.ArgMaxIsBridge | paragliding/parsers.py:406 | Argmax over the summed row slices, shifted by the slice start, is the bridge index. |
| TurningPoints.ArgMaxIsFarthest | paragliding/parsers.py:410-414 | Argmax over one row slice, shifted by the slice start, is the farthest index. |
| TurningPoints.BridgeOfRows | paragliding/parsers.py:406-421 | The argmax computed on cached rows equals the bridge of the interval. |
| TurningPoints.FarthestOfRow | paragliding/parsers.py:410-414 | The argmax computed on a cached row equals the farthest index of the interval. |
| TurningPoints.NeighboursOrdered | paragliding/parsers.py:387-398 | For a route, the neighbours chosen for vertex n satisfy i <= j <= k < N: the fix before it (0 for the first vertex) and the fix after it (N-1 for the last vertex). |
| TurningPoints.RowProposalsAreCandidates | paragliding/parsers.py:400-422 | The fixes proposed from the three cached rows are exactly the specified candidates of that vertex. |
| TurningPoints.VertexCandidatesBetween | paragliding/parsers.py:404-422 | The vertex itself is always proposed. Every proposal lies between the vertex's neighbours i and k. |
| TurningPoints.CandidatesStep | paragliding/parsers.py:387-422 | The candidates of the first n+1 vertices are those of the first n plus those of vertex n. |
| TurningPoints.VertexIsCandidate | paragliding/parsers.py:404 | Every vertex of the current route is a candidate of the next round. |
| TurningPoints.CandidatesOnTrack | paragliding/parsers.py:404-422 | Every candidate is a fix of the track. |
| TurningPoints.SortedBelow | paragliding/parsers.py:430 | Sorting the candidates gives a strictly increasing sequence of exactly the candidates below N. |
| TurningPoints.SortedCombinationsAreRoutes | paragliding/parsers.py:430 | Every combination of the sorted candidates is a route of points+2 fixes. |
| TurningPoints.CombinationsAreRoutes | paragliding/parsers.py:377-380 | Combinations of a non-decreasing pool of track fixes are routes. |
| TurningPoints.ScanKeepsRoute | paragliding/parsers.py:429-431 | A scan over routes keeps the pair (route, distance) consistent: the distance is the route's length. The distance never decreases. A route exists afterwards exactly when one existed before or some combination beat the distance. Every combination is at most the result. `keep` holds only fixes of the track. |
| TurningPoints.RoundKeepsRoute | paragliding/parsers.py:424-431 | A refinement round, whatever the candidates, returns a route whose length is its distance, and that distance is no smaller than before. |
| Parsers.Flight.ProposeAround | paragliding/parsers.py:387-422 | One pass over a vertex adds exactly that vertex's candidates to the proposal set. |
| Parsers.Flight.RefineCandidates | paragliding/parsers.py:386-422 | The proposal set after the vertex loop is `keep` plus the candidates of every vertex of the route. |
| Parsers.Flight.RefineRound | paragliding/parsers.py:386-432 | Given `keep` within the track, every proposal is a fix of the track, so dropping indices at or beyond N before sorting drops nothing: the combinations scanned are those of `sorted(iter_coords)`. The round stops exactly when the proposals are a subset of `data`. Otherwise it returns the scan over the combinations of the sorted proposals, which is a route of points+2 fixes whose length is its distance and no shorter than before, and the new `keep` again lies within the track. |
| Parsers.Flight.RefineLoop | paragliding/parsers.py:385-433 | The refinement loop keeps the incumbent a route whose length is its distance, and `keep` within the track, so every round scans the source's combinations. The best distance never decreases across rounds. A route exists at the end exactly when one existed at the start. |
| Parsers.Flight.CalcTurningPoints | paragliding/parsers.py:373-434 | The search fails (a TypeError in the source) exactly when every seed combination has length at most -1. Otherwise it returns points+2 fixes of the track in non-decreasing order. The returned total is their leg sum, and it is at least the length of every seed combination. |

## Left out

- `calc_FAI_distance` and `calc_distance` (paragliding/parsers.py:471-489) use floating-point trigonometry. They are the parameter `fai`, and every float is an exact real, so rounding, NaN and infinities are not modelled. Symmetry and non-negativity of the distance are not assumed: the lemmas that need them require them.
- `calc_bearing`, the colour functions (`color`, `get_color`), the KML and ElementTree output (`FlightLog`, `make_tree`, `write_kml`), the `__main__` directory walk of `track.py`, the Django views and the packaging are outside the modelled core.
- Opening and closing the file, `readlines`, latin1 decoding and the logging or printing of unrecognised lines are I/O. `read_igc` takes the file's lines as a sequence of strings.
- The `cart` list and the `datarange` array are not part of this model. Nothing in the modelled core reads them. The final conversion of the lists to numpy arrays is not modelled either: the fields stay sequences.
- `read_igc` called from `__init__`: in the source, an exception leaves no `Flight` object at all. `Parsers.Flight.ReadIgc` instead returns the error and keeps the fields the earlier lines wrote. The constructor models `__init__` up to its call of `read_igc`.
- Parsers.Flight.ReadIgc: stamps are the header date plus an offset in seconds (`Igc.Stamp`). The calendar arithmetic of `datetime + timedelta` and the UTC time zone are not modelled. A second HFDTE header in mid-file changes the date of later stamps only.
- Parsers.Flight.GetDistances: requires a fix of the track. In the source an index past the end first caches a zero row and then raises IndexError, and a negative index counts from the end. No caller passes either.
- Parsers.Flight.TurningPointDistance and Parsers.Flight.MaxTurningPoints: require every index to be a fix of the track, for the same reason. The enumeration that `itertools.combinations` produces lazily is a materialised sequence in the same order.
- Parsers.Flight.CalcTurningPoints: requires 1 <= datapoints <= 65536. With more fixes, `np.uint16` wraps the seed indices (`TurningPoints.UInt16` models the wrap). With none, the seed arithmetic goes negative, which is an IndexError in the source. `points` is a natural number.
- Parsers.Flight.CalcTurningPoints: `calc_turning_point_distance(None)` raising TypeError is the result `NoRoute`.
- Parsers.Flight.CalcTurningPoints: states the shape of the route and its optimality against the seed combinations, not which refinement round produced it. That a round ends at most `maxiter` rounds later is a termination argument of `Parsers.Flight.RefineLoop`, not an `ensures`.
- Parsers.Flight.ReadIgc: may be called again on a flight that has already been read, and then appends to the sequences. In the source a second call fails, because the lists are numpy arrays by then. `__init__` is the only caller, so this does not happen.
- Parsers.Flight.RefineLoop: states what every round keeps (a consistent route, a distance that never decreases), not the final value of `count` or which stop condition ended the loop.
- `Smoothing.Averages`: the kernel function is a parameter of type `nat -> seq<real>`. `exit()` after printing "ERROR" is the outcome `KernelLengthError`. Numpy errors (an empty signal, a boundary kernel that does not broadcast) are the outcome `NumpyError`. For a window below 2 the source returns the very object it was given. The model returns an equal value, so aliasing is not captured.
