/**
 * Line-level reading of IGC flight-recorder files: B records (fixes) and the
 * HFDTE / HPSITSITE / HOPLTPILOT / HOGTYGLIDERTYPE headers, and the fold over
 * all lines that `read_igc` performs. Floats are modelled as exact reals.
 */
module Igc {
  import opened Common

  // ---------------------------------------------------------------------
  // Characters and numbers
  // ---------------------------------------------------------------------

  predicate IsDigit(c: char)
  {
    '0' <= c <= '9'
  }

  predicate AllDigits(s: string)
  {
    forall k :: 0 <= k < |s| ==> IsDigit(s[k])
  }

  /** The characters `[0-9-]` allowed in the altitude fields. */
  predicate IsAltitudeChar(c: char)
  {
    IsDigit(c) || c == '-'
  }

  /** Decimal value of a string of digits, most significant first. */
  function DigitsValue(s: string): nat
    requires AllDigits(s)
  {
    if |s| == 0 then 0 else DigitsValue(s[..|s| - 1]) * 10 + (s[|s| - 1] as int - '0' as int)
  }

  function Pow10(n: nat): (r: nat)
    ensures r >= 1
  {
    if n == 0 then 1 else 10 * Pow10(n - 1)
  }

  /** n written with exactly `width` digits, padded with leading zeros. */
  function Digits(n: nat, width: nat): (s: string)
    ensures |s| == width && AllDigits(s)
  {
    if width == 0 then [] else Digits(n / 10, width - 1) + [('0' as int + n % 10) as char]
  }

  /** Python's `int()` applied to a string of `[0-9-]` characters. */
  function ParseInt(s: string): Option<int>
  {
    if |s| > 1 && s[0] == '-' && AllDigits(s[1..]) then Some(-(DigitsValue(s[1..]) as int))
    else if |s| > 0 && AllDigits(s) then Some(DigitsValue(s))
    else None
  }

  /** The five-character altitude group a recorder writes for v: zero-padded, with a leading '-' when negative. */
  function AltitudeGroup(v: int): (g: string)
    requires -9999 <= v <= 99999
    ensures |g| == 5 && forall k :: 0 <= k < |g| ==> IsAltitudeChar(g[k])
  {
    if v < 0 then "-" + Digits(-v, 4) else Digits(v, 5)
  }

  /** The characters Python 2's `str.strip()` removes from a byte string. */
  predicate IsWhitespace(c: char)
  {
    c == ' ' || c == '\t' || c == '\n' || c == '\r' || c == '\U{0B}' || c == '\U{0C}'
  }

  /**
   * The characters stripped from a line: with `text`, the line has been
   * decoded from latin1 and `unicode.strip()` also removes the separators
   * U+001C to U+001F, NEXT LINE (U+0085) and NO-BREAK SPACE (U+00A0).
   */
  predicate IsSpace(c: char, text: bool)
  {
    IsWhitespace(c) || (text && ('\U{1C}' <= c <= '\U{1F}' || c == '\U{85}' || c == '\U{A0}'))
  }

  /** Drops the leading whitespace. */
  function StripLeft(s: string, text: bool): (r: string)
    ensures |r| <= |s|
  {
    if |s| > 0 && IsSpace(s[0], text) then StripLeft(s[1..], text) else s
  }

  /** Drops the trailing whitespace. */
  function StripRight(s: string, text: bool): (r: string)
    ensures |r| <= |s|
  {
    if |s| > 0 && IsSpace(s[|s| - 1], text) then StripRight(s[..|s| - 1], text) else s
  }

  /** `s.strip()` on the raw bytes of a line. */
  function Strip(s: string): string
  {
    StripRight(StripLeft(s, false), false)
  }

  /** `s.strip()` on text decoded from latin1. */
  function StripText(s: string): string
  {
    StripRight(StripLeft(s, true), true)
  }

  /** `pattern in s` for strings. */
  function Contains(s: string, pattern: string): bool
  {
    |pattern| <= |s| && (s[..|pattern|] == pattern || Contains(s[1..], pattern))
  }

  /** Index of the first ':' in s, if any. */
  function ColonIndex(s: string): (r: Option<nat>)
    ensures r.Some? ==> r.value < |s| && s[r.value] == ':' && forall k :: 0 <= k < r.value ==> s[k] != ':'
    ensures r.None? ==> forall k :: 0 <= k < |s| ==> s[k] != ':'
  {
    if |s| == 0 then None
    else if s[0] == ':' then Some(0)
    else match ColonIndex(s[1..])
      case None => None
      case Some(k) => Some(k + 1)
  }

  /** `s.split(':', 1)[1].strip()`; None where Python raises IndexError. */
  function AfterColon(s: string): Option<string>
  {
    match ColonIndex(s)
    case None => None
    case Some(k) => Some(StripText(s[k + 1..]))
  }

  // ---------------------------------------------------------------------
  // B records
  // ---------------------------------------------------------------------

  /** The twelve groups of the B-record regular expression. */
  datatype BRecord = BRecord(
    hours: nat, minutes: nat, seconds: nat,
    latDegrees: nat, latMilliMinutes: nat, south: bool,
    lonDegrees: nat, lonMilliMinutes: nat, west: bool,
    validity: char, baro: string, gps: string)

  /** Number of characters the B-record pattern consumes. */
  const BRecordLength := 35

  predicate AllAltitudeChars(s: string)
  {
    forall k :: 0 <= k < |s| ==> IsAltitudeChar(s[k])
  }

  /**
   * The B-record pattern matches a prefix of the line: 'B', six time digits,
   * 2+5 latitude digits and N/S, 3+5 longitude digits and W/E, A/V, and two
   * five-character altitude groups of digits and '-'.
   */
  predicate MatchesB(line: string)
  {
    && |line| >= BRecordLength
    && line[0] == 'B'
    && AllDigits(line[1..3]) && AllDigits(line[3..5]) && AllDigits(line[5..7])
    && AllDigits(line[7..9]) && AllDigits(line[9..14])
    && (line[14] == 'N' || line[14] == 'S')
    && AllDigits(line[15..18]) && AllDigits(line[18..23])
    && (line[23] == 'W' || line[23] == 'E')
    && (line[24] == 'A' || line[24] == 'V')
    && AllAltitudeChars(line[25..30]) && AllAltitudeChars(line[30..35])
  }

  function ParseB(line: string): Option<BRecord>
  {
    if !MatchesB(line) then None
    else
      Some(BRecord(
        DigitsValue(line[1..3]), DigitsValue(line[3..5]), DigitsValue(line[5..7]),
        DigitsValue(line[7..9]), DigitsValue(line[9..14]), line[14] == 'S',
        DigitsValue(line[15..18]), DigitsValue(line[18..23]), line[23] == 'W',
        line[24], line[25..30], line[30..35]))
  }

  /** Fields in the ranges that the fixed-width groups can hold. */
  predicate WellFormedB(r: BRecord)
  {
    && r.hours < 100 && r.minutes < 100 && r.seconds < 100
    && r.latDegrees < 100 && r.latMilliMinutes < 100000
    && r.lonDegrees < 1000 && r.lonMilliMinutes < 100000
    && (r.validity == 'A' || r.validity == 'V')
    && |r.baro| == 5 && AllAltitudeChars(r.baro)
    && |r.gps| == 5 && AllAltitudeChars(r.gps)
  }

  /** The B-record text for a record (the inverse of ParseB). */
  function FormatB(r: BRecord): (line: string)
    requires WellFormedB(r)
    ensures |line| == BRecordLength
  {
    "B" + Digits(r.hours, 2) + Digits(r.minutes, 2) + Digits(r.seconds, 2)
    + Digits(r.latDegrees, 2) + Digits(r.latMilliMinutes, 5) + [if r.south then 'S' else 'N']
    + Digits(r.lonDegrees, 3) + Digits(r.lonMilliMinutes, 5) + [if r.west then 'W' else 'E']
    + [r.validity] + r.baro + r.gps
  }

  /** Time of day of a fix in seconds. */
  function TimeOfDay(r: BRecord): nat
  {
    r.hours * 3600 + r.minutes * 60 + r.seconds
  }

  /** Latitude in degrees: DD + MMmmm/60000, negative in the southern hemisphere. */
  function Latitude(r: BRecord): real
  {
    var magnitude := r.latDegrees as real + r.latMilliMinutes as real / 60000.0;
    if r.south then -magnitude else magnitude
  }

  /** Longitude in degrees: DDD + MMmmm/60000, negative west of Greenwich. */
  function Longitude(r: BRecord): real
  {
    var magnitude := r.lonDegrees as real + r.lonMilliMinutes as real / 60000.0;
    if r.west then -magnitude else magnitude
  }

  // ---------------------------------------------------------------------
  // Header records
  // ---------------------------------------------------------------------

  datatype Date = Date(year: nat, month: nat, day: nat)

  predicate IsLeapYear(y: nat)
  {
    (y % 4 == 0 && y % 100 != 0) || y % 400 == 0
  }

  function DaysInMonth(y: nat, m: nat): nat
    requires 1 <= m <= 12
  {
    if m == 2 then (if IsLeapYear(y) then 29 else 28)
    else if m == 4 || m == 6 || m == 9 || m == 11 then 30
    else 31
  }

  /** `datetime(y, m, d)` does not raise ValueError. */
  predicate ValidDate(d: Date)
  {
    1 <= d.month <= 12 && 1 <= d.day <= DaysInMonth(d.year, d.month)
  }

  /** An "HFDTE" prefix followed by six digits DDMMYY, as the date 20YY-MM-DD. */
  function ParseDate(line: string): Option<Date>
  {
    if |line| >= 11 && line[..5] == "HFDTE" && AllDigits(line[5..11]) then
      var g := line[5..11];
      assert AllDigits(g[0..2]) && AllDigits(g[2..4]) && AllDigits(g[4..6]);
      Some(Date(2000 + DigitsValue(g[4..6]), DigitsValue(g[2..4]), DigitsValue(g[0..2])))
    else None
  }

  // ---------------------------------------------------------------------
  // The fold over the lines
  // ---------------------------------------------------------------------

  /** A fix timestamp: `self.date + timedelta(seconds=offset)`. */
  datatype Stamp = Stamp(date: Date, offset: nat)

  /**
   * The flight's fields that `read_igc` writes, together with its two loop
   * locals `timedelta_days` (days) and `time_old` (timeOld, in seconds).
   */
  datatype Reader = Reader(
    date: Option<Date>, location: Option<string>, pilot: Option<string>, glider: Option<string>,
    days: nat, timeOld: Option<nat>,
    time: seq<Stamp>, lat: seq<real>, lon: seq<real>, barheight: seq<int>, gpsheight: seq<int>)

  /** The exceptions `read_igc` can raise on a line. */
  datatype IgcError =
    | BadAltitude    // int() of an altitude group such as "12-34" raises ValueError
    | NoDate         // a fix before any HFDTE header: None + timedelta raises TypeError
    | BadDate        // an HFDTE header that datetime() rejects (ValueError)
    | MissingColon   // a SITE, PILOT or GLIDERTYPE header without ':' (IndexError)

  /** How reading ends: normally, or with an exception and the fields as they were. */
  datatype Outcome = Read(state: Reader) | Raised(error: IgcError, state: Reader)

  /** Reader state before the first line, given the flight's current fields. */
  function Start(r: Reader): Reader
  {
    r.(days := 0, timeOld := None)
  }

  /** Whether the day counter rolls over for a fix at `time` seconds. */
  predicate RollsOver(timeOld: Option<nat>, time: nat)
  {
    timeOld.Some? && timeOld.value != 0 && time < timeOld.value
  }

  /** One iteration of the `read_igc` loop. */
  function Step(s: Reader, raw: string): Outcome
  {
    var line := Strip(raw);
    match ParseB(line)
    case Some(b) => StepFix(s, b)
    case None => StepHeader(s, line)
  }

  /** A B record: append the fix, or raise on a bad altitude or a missing date. */
  function StepFix(s: Reader, b: BRecord): Outcome
  {
    var time := s.days * 86400 + TimeOfDay(b);
    var roll := RollsOver(s.timeOld, time);
    var stamp := if roll then time + 86400 else time;
    var days := if roll then s.days + 1 else s.days;
    var baro := ParseInt(b.baro);
    var gps := ParseInt(b.gps);
    if baro.None? || gps.None? then Raised(BadAltitude, s)
    else if s.date.None? then Raised(NoDate, s)
    else Read(s.(days := days, timeOld := Some(stamp),
                 time := s.time + [Stamp(s.date.value, stamp)],
                 lat := s.lat + [Latitude(b)], lon := s.lon + [Longitude(b)],
                 barheight := s.barheight + [baro.value], gpsheight := s.gpsheight + [gps.value]))
  }

  /** Any other stripped line: a SITE, PILOT or GLIDERTYPE header, an HFDTE header, or nothing. */
  function StepHeader(s: Reader, line: string): Outcome
  {
    if Contains(line, "HPSITSITE") then
      (match AfterColon(line)
       case None => Raised(MissingColon, s)
       case Some(v) => Read(s.(location := Some(v))))
    else if Contains(line, "HOPLTPILOT") then
      (match AfterColon(line)
       case None => Raised(MissingColon, s)
       case Some(v) => Read(s.(pilot := Some(v))))
    else if Contains(line, "HOGTYGLIDERTYPE") then
      (match AfterColon(line)
       case None => Raised(MissingColon, s)
       case Some(v) => Read(s.(glider := Some(v))))
    else
      match ParseDate(line)
      case Some(d) => if ValidDate(d) then Read(s.(date := Some(d))) else Raised(BadDate, s)
      case None => Read(s)
  }

  /** `read_igc` over all lines, stopping at the first exception. */
  function Run(s: Reader, lines: seq<string>): Outcome
  {
    if |lines| == 0 then Read(s)
    else match Run(s, lines[..|lines| - 1])
      case Raised(e, t) => Raised(e, t)
      case Read(t) => Step(t, lines[|lines| - 1])
  }

  // ---------------------------------------------------------------------
  // Properties
  // ---------------------------------------------------------------------

  /** Reading stops at the first exception: later lines change nothing. */
  lemma {:induction false} RunStopsAtError(s: Reader, lines: seq<string>, k: nat)
    requires k <= |lines| && Run(s, lines[..k]).Raised?
    ensures Run(s, lines) == Run(s, lines[..k])
  {
    if k < |lines| {
      var init := lines[..|lines| - 1];
      assert init[..k] == lines[..k];
      RunStopsAtError(s, init, k);
    } else {
      assert lines[..k] == lines;
    }
  }

  /** Number of lines that are B records once stripped. */
  function BCount(lines: seq<string>): nat
  {
    if |lines| == 0 then 0
    else BCount(lines[..|lines| - 1]) + (if MatchesB(Strip(lines[|lines| - 1])) then 1 else 0)
  }

  /** The five per-fix lists have the same length. */
  predicate Aligned(s: Reader)
  {
    |s.time| == |s.lat| == |s.lon| == |s.barheight| == |s.gpsheight|
  }

  /**
   * Each B line appends exactly one entry to every per-fix list and other
   * lines append nothing: a complete read holds one fix per B line.
   */
  lemma {:induction false} RunAppendsOnePerBLine(s: Reader, lines: seq<string>)
    requires Aligned(s)
    ensures Aligned(Run(s, lines).state)
    ensures |s.lat| <= |Run(s, lines).state.lat|
    ensures Run(s, lines).state.lat[..|s.lat|] == s.lat
    ensures |Run(s, lines).state.lat| <= |s.lat| + BCount(lines)
    ensures Run(s, lines).Read? ==> |Run(s, lines).state.lat| == |s.lat| + BCount(lines)
  {
    if |lines| > 0 {
      var init := lines[..|lines| - 1];
      RunAppendsOnePerBLine(s, init);
      match Run(s, init)
      case Raised(_, _) =>
      case Read(t) =>
        StepAppendsOnePerBLine(t, lines[|lines| - 1]);
        var u := Step(t, lines[|lines| - 1]).state;
        assert u.lat[..|s.lat|] == u.lat[..|t.lat|][..|s.lat|];
    }
  }

  lemma StepAppendsOnePerBLine(s: Reader, raw: string)
    requires Aligned(s)
    ensures Aligned(Step(s, raw).state)
    ensures Step(s, raw).state.lat[..|s.lat|] == s.lat
    ensures |Step(s, raw).state.lat| == |s.lat| + (if Step(s, raw).Read? && MatchesB(Strip(raw)) then 1 else 0)
  {
    var line := Strip(raw);
    if MatchesB(line) {
      var t := StepFix(s, ParseB(line).value).state;
      assert t.lat[..|s.lat|] == s.lat;
    } else {
      StepHeaderKeepsTrack(s, line);
    }
  }

  /** A header line leaves the fixes, the day counter and the previous time alone. */
  lemma StepHeaderKeepsTrack(s: Reader, line: string)
    ensures var t := StepHeader(s, line).state;
            && t.time == s.time && t.lat == s.lat && t.lon == s.lon
            && t.barheight == s.barheight && t.gpsheight == s.gpsheight
            && t.days == s.days && t.timeOld == s.timeOld
  {
  }

  /** No whitespace at either end. */
  predicate Trimmed(r: string, text: bool)
  {
    |r| == 0 || (!IsSpace(r[0], text) && !IsSpace(r[|r| - 1], text))
  }

  /** The left strip is a suffix of s starting with a non-space, and it removed only whitespace. */
  lemma {:induction false} StripLeftRemovesSpace(s: string, text: bool)
    ensures var r := StripLeft(s, text);
            && r == s[|s| - |r|..]
            && (forall k :: 0 <= k < |s| - |r| ==> IsSpace(s[k], text))
            && (|r| == 0 || !IsSpace(r[0], text))
  {
    if |s| > 0 && IsSpace(s[0], text) {
      StripLeftRemovesSpace(s[1..], text);
      var r := StripLeft(s, text);
      assert r == s[1..][|s| - 1 - |r|..];
      forall k | 0 <= k < |s| - |r|
        ensures IsSpace(s[k], text)
      {
        if k > 0 {
          assert s[k] == s[1..][k - 1];
        }
      }
    }
  }

  /** The right strip is a prefix of s ending with a non-space, and it removed only whitespace. */
  lemma {:induction false} StripRightRemovesSpace(s: string, text: bool)
    ensures var r := StripRight(s, text);
            && r == s[..|r|]
            && (forall k :: |r| <= k < |s| ==> IsSpace(s[k], text))
            && (|r| == 0 || !IsSpace(r[|r| - 1], text))
  {
    if |s| > 0 && IsSpace(s[|s| - 1], text) {
      StripRightRemovesSpace(s[..|s| - 1], text);
      var r := StripRight(s, text);
      assert r == s[..|s| - 1][..|r|];
      forall k | |r| <= k < |s|
        ensures IsSpace(s[k], text)
      {
        if k < |s| - 1 {
          assert s[k] == s[..|s| - 1][k];
        }
      }
    }
  }

  /**
   * Stripping removes exactly the whitespace at both ends: the result is the
   * slice s[a..b] where everything before a and from b on is whitespace, and
   * the result neither starts nor ends with whitespace.
   */
  lemma StripTrims(s: string, text: bool)
    ensures var a, r := |s| - |StripLeft(s, text)|, StripRight(StripLeft(s, text), text);
            && a + |r| <= |s| && r == s[a..a + |r|]
            && (forall k :: 0 <= k < a ==> IsSpace(s[k], text))
            && (forall k :: a + |r| <= k < |s| ==> IsSpace(s[k], text))
            && Trimmed(r, text)
  {
    var l := StripLeft(s, text);
    var r := StripRight(l, text);
    var a := |s| - |l|;
    StripLeftRemovesSpace(s, text);
    StripRightRemovesSpace(l, text);
    assert r == s[a..a + |r|];
    forall k | a + |r| <= k < |s|
      ensures IsSpace(s[k], text)
    {
      assert s[k] == l[k - a];
    }
    if |r| > 0 {
      assert r[0] == l[0];
    }
  }

  /**
   * What a header line can do: a SITE, PILOT or GLIDERTYPE header stores the
   * stripped text after its first ':' and raises when there is none; a date
   * header stores a valid date of this century; an exception changes nothing.
   */
  lemma HeaderValues(s: Reader, line: string)
    ensures var out := StepHeader(s, line);
            && (out.Raised? ==> out.state == s)
            && (Contains(line, "HPSITSITE") && ColonIndex(line).None? ==> out == Raised(MissingColon, s))
            && (out.state.location != s.location ==>
                  Contains(line, "HPSITSITE") && out.state.location.Some? && Trimmed(out.state.location.value, true))
            && (out.state.pilot != s.pilot ==>
                  Contains(line, "HOPLTPILOT") && out.state.pilot.Some? && Trimmed(out.state.pilot.value, true))
            && (out.state.glider != s.glider ==>
                  Contains(line, "HOGTYGLIDERTYPE") && out.state.glider.Some? && Trimmed(out.state.glider.value, true))
            && (out.state.date != s.date ==>
                  out.state.date.Some? && ValidDate(out.state.date.value) && 2000 <= out.state.date.value.year < 2100)
  {
    if ColonIndex(line).Some? {
      StripTrims(line[ColonIndex(line).value + 1..], true);
    }
    if ParseDate(line).Some? {
      var g := line[5..11];
      assert DigitsValue(g[4..6]) < 100 by { ValueRoundTrip(g[4..6]); }
    }
  }

  /**
   * The value a text header stores: the first of SITE, PILOT and GLIDERTYPE
   * named on the line takes the text after the first ':', stripped, and no
   * other field changes.
   */
  lemma HeaderTextStored(s: Reader, line: string, k: nat)
    requires k < |line| && line[k] == ':' && forall j :: 0 <= j < k ==> line[j] != ':'
    ensures var v := Some(StripText(line[k + 1..]));
            && (Contains(line, "HPSITSITE") ==> StepHeader(s, line) == Read(s.(location := v)))
            && (!Contains(line, "HPSITSITE") && Contains(line, "HOPLTPILOT") ==>
                  StepHeader(s, line) == Read(s.(pilot := v)))
            && (!Contains(line, "HPSITSITE") && !Contains(line, "HOPLTPILOT") && Contains(line, "HOGTYGLIDERTYPE") ==>
                  StepHeader(s, line) == Read(s.(glider := v)))
  {
    assert ColonIndex(line) == Some(k);
  }

  lemma SubSlice(s: string, lo: nat, hi: nat, a: nat, b: nat)
    requires a <= b && lo + b <= hi <= |s|
    ensures s[lo..hi][a..b] == s[lo + a..lo + b]
  {
    assert forall k :: 0 <= k < b - a ==> s[lo..hi][a..b][k] == s[lo + a + k];
  }

  /** The date an HFDTE line with three digit pairs DD, MM, YY parses to. */
  lemma ParseDateDigits(line: string)
    requires |line| >= 11 && line[..5] == "HFDTE"
    requires AllDigits(line[5..7]) && AllDigits(line[7..9]) && AllDigits(line[9..11])
    ensures ParseDate(line) == Some(Date(2000 + DigitsValue(line[9..11]), DigitsValue(line[7..9]), DigitsValue(line[5..7])))
  {
    var g := line[5..11];
    forall j | 0 <= j < 6 ensures IsDigit(g[j]) {
      assert g[j] == line[5 + j];
      if j < 2 { assert line[5..7][j] == line[5 + j]; }
      else if j < 4 { assert line[7..9][j - 2] == line[5 + j]; }
      else { assert line[9..11][j - 4] == line[5 + j]; }
    }
    SubSlice(line, 5, 11, 0, 2);
    SubSlice(line, 5, 11, 2, 4);
    SubSlice(line, 5, 11, 4, 6);
  }

  /**
   * The value a date header stores: on a line naming none of the text
   * headers, "HFDTE" followed by DDMMYY stores 20YY-MM-DD when it is a date
   * and raises otherwise; any other such line changes nothing.
   */
  lemma HeaderDateStored(s: Reader, line: string)
    requires !Contains(line, "HPSITSITE") && !Contains(line, "HOPLTPILOT") && !Contains(line, "HOGTYGLIDERTYPE")
    ensures |line| >= 11 && line[..5] == "HFDTE" && AllDigits(line[5..7]) && AllDigits(line[7..9]) && AllDigits(line[9..11]) ==>
              var d := Date(2000 + DigitsValue(line[9..11]), DigitsValue(line[7..9]), DigitsValue(line[5..7]));
              StepHeader(s, line) == if ValidDate(d) then Read(s.(date := Some(d))) else Raised(BadDate, s)
    ensures ParseDate(line).None? ==> StepHeader(s, line) == Read(s)
  {
    if |line| >= 11 && line[..5] == "HFDTE" && AllDigits(line[5..7]) && AllDigits(line[7..9]) && AllDigits(line[9..11]) {
      ParseDateDigits(line);
    }
  }

  /** Every B line in `lines` carries a time of day below 24 hours. */
  predicate TimesOfDayValid(lines: seq<string>)
  {
    forall k :: 0 <= k < |lines| ==> ParseB(Strip(lines[k])).Some? ==> TimeOfDay(ParseB(Strip(lines[k])).value) < 86400
  }

  /** The fix offsets never decrease. */
  predicate StampsNonDecreasing(time: seq<Stamp>)
  {
    forall a, b :: 0 <= a < b < |time| ==> time[a].offset <= time[b].offset
  }

  /** What the day-rollover logic keeps true between lines. */
  predicate RolloverInvariant(s: Reader)
  {
    && StampsNonDecreasing(s.time)
    && (s.timeOld.None? ==> |s.time| == 0)
    && (s.timeOld.Some? ==>
          && s.days * 86400 <= s.timeOld.value < s.days * 86400 + 86400
          && (|s.time| > 0 ==> s.time[|s.time| - 1].offset == s.timeOld.value))
  }

  lemma StepKeepsRollover(s: Reader, raw: string)
    requires RolloverInvariant(s)
    requires ParseB(Strip(raw)).Some? ==> TimeOfDay(ParseB(Strip(raw)).value) < 86400
    ensures RolloverInvariant(Step(s, raw).state)
  {
    var line := Strip(raw);
    if MatchesB(line) {
      StepFixKeepsRollover(s, ParseB(line).value);
    } else {
      StepHeaderKeepsTrack(s, line);
    }
  }

  lemma StepFixKeepsRollover(s: Reader, b: BRecord)
    requires RolloverInvariant(s) && TimeOfDay(b) < 86400
    ensures RolloverInvariant(StepFix(s, b).state)
  {
  }

  /**
   * Day rollover: when every fix has a time of day under 24h, the stored fix
   * times never go backwards, even across midnight.
   */
  lemma {:induction false} RunTimesNonDecreasing(s: Reader, lines: seq<string>)
    requires |s.time| == 0
    requires TimesOfDayValid(lines)
    ensures StampsNonDecreasing(Run(Start(s), lines).state.time)
  {
    RunKeepsRollover(Start(s), lines);
  }

  lemma {:induction false} RunKeepsRollover(s: Reader, lines: seq<string>)
    requires RolloverInvariant(s)
    requires TimesOfDayValid(lines)
    ensures RolloverInvariant(Run(s, lines).state)
  {
    if |lines| > 0 {
      var init := lines[..|lines| - 1];
      assert TimesOfDayValid(init) by {
        forall k | 0 <= k < |init| ensures init[k] == lines[k] { }
      }
      RunKeepsRollover(s, init);
      match Run(s, init)
      case Raised(_, _) =>
      case Read(t) => StepKeepsRollover(t, lines[|lines| - 1]);
    }
  }

  /**
   * A B line whose altitudes parse and that follows a date header appends
   * the fix read from its fixed columns: the time HHMMSS after the days
   * already rolled over (plus one more day when the time of day went
   * backwards), latitude DD + MMmmm/60000 negated iff column 14 is 'S',
   * longitude DDD + MMmmm/60000 negated iff column 23 is 'W', barometric
   * altitude from columns 25-29 and GPS altitude from columns 30-34.
   */
  lemma BLineAppendsFix(s: Reader, raw: string)
    requires MatchesB(Strip(raw))
    requires Step(s, raw).Read?
    ensures var line, t := Strip(raw), Step(s, raw).state;
            var time := s.days * 86400 + DigitsValue(line[1..3]) * 3600 + DigitsValue(line[3..5]) * 60 + DigitsValue(line[5..7]);
            var lat := DigitsValue(line[7..9]) as real + DigitsValue(line[9..14]) as real / 60000.0;
            var lon := DigitsValue(line[15..18]) as real + DigitsValue(line[18..23]) as real / 60000.0;
            && s.date.Some?
            && t.time == s.time + [Stamp(s.date.value, if RollsOver(s.timeOld, time) then time + 86400 else time)]
            && t.days == (if RollsOver(s.timeOld, time) then s.days + 1 else s.days)
            && t.lat == s.lat + [if line[14] == 'S' then -lat else lat]
            && t.lon == s.lon + [if line[23] == 'W' then -lon else lon]
            && t.barheight == s.barheight + [ParseInt(line[25..30]).value]
            && t.gpsheight == s.gpsheight + [ParseInt(line[30..35]).value]
  {
    var line := Strip(raw);
    var b := ParseB(line).value;
    assert TimeOfDay(b) == DigitsValue(line[1..3]) * 3600 + DigitsValue(line[3..5]) * 60 + DigitsValue(line[5..7]);
    assert b.south == (line[14] == 'S') && b.west == (line[23] == 'W');
  }

  /**
   * The reader checks digits, not ranges: every well-formed B line whose
   * latitude degrees are 91 to 99 is accepted, and the stored latitude lies
   * outside [-90, 90].
   */
  lemma LatitudeNotRangeChecked(r: BRecord, rest: string)
    requires WellFormedB(r) && r.latDegrees >= 91
    ensures var line := FormatB(r) + rest;
            && MatchesB(line)
            && ParseB(line).value.latDegrees == r.latDegrees
            && (Latitude(ParseB(line).value) > 90.0 || Latitude(ParseB(line).value) < -90.0)
  {
    ParseFormatRoundTrip(r, rest);
  }

  // ---------------------------------------------------------------------
  // ParseB and FormatB are inverse
  // ---------------------------------------------------------------------

  lemma {:induction false} DigitsRoundTrip(n: nat, width: nat)
    requires n < Pow10(width)
    ensures DigitsValue(Digits(n, width)) == n
  {
    if width > 0 {
      DigitsRoundTrip(n / 10, width - 1);
      var d := Digits(n, width);
      assert d[..width - 1] == Digits(n / 10, width - 1);
    }
  }

  lemma {:induction false} ValueRoundTrip(s: string)
    requires AllDigits(s)
    ensures DigitsValue(s) < Pow10(|s|)
    ensures Digits(DigitsValue(s), |s|) == s
  {
    if |s| > 0 {
      var init := s[..|s| - 1];
      ValueRoundTrip(init);
      var v, c := DigitsValue(init), s[|s| - 1] as int - '0' as int;
      assert (v * 10 + c) / 10 == v && (v * 10 + c) % 10 == c;
      assert s == init + [s[|s| - 1]];
    }
  }

  /** `int()` reads back every altitude from -9999 to 99999 from the group a recorder writes for it. */
  lemma AltitudeRoundTrip(v: int)
    requires -9999 <= v <= 99999
    ensures ParseInt(AltitudeGroup(v)) == Some(v)
  {
    if v < 0 {
      var t := "-" + Digits(-v, 4);
      assert t[1..] == Digits(-v, 4);
      DigitsRoundTrip(-v, 4);
    } else {
      DigitsRoundTrip(v, 5);
    }
  }

  /** Conversely, an altitude group that `int()` accepts is the group of its value, or "-0000". */
  lemma AltitudeGroupRead(g: string)
    requires |g| == 5 && forall k :: 0 <= k < |g| ==> IsAltitudeChar(g[k])
    ensures ParseInt(g).Some? ==>
              -9999 <= ParseInt(g).value <= 99999 && (g == AltitudeGroup(ParseInt(g).value) || g == "-0000")
  {
    if |g| > 1 && g[0] == '-' && AllDigits(g[1..]) {
      var t := g[1..];
      var v := DigitsValue(t);
      ValueRoundTrip(t);
      assert Pow10(4) == 10000;
      assert ParseInt(g) == Some(-(v as int)) && v < 10000;
      assert g == "-" + Digits(v, 4);
      if v > 0 {
        assert AltitudeGroup(-(v as int)) == g;
      } else {
        assert Digits(0, 4) == "0000";
      }
    } else if AllDigits(g) {
      ValueRoundTrip(g);
    }
  }

  lemma SliceOfPrefix(line: string, p: string, x: string)
    requires |p| + |x| <= |line| && line[..|p| + |x|] == p + x
    ensures line[|p|..|p| + |x|] == x && line[..|p|] == p
  {
    assert line[|p|..|p| + |x|] == line[..|p| + |x|][|p|..];
    assert line[..|p|] == line[..|p| + |x|][..|p|];
  }

  /** Where each group of a formatted record sits in the line. */
  lemma FormatBGroups(r: BRecord, rest: string)
    requires WellFormedB(r)
    ensures var line := FormatB(r) + rest;
            && line[0] == 'B'
            && line[1..3] == Digits(r.hours, 2) && line[3..5] == Digits(r.minutes, 2)
            && line[5..7] == Digits(r.seconds, 2)
            && line[7..9] == Digits(r.latDegrees, 2) && line[9..14] == Digits(r.latMilliMinutes, 5)
            && line[14] == (if r.south then 'S' else 'N')
            && line[15..18] == Digits(r.lonDegrees, 3) && line[18..23] == Digits(r.lonMilliMinutes, 5)
            && line[23] == (if r.west then 'W' else 'E') && line[24] == r.validity
            && line[25..30] == r.baro && line[30..35] == r.gps
  {
    var h, m, sec := Digits(r.hours, 2), Digits(r.minutes, 2), Digits(r.seconds, 2);
    var la, lam := Digits(r.latDegrees, 2), Digits(r.latMilliMinutes, 5);
    var lo, lom := Digits(r.lonDegrees, 3), Digits(r.lonMilliMinutes, 5);
    var ns, we := [if r.south then 'S' else 'N'], [if r.west then 'W' else 'E'];
    var p1 := "B" + h;
    var p2 := p1 + m;
    var p3 := p2 + sec;
    var p4 := p3 + la;
    var p5 := p4 + lam;
    var p6 := p5 + ns;
    var p7 := p6 + lo;
    var p8 := p7 + lom;
    var p9 := p8 + we;
    var p10 := p9 + [r.validity];
    var p11 := p10 + r.baro;
    var p12 := p11 + r.gps;
    assert FormatB(r) == p12;
    var line := p12 + rest;
    assert line[..|p12|] == p12;
    SliceOfPrefix(line, p11, r.gps);
    SliceOfPrefix(line, p10, r.baro);
    SliceOfPrefix(line, p9, [r.validity]);
    SliceOfPrefix(line, p8, we);
    SliceOfPrefix(line, p7, lom);
    SliceOfPrefix(line, p6, lo);
    SliceOfPrefix(line, p5, ns);
    SliceOfPrefix(line, p4, lam);
    SliceOfPrefix(line, p3, la);
    SliceOfPrefix(line, p2, sec);
    SliceOfPrefix(line, p1, m);
    SliceOfPrefix(line, "B", h);
    assert line[1..3] == h && line[3..5] == m && line[5..7] == sec;
    assert line[7..9] == la && line[9..14] == lam;
    assert line[14] == ns[0] && line[23] == we[0] && line[24] == r.validity;
    assert line[15..18] == lo && line[18..23] == lom;
    assert line[25..30] == r.baro && line[30..35] == r.gps;
  }

  /** Formatting a well-formed record and reading it back gives the record, whatever follows it. */
  lemma ParseFormatRoundTrip(r: BRecord, rest: string)
    requires WellFormedB(r)
    ensures ParseB(FormatB(r) + rest) == Some(r)
  {
    FormatBGroups(r, rest);
    var line := FormatB(r) + rest;
    assert MatchesB(line);
    DigitsRoundTrip(r.hours, 2);
    DigitsRoundTrip(r.minutes, 2);
    DigitsRoundTrip(r.seconds, 2);
    DigitsRoundTrip(r.latDegrees, 2);
    DigitsRoundTrip(r.latMilliMinutes, 5);
    DigitsRoundTrip(r.lonDegrees, 3);
    DigitsRoundTrip(r.lonMilliMinutes, 5);
  }

  /** A matched B record is well formed and is exactly the first 35 characters of its line. */
  lemma FormatParseRoundTrip(line: string)
    requires ParseB(line).Some?
    ensures WellFormedB(ParseB(line).value)
    ensures FormatB(ParseB(line).value) == line[..BRecordLength]
  {
    ValueRoundTrip(line[1..3]);
    ValueRoundTrip(line[3..5]);
    ValueRoundTrip(line[5..7]);
    ValueRoundTrip(line[7..9]);
    ValueRoundTrip(line[9..14]);
    ValueRoundTrip(line[15..18]);
    ValueRoundTrip(line[18..23]);
    assert line[..BRecordLength] == [line[0]] + line[1..3] + line[3..5] + line[5..7] + line[7..9] + line[9..14]
      + [line[14]] + line[15..18] + line[18..23] + [line[23]] + [line[24]] + line[25..30] + line[30..35];
  }
}
