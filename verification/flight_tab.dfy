/** The text handling of the flight tab (frontend/.../components/Flights/
    FlightTab.jsx): reading an ISO 8601 duration, prefilling the
    destination from the trip, the stop-count label, the airport-lookup
    guard and the date part of the trip's timestamps. Calls to the flight
    routes and the rendering of offers are left out. */
module FlightTab {
  import opened Common
  import opened Text

  predicate AllDigits(s: string) {
    forall k :: 0 <= k < |s| ==> IsDigit(s[k])
  }

  // ------------------------------------------------------------- durations

  /** The length of the run of digits `s` starts with. */
  function DigitRun(s: string): (n: nat)
    ensures n <= |s| && AllDigits(s[..n])
    ensures n < |s| ==> !IsDigit(s[n])
  {
    if |s| == 0 || !IsDigit(s[0]) then 0
    else
      var n := DigitRun(s[1..]) + 1;
      assert s[..n] == [s[0]] + s[1..][..n - 1];
      n
  }

  /** The capture of `s.match(/(\d+)U/)` for the unit letter `U`: the first
      maximal run of digits followed by `U`. Positions inside a run that
      is not followed by `U` cannot start a match either, so the scan skips
      whole runs. */
  function Capture(s: string, unit: char): (r: Option<string>)
    requires !IsDigit(unit)
    ensures r.Some? ==> r.value != "" && AllDigits(r.value)
    ensures r.Some? ==> exists i :: MatchAt(s, i, r.value, unit)
    ensures unit !in s ==> r.None?
    decreases |s|
  {
    if |s| == 0 then None
    else
      var n := DigitRun(s);
      if n > 0 && n < |s| && s[n] == unit then
        assert MatchAt(s, 0, s[..n], unit);
        Some(s[..n])
      else
        var k := if n > 0 then n else 1;
        var r := Capture(s[k..], unit);
        CaptureShift(s, k, r, unit);
        r
  }

  /** `v` occurs in `s` at `i`, followed by `unit`. */
  predicate MatchAt(s: string, i: int, v: string, unit: char) {
    0 <= i && i + |v| < |s| && s[i..i + |v|] == v && s[i + |v|] == unit
  }

  /** A match found in a suffix of `s` is a match in `s`. */
  lemma CaptureShift(s: string, k: nat, r: Option<string>, unit: char)
    requires k <= |s|
    requires r.Some? ==> exists i :: MatchAt(s[k..], i, r.value, unit)
    ensures r.Some? ==> exists i :: MatchAt(s, i, r.value, unit)
  {
    if r.Some? {
      var v := r.value;
      var i :| MatchAt(s[k..], i, v, unit);
      assert s[k + i..k + i + |v|] == s[k..][i..i + |v|];
      assert MatchAt(s, k + i, v, unit);
    }
  }

  /** `formatDuration(duration)`: the captured hour and minute digits as
      written, each `0` when absent. */
  function FormatDuration(duration: string): string {
    var hours := Capture(duration, 'H');
    var minutes := Capture(duration, 'M');
    (if hours.Some? then hours.value else "0") + "h " + (if minutes.Some? then minutes.value else "0") + "m"
  }

  lemma {:induction false} DigitRunOf(d: string, rest: string)
    requires AllDigits(d)
    requires rest == [] || !IsDigit(rest[0])
    ensures DigitRun(d + rest) == |d|
  {
    if |d| > 0 {
      DigitRunOf(d[1..], rest);
      assert (d + rest)[1..] == d[1..] + rest;
    } else {
      assert d + rest == rest;
    }
  }

  /** A run of digits right before the unit is captured. */
  lemma CaptureLeadingRun(d: string, unit: char, rest: string)
    requires d != "" && AllDigits(d) && !IsDigit(unit)
    ensures Capture(d + [unit] + rest, unit) == Some(d)
  {
    var s := d + [unit] + rest;
    DigitRunOf(d, [unit] + rest);
    assert s == d + ([unit] + rest);
    assert s[..|d|] == d;
  }

  /** A run of digits followed by anything else is skipped whole. */
  lemma CaptureSkipsRun(d: string, other: char, rest: string, unit: char)
    requires d != "" && AllDigits(d) && !IsDigit(other) && other != unit && !IsDigit(unit)
    ensures Capture(d + [other] + rest, unit) == Capture([other] + rest, unit)
  {
    var s := d + [other] + rest;
    DigitRunOf(d, [other] + rest);
    assert s == d + ([other] + rest);
    assert s[|d|..] == [other] + rest;
  }

  /** A character that is not a digit never starts a match. */
  lemma CaptureSkipsChar(c: char, rest: string, unit: char)
    requires !IsDigit(c) && !IsDigit(unit)
    ensures Capture([c] + rest, unit) == Capture(rest, unit)
  {
    assert ([c] + rest)[1..] == rest;
  }

  /** `formatDuration` on the durations the flight offers carry: the hour
      and minute digits are shown as written. */
  lemma FormatHoursAndMinutes(h: string, m: string)
    requires h != "" && AllDigits(h) && m != "" && AllDigits(m)
    ensures FormatDuration("PT" + h + "H" + m + "M") == h + "h " + m + "m"
  {
    var s := "PT" + h + "H" + m + "M";
    var afterT := h + ['H'] + (m + "M");
    assert s == ['P'] + (['T'] + afterT);
    CaptureSkipsChar('P', ['T'] + afterT, 'H');
    CaptureSkipsChar('T', afterT, 'H');
    CaptureLeadingRun(h, 'H', m + "M");
    CaptureSkipsChar('P', ['T'] + afterT, 'M');
    CaptureSkipsChar('T', afterT, 'M');
    CaptureSkipsRun(h, 'H', m + "M", 'M');
    CaptureSkipsChar('H', m + "M", 'M');
    CaptureLeadingRun(m, 'M', "");
    assert m + ['M'] + "" == m + "M";
  }

  lemma DigitsLackLetter(d: string, c: char)
    requires AllDigits(d) && !IsDigit(c)
    ensures c !in d
  {
  }

  /** The digits right after the `PT` prefix, followed by their unit. */
  lemma CaptureAfterPrefix(d: string, unit: char)
    requires d != "" && AllDigits(d) && !IsDigit(unit)
    ensures Capture("PT" + d + [unit], unit) == Some(d)
  {
    var tail := d + [unit] + "";
    assert "PT" + d + [unit] == ['P'] + (['T'] + tail);
    CaptureSkipsChar('P', ['T'] + tail, unit);
    CaptureSkipsChar('T', tail, unit);
    CaptureLeadingRun(d, unit, "");
  }

  /** A single-unit duration never mentions the other unit. */
  lemma OtherUnitAbsent(d: string, unit: char, other: char)
    requires AllDigits(d) && !IsDigit(other) && other !in "PT" && other != unit
    ensures Capture("PT" + d + [unit], other).None?
  {
    DigitsLackLetter(d, other);
    var s := "PT" + d + [unit];
    assert other !in s by {
      assert s == "PT" + (d + [unit]);
    }
  }

  /** A whole number of hours shows zero minutes. */
  lemma FormatHoursOnly(h: string)
    requires h != "" && AllDigits(h)
    ensures FormatDuration("PT" + h + "H") == h + "h 0m"
  {
    CaptureAfterPrefix(h, 'H');
    OtherUnitAbsent(h, 'H', 'M');
    assert "PT" + h + "H" == "PT" + h + ['H'];
  }

  /** Under an hour shows zero hours. */
  lemma FormatMinutesOnly(m: string)
    requires m != "" && AllDigits(m)
    ensures FormatDuration("PT" + m + "M") == "0h " + m + "m"
  {
    var s := "PT" + m + "M";
    assert s == "PT" + m + ['M'];
    CaptureAfterPrefix(m, 'M');
    OtherUnitAbsent(m, 'M', 'H');
    var hours := Capture(s, 'H');
    var minutes := Capture(s, 'M');
    assert hours == None && minutes == Some(m);
    assert "0" + "h " == "0h ";
  }

  // ------------------------------------------------------- search inputs

  /** `trip.destination.split(',')[0].trim()`: the first comma-separated
      segment of the destination, trimmed. */
  function DestinationPrefill(destination: string): (r: string)
    ensures ',' !in r
    ensures Trimmed(r)
  {
    var first := Split(destination, ',')[0];
    var r := Trim(first);
    assert forall ch :: ch in r ==> ch in first by {
      var i, j :| 0 <= i <= j <= |first| && r == first[i..j] && AllSpace(first[..i]) && AllSpace(first[j..]);
    }
    r
  }

  /** The prefill is the trimmed text before the first comma; a destination
      without a comma is only trimmed. */
  lemma DestinationPrefillIsTextBeforeComma(destination: string)
    ensures DestinationPrefill(destination) == Trim(Before(destination, ','))
    ensures ',' !in destination ==> DestinationPrefill(destination) == Trim(destination)
  {
    BeforeIsFirstPiece(destination, ',');
    if ',' !in destination {
      SplitNoSeparator(destination, ',');
    }
  }

  /** `${trip.startDate.split('T')[0]}`: the calendar date of an ISO
      timestamp. */
  function DatePart(iso: string): (r: string)
    ensures 'T' !in r
    ensures |r| <= |iso| && r == iso[..|r|]
  {
    BeforeIsFirstPiece(iso, 'T');
    Split(iso, 'T')[0]
  }

  /** A stored timestamp `YYYY-MM-DDThh:mm:ss.sssZ` yields its
      `YYYY-MM-DD`. */
  lemma DatePartOfTimestamp(date: string, time: string)
    requires 'T' !in date
    ensures DatePart(date + "T" + time) == date
  {
    SplitAtSeparator(date, 'T', time);
  }

  /** `handleLookup` refuses a missing value or one shorter than three
      characters; unlike the map search it does not trim. */
  function LookupAllowed(value: Option<string>): (r: bool)
    ensures r <==> value.Some? && |value.value| >= 3
  {
    Truthy(value) && |value.value| >= 3
  }

  // ---------------------------------------------------------------- stops

  /** The stop label of a segment: `Direct`, `1 stop`, `n stops`. */
  function StopLabel(stops: nat): (r: string)
    ensures stops == 0 <==> r == "Direct"
  {
    if stops == 0 then "Direct"
    else
      var digits := NatToString(stops);
      var r := digits + " stop" + (if stops > 1 then "s" else "");
      assert r[0] == digits[0] && IsDigit(r[0]);
      r
  }

  /** The label names the count: its leading digits read back as the
      number of stops, and the plural is used exactly above one. */
  lemma StopLabelReadsBack(stops: nat)
    requires stops > 0
    ensures
      var r := StopLabel(stops);
      var digits := NatToString(stops);
      && r[..|digits|] == digits && DigitsValue(digits) == stops
      && r[|digits|..] == (if stops == 1 then " stop" else " stops")
  {
  }
}
