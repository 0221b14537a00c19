/** The date/time validator: for each resource type a fixed list of date and
    date-time fields, and one error per field holding a string that is not
    one of the accepted ISO 8601 / RFC 3339 forms with in-range parts. */
module DateTimes {
  import opened Wrappers
  import opened Text
  import opened Graph
  import opened Transform
  import opened Validation

  const InvalidMessage: string := "Invalid ISO 8601 datetime format"

  /** The date/time fields of each resource type, as the validator is built. */
  function NewDateTimeValidator(): (table: map<string, seq<string>>) {
    map[
      "Observation" := ["effectiveDateTime", "issued"],
      "Patient" := ["birthDate", "deceasedDateTime"],
      "Condition" := ["onsetDateTime", "abatementDateTime", "recordedDate"],
      "MedicationRequest" := ["authoredOn"],
      "Procedure" := ["performedDateTime"],
      "Encounter" := ["period"],
      "DiagnosticReport" := ["effectiveDateTime", "issued"],
      "Specimen" := ["receivedTime"]
    ]
  }

  // ---------------------------------------------------------------------
  // The seven accepted shapes
  // ---------------------------------------------------------------------

  /** `n` decimal digits start at position `i`. */
  predicate DigitsAt(s: string, i: nat, n: nat) {
    i + n <= |s| && forall j :: i <= j < i + n ==> IsDigit(s[j])
  }

  /** Two decimal digits start at position `i`. */
  predicate Digit2(s: string, i: nat) {
    i + 2 <= |s| && IsDigit(s[i]) && IsDigit(s[i + 1])
  }

  /** Four decimal digits start at position `i`. */
  predicate Digit4(s: string, i: nat) {
    Digit2(s, i) && Digit2(s, i + 2)
  }

  /** `YYYY-MM-DD` at the start. */
  predicate DateAt(s: string) {
    Digit4(s, 0) && |s| >= 10 && s[4] == '-' && Digit2(s, 5) && s[7] == '-' && Digit2(s, 8)
  }

  /** `YYYY-MM-DDThh:mm:ss` at the start. */
  predicate TimeAt(s: string) {
    DateAt(s) && |s| >= 19 && s[10] == 'T' && Digit2(s, 11) && s[13] == ':' &&
    Digit2(s, 14) && s[16] == ':' && Digit2(s, 17)
  }

  /** `+hh:mm` or `-hh:mm` at position `i`, ending the string. */
  predicate OffsetAt(s: string, i: nat) {
    |s| == i + 6 && (s[i] == '+' || s[i] == '-') && Digit2(s, i + 1) && s[i + 3] == ':' && Digit2(s, i + 4)
  }

  /** A fraction `.d…d` of one to nine digits after the seconds, followed by
      `tail` more characters. */
  predicate FractionThen(s: string, tail: nat) {
    var n := |s| - 20 - tail;
    1 <= n <= 9 && s[19] == '.' && DigitsAt(s, 20, n)
  }

  /** The shapes `isValidDateTime` matches its input against, in order. */
  datatype Shape =
    | Year            // YYYY
    | YearMonth       // YYYY-MM
    | FullDate        // YYYY-MM-DD
    | Utc             // YYYY-MM-DDThh:mm:ssZ
    | Offset          // YYYY-MM-DDThh:mm:ss+hh:mm
    | FractionUtc     // YYYY-MM-DDThh:mm:ss.sssZ
    | FractionOffset  // YYYY-MM-DDThh:mm:ss.sss+hh:mm

  const Patterns: seq<Shape> := [Year, YearMonth, FullDate, Utc, Offset, FractionUtc, FractionOffset]

  predicate Matches(p: Shape, s: string) {
    match p
    case Year => |s| == 4 && Digit4(s, 0)
    case YearMonth => |s| == 7 && Digit4(s, 0) && s[4] == '-' && Digit2(s, 5)
    case FullDate => |s| == 10 && DateAt(s)
    case Utc => |s| == 20 && TimeAt(s) && s[19] == 'Z'
    case Offset => TimeAt(s) && OffsetAt(s, 19)
    case FractionUtc => TimeAt(s) && FractionThen(s, 1) && s[|s| - 1] == 'Z'
    case FractionOffset => TimeAt(s) && FractionThen(s, 6) && OffsetAt(s, |s| - 6)
  }

  // ---------------------------------------------------------------------
  // The layouts and their range checks
  // ---------------------------------------------------------------------

  /** The two-digit number at position `i`. */
  function Num2(s: string, i: nat): (n: nat)
    requires Digit2(s, i)
    ensures n <= 99
  {
    (s[i] as int - '0' as int) * 10 + (s[i + 1] as int - '0' as int)
  }

  function YearOf(s: string): nat
    requires Digit4(s, 0)
  {
    Num2(s, 0) * 100 + Num2(s, 2)
  }

  predicate IsLeap(year: int) {
    year % 4 == 0 && (year % 100 != 0 || year % 400 == 0)
  }

  /** The number of days of a month of the proleptic Gregorian calendar. */
  function DaysIn(month: int, year: int): (d: int)
    requires 1 <= month <= 12
    ensures 28 <= d <= 31
  {
    if month == 2 then (if IsLeap(year) then 29 else 28)
    else if month == 4 || month == 6 || month == 9 || month == 11 then 30
    else 31
  }

  /** The month of a `YYYY-MM…` string lies in 1..12. */
  predicate MonthOk(s: string)
    requires Digit4(s, 0) && |s| >= 7 && Digit2(s, 5)
  {
    1 <= Num2(s, 5) <= 12
  }

  /** The month is valid and the day lies within it. */
  predicate DayOk(s: string)
    requires DateAt(s)
  {
    MonthOk(s) && 1 <= Num2(s, 8) <= DaysIn(Num2(s, 5), YearOf(s))
  }

  /** Hour 0..23, minute 0..59, second 0..59 (a leap second is refused). */
  predicate ClockOk(s: string)
    requires TimeAt(s)
  {
    Num2(s, 11) <= 23 && Num2(s, 14) <= 59 && Num2(s, 17) <= 59
  }

  /** A numeric offset's hour lies in 0..24 and its minute in 0..60. The
      strict RFC 3339 reading of `time.Parse` allows 23 and 59 at most, but
      when it fails `time.Parse` falls back to its general layout parser,
      which refuses only an offset hour above 24 or minute above 60. */
  predicate OffsetOk(s: string, i: nat)
    requires OffsetAt(s, i)
  {
    Num2(s, i + 1) <= 24 && Num2(s, i + 4) <= 60
  }

  /** The layouts `tryParseDateTime` tries, in order. */
  datatype Layout = YearLayout | YearMonthLayout | DateLayout | Rfc3339 | Rfc3339Nano

  const Layouts: seq<Layout> := [YearLayout, YearMonthLayout, DateLayout, Rfc3339, Rfc3339Nano]

  /** A date-time in one of the four RFC 3339 shapes. */
  predicate RfcShape(s: string) {
    Matches(Utc, s) || Matches(Offset, s) || Matches(FractionUtc, s) || Matches(FractionOffset, s)
  }

  /** Whether parsing `s` under a layout succeeds. Both RFC 3339 layouts take
      a fraction of any length the shapes allow; a numeric zone is range
      checked. */
  predicate Parses(l: Layout, s: string) {
    match l
    case YearLayout => Matches(Year, s)
    case YearMonthLayout => Matches(YearMonth, s) && MonthOk(s)
    case DateLayout => Matches(FullDate, s) && DayOk(s)
    case _ =>
      RfcShape(s) && DayOk(s) && ClockOk(s) &&
      (s[|s| - 1] != 'Z' ==> OffsetAt(s, |s| - 6) && OffsetOk(s, |s| - 6))
  }

  /** `tryParseDateTime`: some layout, tried from the `k`-th on, parses `s`. */
  predicate TryParseFrom(s: string, k: nat)
    decreases |Layouts| - k
  {
    k < |Layouts| && (Parses(Layouts[k], s) || TryParseFrom(s, k + 1))
  }

  predicate TryParseDateTime(s: string) {
    TryParseFrom(s, 0)
  }

  /** `isValidDateTime`: the first shape from the `k`-th on that `s` matches
      decides, by whether some layout parses `s`; no shape, no acceptance. */
  predicate MatchFrom(s: string, k: nat)
    decreases |Patterns| - k
  {
    if k >= |Patterns| then false
    else if Matches(Patterns[k], s) then TryParseDateTime(s)
    else MatchFrom(s, k + 1)
  }

  predicate IsValidDateTime(s: string) {
    MatchFrom(s, 0)
  }

  // ---------------------------------------------------------------------
  // What is accepted
  // ---------------------------------------------------------------------

  /** The ranges `time.Parse` places on each part the string has: a month
      of 1..12, a day that exists in its month, hour 0..23, minute and second
      0..59 (no leap second, which RFC 3339 would allow), and an offset of at
      most 24 hours and 60 minutes. */
  predicate InRange(s: string) {
    (|s| >= 7 && Digit4(s, 0) && Digit2(s, 5) ==> MonthOk(s)) &&
    (DateAt(s) ==> DayOk(s)) &&
    (TimeAt(s) ==> ClockOk(s)) &&
    (|s| >= 6 && OffsetAt(s, |s| - 6) ==> OffsetOk(s, |s| - 6))
  }

  predicate HasShape(s: string) {
    exists p :: p in Patterns && Matches(p, s)
  }

  /** A value is accepted exactly when it has one of the seven shapes and
      every part it has is in range: matching a shape alone is not enough. */
  lemma ValidDateTimeIff(s: string)
    ensures IsValidDateTime(s) <==> HasShape(s) && InRange(s)
  {
    assert Patterns[0] == Year && Patterns[1] == YearMonth && Patterns[2] == FullDate;
    assert Patterns[3] == Utc && Patterns[4] == Offset && Patterns[5] == FractionUtc && Patterns[6] == FractionOffset;
    assert Layouts[0] == YearLayout && Layouts[1] == YearMonthLayout && Layouts[2] == DateLayout;
    assert Layouts[3] == Rfc3339 && Layouts[4] == Rfc3339Nano;
    if HasShape(s) {
      var p :| p in Patterns && Matches(p, s);
      ShapeDecides(s, p);
    } else {
      NoShapeRejected(s);
    }
  }

  lemma NoShapeRejected(s: string)
    requires !HasShape(s)
    ensures !IsValidDateTime(s)
  {
    forall k | 0 <= k < |Patterns|
      ensures !Matches(Patterns[k], s)
    {
      assert Patterns[k] in Patterns;
    }
    assert !MatchFrom(s, 7);
    assert !MatchFrom(s, 6);
    assert !MatchFrom(s, 5);
    assert !MatchFrom(s, 4);
    assert !MatchFrom(s, 3);
    assert !MatchFrom(s, 2);
    assert !MatchFrom(s, 1);
  }

  /** Once `s` has shape `p`, acceptance is the range check. */
  lemma ShapeDecides(s: string, p: Shape)
    requires p in Patterns && Matches(p, s)
    requires Patterns == [Year, YearMonth, FullDate, Utc, Offset, FractionUtc, FractionOffset]
    requires Layouts == [YearLayout, YearMonthLayout, DateLayout, Rfc3339, Rfc3339Nano]
    ensures IsValidDateTime(s) <==> InRange(s)
  {
    assert TryParseDateTime(s) <==>
      Parses(YearLayout, s) || Parses(YearMonthLayout, s) || Parses(DateLayout, s) || Parses(Rfc3339, s) by {
      assert !TryParseFrom(s, 5);
      assert TryParseFrom(s, 4) == Parses(Rfc3339Nano, s);
    }
    match p
    case Year =>
      assert IsValidDateTime(s) == TryParseDateTime(s);
      assert !DateAt(s) && !TimeAt(s);
    case YearMonth =>
      assert !Matches(Year, s);
      assert IsValidDateTime(s) == TryParseDateTime(s);
      assert !DateAt(s) && !TimeAt(s);
    case FullDate =>
      assert !Matches(Year, s) && !Matches(YearMonth, s);
      assert IsValidDateTime(s) == TryParseDateTime(s);
      assert !TimeAt(s) && !OffsetAt(s, |s| - 6);
    case _ =>
      assert RfcShape(s);
      assert !Matches(Year, s) && !Matches(YearMonth, s) && !Matches(FullDate, s);
      assert IsValidDateTime(s) == MatchFrom(s, 3);
      RfcMatch(s);
      assert IsValidDateTime(s) == TryParseDateTime(s);
      assert TryParseDateTime(s) == Parses(Rfc3339, s);
      RfcRanges(s);
  }

  /** A date-time in an RFC 3339 shape reaches the layouts. */
  lemma RfcMatch(s: string)
    requires RfcShape(s)
    requires Patterns == [Year, YearMonth, FullDate, Utc, Offset, FractionUtc, FractionOffset]
    ensures MatchFrom(s, 3) == TryParseDateTime(s)
  {
    if !Matches(Utc, s) && !Matches(Offset, s) && !Matches(FractionUtc, s) {
      assert MatchFrom(s, 6) == TryParseDateTime(s);
    }
  }

  /** For a date-time in an RFC 3339 shape, the RFC 3339 layout's checks are
      the range checks. */
  lemma RfcRanges(s: string)
    requires RfcShape(s)
    ensures Parses(Rfc3339, s) <==> InRange(s)
  {
    assert DateAt(s) && TimeAt(s);
    assert |s| >= 7 && Digit4(s, 0) && Digit2(s, 5);
    if s[|s| - 1] == 'Z' {
      assert !OffsetAt(s, |s| - 6);
    } else {
      assert Matches(Offset, s) || Matches(FractionOffset, s);
    }
  }

  // ---------------------------------------------------------------------
  // Examples
  // ---------------------------------------------------------------------

  /** `hh:mm:ss`. */
  predicate ClockShape(c: string) {
    |c| == 8 && Digit2(c, 0) && c[2] == ':' && Digit2(c, 3) && c[5] == ':' && Digit2(c, 6)
  }

  predicate ClockInRange(c: string)
    requires ClockShape(c)
  {
    Num2(c, 0) <= 23 && Num2(c, 3) <= 59 && Num2(c, 6) <= 59
  }

  /** No fraction, or a point and one to nine digits. */
  predicate FractionShape(f: string) {
    f == "" || (2 <= |f| <= 10 && f[0] == '.' && DigitsAt(f, 1, |f| - 1))
  }

  /** `Z` or a numeric offset `±hh:mm`. */
  predicate ZoneShape(z: string) {
    z == "Z" || OffsetAt(z, 0)
  }

  predicate ZoneInRange(z: string)
    requires ZoneShape(z)
  {
    z == "Z" || OffsetOk(z, 0)
  }

  /** In a date-time in an RFC 3339 shape, acceptance is the RFC 3339
      layout's check. */
  lemma RfcDecides(s: string)
    requires RfcShape(s)
    ensures IsValidDateTime(s) <==> Parses(Rfc3339, s)
  {
    assert Patterns == [Year, YearMonth, FullDate, Utc, Offset, FractionUtc, FractionOffset];
    assert Layouts == [YearLayout, YearMonthLayout, DateLayout, Rfc3339, Rfc3339Nano];
    var p := if Matches(Utc, s) then Utc else if Matches(Offset, s) then Offset
      else if Matches(FractionUtc, s) then FractionUtc else FractionOffset;
    ShapeDecides(s, p);
    RfcRanges(s);
  }

  /** The date and clock of a composed date-time are those it was composed of. */
  lemma ComposedClock(date: string, clock: string, rest: string)
    requires Matches(FullDate, date) && ClockShape(clock)
    ensures var s := date + "T" + clock + rest;
      TimeAt(s) && (DayOk(s) <==> DayOk(date)) && (ClockOk(s) <==> ClockInRange(clock))
  {
    var s := date + "T" + clock + rest;
    assert forall k :: 0 <= k < 10 ==> s[k] == date[k];
    assert s[10] == 'T';
    assert forall k :: 0 <= k < 8 ==> s[11 + k] == clock[k];
    assert DateAt(s) && TimeAt(s);
    assert YearOf(s) == YearOf(date) && Num2(s, 5) == Num2(date, 5) && Num2(s, 8) == Num2(date, 8);
    assert Num2(s, 11) == Num2(clock, 0) && Num2(s, 14) == Num2(clock, 3) && Num2(s, 17) == Num2(clock, 6);
  }

  /** The fraction and zone of a composed date-time give it an RFC 3339
      shape, and its numeric offset is the zone's. */
  lemma ComposedZone(head: string, frac: string, zone: string)
    requires |head| == 19 && FractionShape(frac) && ZoneShape(zone)
    ensures var s := head + frac + zone;
      (s[|s| - 1] == 'Z' <==> zone == "Z") &&
      (zone != "Z" ==> OffsetAt(s, |s| - 6) && (OffsetOk(s, |s| - 6) <==> OffsetOk(zone, 0))) &&
      (zone == "Z" ==> !OffsetAt(s, |s| - 6)) &&
      (TimeAt(s) ==> RfcShape(s))
  {
    var s := head + frac + zone;
    var z := 19 + |frac|;
    assert forall k :: 0 <= k < |frac| ==> s[19 + k] == frac[k];
    assert forall k :: 0 <= k < |zone| ==> s[z + k] == zone[k];
    if frac != "" {
      assert DigitsAt(s, 20, |frac| - 1);
    }
    if zone != "Z" {
      assert OffsetAt(s, z);
      assert Num2(s, z + 1) == Num2(zone, 1) && Num2(s, z + 4) == Num2(zone, 4);
    }
  }

  /** A date-time is a date, `T`, a clock, an optional fraction and a zone;
      it is accepted exactly when the date exists and the clock and zone are
      in range. */
  lemma ComposedDateTime(date: string, clock: string, frac: string, zone: string)
    requires Matches(FullDate, date) && ClockShape(clock) && FractionShape(frac) && ZoneShape(zone)
    ensures IsValidDateTime(date + "T" + clock + frac + zone) <==>
      DayOk(date) && ClockInRange(clock) && ZoneInRange(zone)
  {
    var head := date + "T" + clock;
    var s := date + "T" + clock + frac + zone;
    assert s == head + frac + zone && s == date + "T" + clock + (frac + zone);
    ComposedClock(date, clock, frac + zone);
    ComposedZone(head, frac, zone);
    RfcDecides(s);
  }

  /** Only these lengths have a shape: a string of 8 or 19 characters, such
      as a date without dashes or a date-time without a zone, never does. */
  lemma ShapeLengths(s: string)
    requires HasShape(s)
    ensures |s| == 4 || |s| == 7 || |s| == 10 || 20 <= |s| <= 35
  {
  }


  /** A year alone is a valid date. */
  lemma AcceptsYear()
    ensures IsValidDateTime("2024")
  {
    ValidDateTimeIff("2024");
    assert Matches(Year, "2024");
  }

  /** A year and month. */
  lemma AcceptsYearMonth()
    ensures IsValidDateTime("2024-01")
  {
    ValidDateTimeIff("2024-01");
    assert Matches(YearMonth, "2024-01");
  }

  /** A full date. */
  lemma AcceptsDate()
    ensures IsValidDateTime("2024-01-15")
  {
    ValidDateTimeIff("2024-01-15");
    assert Matches(FullDate, "2024-01-15");
  }

  /** A date-time in UTC. */
  lemma AcceptsUtc()
    ensures IsValidDateTime("2024-01-15" + "T" + "10:30:00" + "Z")
  {
    assert Matches(FullDate, "2024-01-15") && ClockShape("10:30:00") && DayOk("2024-01-15") && ClockInRange("10:30:00");
    ComposedDateTime("2024-01-15", "10:30:00", "", "Z");
    assert "2024-01-15" + "T" + "10:30:00" + "" + "Z" == "2024-01-15" + "T" + "10:30:00" + "Z";
  }

  /** A date-time with a numeric offset. */
  lemma AcceptsOffset()
    ensures IsValidDateTime("2024-01-15" + "T" + "10:30:00" + "+05:00")
  {
    assert Matches(FullDate, "2024-01-15") && ClockShape("10:30:00") && ZoneShape("+05:00") && DayOk("2024-01-15") && ClockInRange("10:30:00") && ZoneInRange("+05:00");
    ComposedDateTime("2024-01-15", "10:30:00", "", "+05:00");
    assert "2024-01-15" + "T" + "10:30:00" + "" + "+05:00" == "2024-01-15" + "T" + "10:30:00" + "+05:00";
  }

  /** Fractional seconds in UTC. */
  lemma AcceptsFractionUtc()
    ensures IsValidDateTime("2024-01-15" + "T" + "10:30:00" + ".123" + "Z")
  {
    assert Matches(FullDate, "2024-01-15") && ClockShape("10:30:00") && FractionShape(".123") && DayOk("2024-01-15") && ClockInRange("10:30:00");
    ComposedDateTime("2024-01-15", "10:30:00", ".123", "Z");
  }

  /** Fractional seconds with a numeric offset. */
  lemma AcceptsFractionOffset()
    ensures IsValidDateTime("2024-01-15" + "T" + "10:30:00" + ".123" + "+05:00")
  {
    assert Matches(FullDate, "2024-01-15") && ClockShape("10:30:00") && FractionShape(".123") && ZoneShape("+05:00") && DayOk("2024-01-15") && ClockInRange("10:30:00") && ZoneInRange("+05:00");
    ComposedDateTime("2024-01-15", "10:30:00", ".123", "+05:00");
  }

  /** An offset of 24 hours passes the general layout parser. */
  lemma AcceptsOffsetHour24()
    ensures IsValidDateTime("2024-01-15" + "T" + "10:30:00" + "+24:00")
  {
    assert Matches(FullDate, "2024-01-15") && ClockShape("10:30:00") && ZoneShape("+24:00") && DayOk("2024-01-15") && ClockInRange("10:30:00") && ZoneInRange("+24:00");
    ComposedDateTime("2024-01-15", "10:30:00", "", "+24:00");
    assert "2024-01-15" + "T" + "10:30:00" + "" + "+24:00" == "2024-01-15" + "T" + "10:30:00" + "+24:00";
  }

  /** An offset minute of 60 passes the general layout parser. */
  lemma AcceptsOffsetMinute60()
    ensures IsValidDateTime("2024-01-15" + "T" + "10:30:00" + "-05:60")
  {
    assert Matches(FullDate, "2024-01-15") && ClockShape("10:30:00") && ZoneShape("-05:60") && DayOk("2024-01-15") && ClockInRange("10:30:00") && ZoneInRange("-05:60");
    ComposedDateTime("2024-01-15", "10:30:00", "", "-05:60");
    assert "2024-01-15" + "T" + "10:30:00" + "" + "-05:60" == "2024-01-15" + "T" + "10:30:00" + "-05:60";
  }

  /** An offset hour above 24 is out of range. */
  lemma RejectsOffsetHour25()
    ensures !IsValidDateTime("2024-01-15" + "T" + "10:30:00" + "+25:00")
  {
    assert Matches(FullDate, "2024-01-15") && ClockShape("10:30:00") && ZoneShape("+25:00") && !ZoneInRange("+25:00");
    ComposedDateTime("2024-01-15", "10:30:00", "", "+25:00");
    assert "2024-01-15" + "T" + "10:30:00" + "" + "+25:00" == "2024-01-15" + "T" + "10:30:00" + "+25:00";
  }

  /** An offset minute above 60 is out of range. */
  lemma RejectsOffsetMinute61()
    ensures !IsValidDateTime("2024-01-15" + "T" + "10:30:00" + "+05:61")
  {
    assert Matches(FullDate, "2024-01-15") && ClockShape("10:30:00") && ZoneShape("+05:61") && !ZoneInRange("+05:61");
    ComposedDateTime("2024-01-15", "10:30:00", "", "+05:61");
    assert "2024-01-15" + "T" + "10:30:00" + "" + "+05:61" == "2024-01-15" + "T" + "10:30:00" + "+05:61";
  }

  /** Month 13 has the date shape but is out of range. */
  lemma RejectsMonth13()
    ensures !IsValidDateTime("2024-13-01")
  {
    ValidDateTimeIff("2024-13-01");
  }

  /** Day 32 is out of range. */
  lemma RejectsDay32()
    ensures !IsValidDateTime("2024-01-32")
  {
    ValidDateTimeIff("2024-01-32");
  }

  /** Hour 25 is out of range. */
  lemma RejectsHour25()
    ensures !IsValidDateTime("2024-01-15" + "T" + "25:00:00" + "Z")
  {
    assert Matches(FullDate, "2024-01-15") && ClockShape("25:00:00");
    ComposedDateTime("2024-01-15", "25:00:00", "", "Z");
    assert "2024-01-15" + "T" + "25:00:00" + "" + "Z" == "2024-01-15" + "T" + "25:00:00" + "Z";
  }

  /** The 29th of February of a leap year. */
  lemma AcceptsLeapDay()
    ensures IsValidDateTime("2024-02-29")
  {
    ValidDateTimeIff("2024-02-29");
    assert Matches(FullDate, "2024-02-29");
  }

  /** The 29th of February of a common year. */
  lemma RejectsNonLeapDay()
    ensures !IsValidDateTime("2023-02-29")
  {
    ValidDateTimeIff("2023-02-29");
  }

  /** A century year not divisible by 400 is not a leap year. */
  lemma RejectsCenturyLeapDay()
    ensures !IsValidDateTime("1900-02-29")
  {
    ValidDateTimeIff("1900-02-29");
  }

  /** The empty string has no shape. */
  lemma RejectsEmpty()
    ensures !IsValidDateTime("")
  {
    ValidDateTimeIff("");
  }

  /** A date with slashes has no shape. */
  lemma RejectsSlashDate()
    ensures !IsValidDateTime("01/15/2024")
  {
    ValidDateTimeIff("01/15/2024");
    assert "01/15/2024"[2] == '/';
  }

  /** A date without dashes has no shape. */
  lemma RejectsCompactDate()
    ensures !IsValidDateTime("20240115")
  {
    ValidDateTimeIff("20240115");
    if HasShape("20240115") {
      ShapeLengths("20240115");
    }
  }

  /** A date-time without a zone has no shape. */
  lemma RejectsMissingZone()
    ensures !IsValidDateTime("2024-01-15T10:30:00")
  {
    ValidDateTimeIff("2024-01-15T10:30:00");
    if HasShape("2024-01-15T10:30:00") {
      ShapeLengths("2024-01-15T10:30:00");
    }
  }

  /** Text has no shape. */
  lemma RejectsText()
    ensures !IsValidDateTime("not-a-date")
  {
    ValidDateTimeIff("not-a-date");
    assert "not-a-date"[0] == 'n';
  }

  // ---------------------------------------------------------------------
  // The validator
  // ---------------------------------------------------------------------

  /** `extractStringValue`: the string a value holds, directly or behind one
      pointer, or `""`. */
  function ExtractStringValue(v: Value): (s: string)
    ensures v.VString? ==> s == v.s
    ensures v.VPtr? && v.target.Some? && v.target.value.VString? ==> s == v.target.value.s
    ensures s != "" ==> v.VString? || (v.VPtr? && v.target.Some? && v.target.value.VString?)
  {
    match v
    case VPtr(None) => ""
    case VPtr(Some(x)) => if x.VString? then x.s else ""
    case VString(s) => s
    case _ => ""
  }

  /** The string a field holds, or `""` when the field is absent or empty or
      holds no string. */
  function StringOf(cat: Catalog, res: Resource, field: string): string {
    var v := GetFieldValue(cat, res, field);
    if v.None? || IsFieldEmpty(v.value.1) then "" else ExtractStringValue(v.value.1)
  }

  /** The field holds a string that is not a valid date/time. */
  predicate Invalid(cat: Catalog, res: Resource, field: string) {
    var s := StringOf(cat, res, field);
    s != "" && !IsValidDateTime(s)
  }

  function Finding(cat: Catalog, res: Resource, field: string): Option<ValidationError> {
    if Invalid(cat, res, field) then Some(CreateError(field, InvalidMessage)) else None
  }

  function Check(cat: Catalog, res: Resource): string -> Option<ValidationError> {
    field => Finding(cat, res, field)
  }

  /** The issues of a date/time validator with the given table. */
  function Issues(cat: Catalog, table: map<string, seq<string>>, res: Resource): seq<ValidationError> {
    if res.typeName in table then Collect(table[res.typeName], Check(cat, res)) else []
  }

  /** `DateTimeValidator.Validate`. */
  method Validate(cat: Catalog, table: map<string, seq<string>>, res: Resource) returns (errors: seq<ValidationError>)
    ensures errors == Issues(cat, table, res)
  {
    if res.typeName !in table {
      return [];
    }
    var fields := table[res.typeName];
    errors := [];
    for i := 0 to |fields|
      invariant errors == Collect(fields[..i], Check(cat, res))
    {
      var field := fields[i];
      assert fields[..i + 1][..i] == fields[..i];
      var value := GetFieldValue(cat, res, field);
      if value.None? || IsFieldEmpty(value.value.1) {
        continue;
      }
      var strValue := ExtractStringValue(value.value.1);
      if strValue == "" {
        continue;
      }
      if !IsValidDateTime(strValue) {
        errors := errors + [CreateError(field, InvalidMessage)];
      }
    }
    assert fields[..|fields|] == fields;
  }

  /** Every issue is an error named exactly as a configured field whose
      string is set and invalid, and every such field has its issue; a type
      without configured fields has none. */
  lemma IssuesAreInvalidDateTimes(cat: Catalog, table: map<string, seq<string>>, res: Resource)
    ensures res.typeName !in table ==> Issues(cat, table, res) == []
    ensures forall e :: e in Issues(cat, table, res) ==>
      e.severity == "error" && e.message == InvalidMessage &&
      e.field in table[res.typeName] && Invalid(cat, res, e.field)
    ensures res.typeName in table ==>
      forall f :: f in table[res.typeName] && Invalid(cat, res, f) ==>
        CreateError(f, InvalidMessage) in Issues(cat, table, res)
  {
    if res.typeName in table {
      var fields := table[res.typeName];
      CollectSoundComplete(fields, Check(cat, res));
      forall e | e in Issues(cat, table, res)
        ensures e.field in fields && Invalid(cat, res, e.field)
      {
        var f :| f in fields && Check(cat, res)(f) == Some(e);
      }
      forall f | f in fields && Invalid(cat, res, f)
        ensures CreateError(f, InvalidMessage) in Issues(cat, table, res)
      {
        assert Check(cat, res)(f).Some?;
      }
    }
  }

  /** A field holding a struct, such as a period, has no string and is never
      reported. */
  lemma StructFieldSkipped(cat: Catalog, res: Resource, field: string)
    requires GetFieldValue(cat, res, field).Some?
    requires GetFieldValue(cat, res, field).value.1.VStruct?
    ensures !Invalid(cat, res, field)
  {
  }
}
