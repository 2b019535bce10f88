/**
 * Helpers of src/util.rs: the three-format date parser used when post records are
 * deserialized, the conversion of a post date to epoch seconds used when it is
 * serialized, and the in-place removal of one trailing slash.
 */
module Util {
  import opened Wrappers
  import opened Decimal
  import opened Calendar

  // ---------------------------------------------------------------------------
  // parse_datetime_from_str

  /** The kinds of parse failure this grammar reports (a subset of chrono's `ParseErrorKind`). */
  datatype ParseError = OutOfRange | Invalid | TooShort | TooLong

  /** One element of a format string: a run of exactly `width` decimal digits, or one literal character. */
  datatype Item = Number(width: nat) | Literal(c: char)

  /** `%Y-%m-%d` */
  const DateItems: seq<Item> := [Number(4), Literal('-'), Number(2), Literal('-'), Number(2)]
  /** `%Y-%m-%d %H:%M` */
  const MinuteItems: seq<Item> := DateItems + [Literal(' '), Number(2), Literal(':'), Number(2)]
  /** `%Y-%m-%d %H:%M:%S` */
  const SecondItems: seq<Item> := MinuteItems + [Literal(':'), Number(2)]

  /** The widths of the numeric items, in order. */
  function Widths(items: seq<Item>): seq<nat> {
    if items == [] then []
    else if items[0].Number? then [items[0].width] + Widths(items[1..])
    else Widths(items[1..])
  }

  /** The length of every string the format accepts. */
  function FormatLength(items: seq<Item>): nat {
    if items == [] then 0
    else (if items[0].Number? then items[0].width else 1) + FormatLength(items[1..])
  }

  /**
   * Matches `s` against the format from left to right and returns the numeric fields:
   * running out of input is TooShort, a wrong character is Invalid, input left over is TooLong.
   */
  function Scan(s: string, items: seq<Item>): (r: Result<seq<nat>, ParseError>)
    ensures r.Ok? ==> Fits(r.value, items)
    decreases items
  {
    if items == [] then
      if s == [] then Ok([]) else Err(TooLong)
    else match items[0]
      case Literal(c) =>
        if s == [] then Err(TooShort)
        else if s[0] != c then Err(Invalid)
        else Scan(s[1..], items[1..])
      case Number(w) =>
        if |s| < w then Err(TooShort)
        else if !AllDigits(s[..w]) then Err(Invalid)
        else
          var rest :- Scan(s[w..], items[1..]);
          NatOfBound(s[..w]);
          FitsCons(NatOf(s[..w]), rest, items);
          Ok([NatOf(s[..w])] + rest)
  }

  /** Writes numeric fields into the format, each as exactly its item's width of digits. */
  function Print(fields: seq<nat>, items: seq<Item>): (s: string)
    requires |fields| == |Widths(items)|
    ensures |s| == FormatLength(items)
    decreases items
  {
    if items == [] then []
    else match items[0]
      case Literal(c) => [c] + Print(fields, items[1..])
      case Number(w) => FixedDigits(fields[0], w) + Print(fields[1..], items[1..])
  }

  /** Every field fits in the width of its item. */
  predicate Fits(fields: seq<nat>, items: seq<Item>) {
    |fields| == |Widths(items)| && forall i :: 0 <= i < |fields| ==> fields[i] < Pow10(Widths(items)[i])
  }

  lemma FitsCons(v: nat, rest: seq<nat>, items: seq<Item>)
    requires items != [] && items[0].Number? && v < Pow10(items[0].width) && Fits(rest, items[1..])
    ensures Fits([v] + rest, items)
  {
    assert Widths(items) == [items[0].width] + Widths(items[1..]);
  }

  lemma FitsTail(fields: seq<nat>, items: seq<Item>)
    requires items != [] && items[0].Number? && Fits(fields, items)
    ensures fields != [] && fields[0] < Pow10(items[0].width) && Fits(fields[1..], items[1..])
  {
    assert Widths(items) == [items[0].width] + Widths(items[1..]);
    forall i | 0 <= i < |fields[1..]|
      ensures fields[1..][i] < Pow10(Widths(items[1..])[i])
    {
      assert fields[1..][i] == fields[i + 1] && Widths(items)[i + 1] == Widths(items[1..])[i];
    }
  }

  lemma WidthsAppend(a: seq<Item>, b: seq<Item>)
    ensures Widths(a + b) == Widths(a) + Widths(b)
    ensures FormatLength(a + b) == FormatLength(a) + FormatLength(b)
  {
    if a != [] {
      assert (a + b)[0] == a[0] && (a + b)[1..] == a[1..] + b;
      WidthsAppend(a[1..], b);
    } else {
      assert a + b == b;
    }
  }

  /** The numeric fields and lengths of the three formats. */
  lemma FormatFacts()
    ensures Widths(DateItems) == [4, 2, 2] && FormatLength(DateItems) == 10
    ensures Widths(MinuteItems) == [4, 2, 2, 2, 2] && FormatLength(MinuteItems) == 16
    ensures Widths(SecondItems) == [4, 2, 2, 2, 2, 2] && FormatLength(SecondItems) == 19
  {
    var time := [Literal(' '), Number(2), Literal(':'), Number(2)];
    var seconds := [Literal(':'), Number(2)];
    assert Widths(time) == [2, 2] && FormatLength(time) == 6;
    assert Widths(seconds) == [2] && FormatLength(seconds) == 3;
    WidthsAppend(DateItems, time);
    WidthsAppend(MinuteItems, seconds);
  }

  /** Scanning what Print wrote gives the fields back. */
  lemma {:induction false} ScanPrint(fields: seq<nat>, items: seq<Item>)
    requires Fits(fields, items)
    ensures Scan(Print(fields, items), items) == Ok(fields)
    decreases items
  {
    if items != [] {
      match items[0]
      case Literal(c) =>
        assert Widths(items) == Widths(items[1..]);
        ScanPrint(fields, items[1..]);
        assert Print(fields, items)[1..] == Print(fields, items[1..]);
      case Number(w) =>
        FitsTail(fields, items);
        ScanPrint(fields[1..], items[1..]);
        var s := Print(fields, items);
        assert s[..w] == FixedDigits(fields[0], w);
        assert s[w..] == Print(fields[1..], items[1..]);
        NatOfFixedDigits(fields[0], w);
        assert fields == [fields[0]] + fields[1..];
    }
  }

  /** Whatever Scan accepts is exactly what Print writes for the fields it returns. */
  lemma {:induction false} PrintScan(s: string, items: seq<Item>)
    requires Scan(s, items).Ok?
    ensures Fits(Scan(s, items).value, items)
    ensures Print(Scan(s, items).value, items) == s
    decreases items
  {
    if items != [] {
      var fields := Scan(s, items).value;
      match items[0]
      case Literal(c) =>
        PrintScan(s[1..], items[1..]);
        assert Widths(items) == Widths(items[1..]);
        assert s == [c] + s[1..];
      case Number(w) =>
        PrintScan(s[w..], items[1..]);
        PrintScanNumber(s, items, Scan(s[w..], items[1..]).value);
    }
  }

  /** One numeric item of `PrintScan`: the digits read are the digits written. */
  lemma PrintScanNumber(s: string, items: seq<Item>, rest: seq<nat>)
    requires items != [] && items[0].Number? && |s| >= items[0].width && AllDigits(s[..items[0].width])
    requires Scan(s[items[0].width..], items[1..]) == Ok(rest)
    requires Fits(rest, items[1..]) && Print(rest, items[1..]) == s[items[0].width..]
    ensures Scan(s, items) == Ok([NatOf(s[..items[0].width])] + rest)
    ensures Fits([NatOf(s[..items[0].width])] + rest, items)
    ensures Print([NatOf(s[..items[0].width])] + rest, items) == s
  {
    var w := items[0].width;
    var fields := [NatOf(s[..w])] + rest;
    FixedDigitsOfNatOf(s[..w]);
    NatOfBound(s[..w]);
    FitsCons(NatOf(s[..w]), rest, items);
    assert fields[1..] == rest;
    assert s == s[..w] + s[w..];
  }

  /** Accepted input always has the format's length. */
  lemma ScanLength(s: string, items: seq<Item>)
    requires Scan(s, items).Ok?
    ensures |s| == FormatLength(items)
  {
    PrintScan(s, items);
  }

  /** Builds a date-time from year, month, day, hour, minute and second, or OutOfRange if no such moment exists. */
  function ToDateTime(f: seq<nat>): (r: Result<DateTime, ParseError>)
    requires |f| == 6
  {
    var dt := DateTime(f[0], f[1], f[2], f[3], f[4], f[5]);
    if dt.Valid() then Ok(dt) else Err(OutOfRange)
  }

  /** `NaiveDateTime::parse_from_str(s, "%Y-%m-%d %H:%M:%S")` */
  function ParseWithSeconds(s: string): (r: Result<DateTime, ParseError>)
    ensures r.Ok? ==> r.value.Valid() && 0 <= r.value.year < 10000
    ensures r.Err? ==> Scan(s, SecondItems).Err? || r.error == OutOfRange
  {
    var f :- Scan(s, SecondItems);
    FormatFacts();
    assert Pow10(4) == 10000;
    ToDateTime(f)
  }

  /** `NaiveDateTime::parse_from_str(s, "%Y-%m-%d %H:%M")`: the seconds are zero. */
  function ParseWithMinutes(s: string): (r: Result<DateTime, ParseError>)
    ensures r.Ok? ==> r.value.Valid() && 0 <= r.value.year < 10000 && r.value.second == 0
    ensures r.Err? ==> Scan(s, MinuteItems).Err? || r.error == OutOfRange
  {
    var f :- Scan(s, MinuteItems);
    FormatFacts();
    assert Pow10(4) == 10000;
    ToDateTime(f + [0])
  }

  /** `NaiveDate::parse_from_str(s, "%Y-%m-%d")` followed by `and_time(NaiveTime::default())`: midnight. */
  function ParseDate(s: string): (r: Result<DateTime, ParseError>)
    ensures r.Ok? ==> r.value.Valid() && 0 <= r.value.year < 10000 && r.value == r.value.AtMidnight()
    ensures r.Err? ==> Scan(s, DateItems).Err? || r.error == OutOfRange
  {
    var f :- Scan(s, DateItems);
    FormatFacts();
    assert Pow10(4) == 10000;
    ToDateTime(f + [0, 0, 0])
  }

  /**
   * The fallback chain: the first format that accepts `s` decides; when none does,
   * the error is the one the date-only format reported.
   */
  function ParseDateTime(s: string): (r: Result<DateTime, ParseError>)
    ensures r.Ok? ==> r.value.Valid() && 0 <= r.value.year < 10000
    ensures r.Err? ==> r == ParseDate(s) && ParseWithSeconds(s).Err? && ParseWithMinutes(s).Err?
  {
    FormatFacts();
    assert Pow10(4) == 10000;
    var withSeconds := ParseWithSeconds(s);
    if withSeconds.Ok? then withSeconds
    else
      var withMinutes := ParseWithMinutes(s);
      if withMinutes.Ok? then withMinutes
      else ParseDate(s)
  }

  /** Dates the grammar can write: a four-digit year. */
  predicate Printable(dt: DateTime) {
    dt.Valid() && 0 <= dt.year < 10000
  }

  function FormatWithSeconds(dt: DateTime): string
    requires Printable(dt)
  {
    FormatFacts();
    Print([dt.year, dt.month, dt.day, dt.hour, dt.minute, dt.second], SecondItems)
  }

  function FormatWithMinutes(dt: DateTime): string
    requires Printable(dt)
  {
    FormatFacts();
    Print([dt.year, dt.month, dt.day, dt.hour, dt.minute], MinuteItems)
  }

  function FormatDate(dt: DateTime): string
    requires Printable(dt)
  {
    FormatFacts();
    Print([dt.year, dt.month, dt.day], DateItems)
  }

  lemma FitsDateFields(dt: DateTime)
    requires Printable(dt)
    ensures Fits([dt.year, dt.month, dt.day], DateItems)
    ensures Fits([dt.year, dt.month, dt.day, dt.hour, dt.minute], MinuteItems)
    ensures Fits([dt.year, dt.month, dt.day, dt.hour, dt.minute, dt.second], SecondItems)
  {
    FormatFacts();
    assert Pow10(2) == 100 && Pow10(4) == 10000;
  }

  /** A full `YYYY-MM-DD HH:MM:SS` string parses to the date-time it was written from. */
  lemma ParsesWithSeconds(dt: DateTime)
    requires Printable(dt)
    ensures ParseDateTime(FormatWithSeconds(dt)) == Ok(dt)
  {
    FitsDateFields(dt);
    ScanPrint([dt.year, dt.month, dt.day, dt.hour, dt.minute, dt.second], SecondItems);
  }

  /** Input of the wrong length is refused by a format. */
  lemma WrongLengthFails(s: string, items: seq<Item>)
    requires |s| != FormatLength(items)
    ensures Scan(s, items).Err?
  {
    if Scan(s, items).Ok? {
      ScanLength(s, items);
    }
  }

  lemma MinutesRoundTrip(dt: DateTime)
    requires Printable(dt)
    ensures ParseWithMinutes(FormatWithMinutes(dt)) == Ok(dt.(second := 0))
  {
    FitsDateFields(dt);
    FormatFacts();
    ScanPrint([dt.year, dt.month, dt.day, dt.hour, dt.minute], MinuteItems);
    AppendZero(dt.year, dt.month, dt.day, dt.hour, dt.minute);
    ToDateTimeOf(dt.(second := 0));
  }

  lemma AppendZero(a: nat, b: nat, c: nat, d: nat, e: nat)
    ensures [a, b, c, d, e] + [0] == [a, b, c, d, e, 0]
  {
  }

  lemma AppendZeros(a: nat, b: nat, c: nat)
    ensures [a, b, c] + [0, 0, 0] == [a, b, c, 0, 0, 0]
  {
  }

  /** A `YYYY-MM-DD HH:MM` string falls through to the second format and gets zero seconds. */
  lemma ParsesWithMinutes(dt: DateTime)
    requires Printable(dt)
    ensures ParseDateTime(FormatWithMinutes(dt)) == Ok(dt.(second := 0))
  {
    FormatFacts();
    WrongLengthFails(FormatWithMinutes(dt), SecondItems);
    MinutesRoundTrip(dt);
  }

  lemma DateRoundTrip(dt: DateTime)
    requires Printable(dt)
    ensures ParseDate(FormatDate(dt)) == Ok(dt.AtMidnight())
  {
    var f := [dt.year, dt.month, dt.day];
    FitsDateFields(dt);
    FormatFacts();
    ScanPrint(f, DateItems);
    assert Scan(FormatDate(dt), DateItems) == Ok(f);
    AppendZeros(dt.year, dt.month, dt.day);
    ToDateTimeOf(dt.AtMidnight());
  }

  lemma ToDateTimeOf(dt: DateTime)
    requires dt.Valid() && dt.year >= 0
    ensures ToDateTime([dt.year, dt.month, dt.day, dt.hour, dt.minute, dt.second]) == Ok(dt)
  {
  }

  /** A date-only `YYYY-MM-DD` string falls through to the third format and parses to midnight. */
  lemma ParsesDateOnly(dt: DateTime)
    requires Printable(dt)
    ensures ParseDateTime(FormatDate(dt)) == Ok(dt.AtMidnight())
  {
    FormatFacts();
    WrongLengthFails(FormatDate(dt), SecondItems);
    WrongLengthFails(FormatDate(dt), MinuteItems);
    DateRoundTrip(dt);
  }

  /** The six fields a date-time was built from are its fields. */
  lemma FieldsOf(f: seq<nat>)
    requires |f| == 6 && ToDateTime(f).Ok?
    ensures var dt := ToDateTime(f).value; f == [dt.year, dt.month, dt.day, dt.hour, dt.minute, dt.second]
  {
  }

  lemma SecondsFormatted(s: string)
    requires ParseWithSeconds(s).Ok?
    ensures Printable(ParseWithSeconds(s).value) && s == FormatWithSeconds(ParseWithSeconds(s).value)
  {
    var dt := ParseWithSeconds(s).value;
    FormatFacts();
    PrintScan(s, SecondItems);
    var f := Scan(s, SecondItems).value;
    FieldsOf(f);
  }

  lemma MinutesFormatted(s: string)
    requires ParseWithMinutes(s).Ok?
    ensures Printable(ParseWithMinutes(s).value) && ParseWithMinutes(s).value.second == 0
    ensures s == FormatWithMinutes(ParseWithMinutes(s).value)
  {
    var dt := ParseWithMinutes(s).value;
    FormatFacts();
    PrintScan(s, MinuteItems);
    var f := Scan(s, MinuteItems).value;
    assert dt == ToDateTime(f + [0]).value;
    FieldsOf(f + [0]);
    assert f == (f + [0])[..5] == [dt.year, dt.month, dt.day, dt.hour, dt.minute];
  }

  lemma DateFormatted(s: string)
    requires ParseDate(s).Ok?
    ensures Printable(ParseDate(s).value) && ParseDate(s).value == ParseDate(s).value.AtMidnight()
    ensures s == FormatDate(ParseDate(s).value)
  {
    var dt := ParseDate(s).value;
    FormatFacts();
    PrintScan(s, DateItems);
    var f := Scan(s, DateItems).value;
    FieldsOf(f + [0, 0, 0]);
    assert f == (f + [0, 0, 0])[..3];
  }

  /** Every accepted string is one of the three written forms of the date-time it parses to. */
  lemma ParsedIsFormatted(s: string)
    requires ParseDateTime(s).Ok?
    ensures var dt := ParseDateTime(s).value;
      || s == FormatWithSeconds(dt)
      || (dt.second == 0 && s == FormatWithMinutes(dt))
      || (dt == dt.AtMidnight() && s == FormatDate(dt))
  {
    if ParseWithSeconds(s).Ok? {
      SecondsFormatted(s);
    } else if ParseWithMinutes(s).Ok? {
      MinutesFormatted(s);
    } else {
      DateFormatted(s);
    }
  }

  // ---------------------------------------------------------------------------
  // serialize_naivedatetime_to_i64

  /** Days from 0001-01-01 to January 1st of year `y` (`/` is floor division here). */
  function DaysBeforeYear(y: int): int {
    365 * (y - 1) + (y - 1) / 4 - (y - 1) / 100 + (y - 1) / 400
  }

  /** Days from January 1st to the first of month `m` of year `y`. */
  function DaysBeforeMonth(y: int, m: nat): nat {
    if m <= 1 then 0 else DaysBeforeMonth(y, m - 1) + DaysInMonth(y, m - 1)
  }

  /** Days from 0001-01-01 to the date of `dt`. */
  function DayNumber(dt: DateTime): int {
    DaysBeforeYear(dt.year) + DaysBeforeMonth(dt.year, dt.month) + dt.day - 1
  }

  const UnixEpoch: DateTime := DateTime(1970, 1, 1, 0, 0, 0)

  /** `NaiveDateTime::timestamp`: whole seconds since 1970-01-01T00:00:00, the naive time read as UTC. */
  function EpochSeconds(dt: DateTime): (r: int)
    ensures dt.Valid() ==>
      (DayNumber(dt) - DayNumber(UnixEpoch)) * 86400 <= r < (DayNumber(dt) - DayNumber(UnixEpoch) + 1) * 86400
  {
    (DayNumber(dt) - DayNumber(UnixEpoch)) * 86400 + dt.hour * 3600 + dt.minute * 60 + dt.second
  }

  lemma FloorStep(y: int, k: int)
    requires k == 4 || k == 100 || k == 400
    ensures y / k - (y - 1) / k == if y % k == 0 then 1 else 0
  {
    var q, r := (y - 1) / k, (y - 1) % k;
    assert y == k * q + r + 1;
    if r + 1 < k {
      assert y / k == q && y % k == r + 1;
    } else {
      assert y == k * (q + 1);
      assert y / k == q + 1 && y % k == 0;
    }
  }

  lemma YearStep(y: int)
    ensures DaysBeforeYear(y + 1) == DaysBeforeYear(y) + YearLength(y)
  {
    FloorStep(y, 4);
    FloorStep(y, 100);
    FloorStep(y, 400);
  }

  lemma {:induction false} YearsOrdered(y1: int, y2: int)
    requires y1 < y2
    ensures DaysBeforeYear(y1) + YearLength(y1) <= DaysBeforeYear(y2)
    decreases y2 - y1
  {
    YearStep(y1);
    if y1 + 1 < y2 {
      YearsOrdered(y1 + 1, y2);
    }
  }

  lemma {:induction false} MonthsOrdered(y: int, m1: nat, m2: nat)
    requires 1 <= m1 < m2
    ensures DaysBeforeMonth(y, m1) + DaysInMonth(y, m1) <= DaysBeforeMonth(y, m2)
    decreases m2 - m1
  {
    if m1 + 1 < m2 {
      MonthsOrdered(y, m1 + 1, m2);
    }
  }

  lemma YearEnd(y: int)
    ensures DaysBeforeMonth(y, 12) + DaysInMonth(y, 12) == YearLength(y)
  {
    assert DaysBeforeMonth(y, 2) == 31;
    assert DaysBeforeMonth(y, 3) == 31 + DaysInMonth(y, 2);
    assert DaysBeforeMonth(y, 4) == 62 + DaysInMonth(y, 2);
    assert DaysBeforeMonth(y, 5) == 92 + DaysInMonth(y, 2);
    assert DaysBeforeMonth(y, 6) == 123 + DaysInMonth(y, 2);
    assert DaysBeforeMonth(y, 7) == 153 + DaysInMonth(y, 2);
    assert DaysBeforeMonth(y, 8) == 184 + DaysInMonth(y, 2);
    assert DaysBeforeMonth(y, 9) == 215 + DaysInMonth(y, 2);
    assert DaysBeforeMonth(y, 10) == 245 + DaysInMonth(y, 2);
    assert DaysBeforeMonth(y, 11) == 276 + DaysInMonth(y, 2);
    assert DaysBeforeMonth(y, 12) == 306 + DaysInMonth(y, 2);
  }

  /** A valid date's day of the year lies inside its year. */
  lemma DayOfYearBound(dt: DateTime)
    requires dt.Valid()
    ensures DaysBeforeYear(dt.year) <= DayNumber(dt) < DaysBeforeYear(dt.year) + YearLength(dt.year)
  {
    YearEnd(dt.year);
    if dt.month < 12 {
      MonthsOrdered(dt.year, dt.month, 12);
    }
  }

  lemma DayNumberOrdered(a: DateTime, b: DateTime)
    requires a.Valid() && b.Valid()
    requires a.year < b.year || (a.year == b.year && (a.month < b.month || (a.month == b.month && a.day < b.day)))
    ensures DayNumber(a) < DayNumber(b)
  {
    DayOfYearBound(a);
    DayOfYearBound(b);
    if a.year < b.year {
      YearsOrdered(a.year, b.year);
    } else if a.month < b.month {
      MonthsOrdered(a.year, a.month, b.month);
    }
  }

  /** The serialized timestamps of valid date-times are ordered exactly as the date-times are. */
  lemma EpochSecondsOrder(a: DateTime, b: DateTime)
    requires a.Valid() && b.Valid()
    ensures Earlier(a, b) <==> EpochSeconds(a) < EpochSeconds(b)
  {
    forall x: DateTime, y: DateTime | x.Valid() && y.Valid() && Earlier(x, y)
      ensures EpochSeconds(x) < EpochSeconds(y)
    {
      if x.year < y.year || (x.year == y.year && (x.month < y.month || (x.month == y.month && x.day < y.day))) {
        DayNumberOrdered(x, y);
      }
    }
    EarlierTotal(a, b);
  }

  /** The epoch itself is 0, and a post dated 2023-05-01 is serialized as 1682899200. */
  lemma EpochSecondsExamples()
    ensures EpochSeconds(UnixEpoch) == 0
    ensures EpochSeconds(DateTime(2023, 5, 1, 0, 0, 0)) == 1682899200
  {
    assert DayNumber(UnixEpoch) == 719162;
    assert DaysBeforeMonth(2023, 5) == 120;
    assert DayNumber(DateTime(2023, 5, 1, 0, 0, 0)) == 738640;
  }

  // ---------------------------------------------------------------------------
  // drop_trailing_slash

  predicate EndsWithSlash(s: string) {
    |s| > 0 && s[|s| - 1] == '/'
  }

  /** Pops one final '/' off the string, if there is one; nothing else changes. */
  method DropTrailingSlash(s: string) returns (r: string)
    ensures EndsWithSlash(s) ==> r + "/" == s
    ensures !EndsWithSlash(s) ==> r == s
  {
    r := s;
    if EndsWithSlash(r) {
      r := r[..|r| - 1];
    }
  }

  /** Only one slash goes per call, so the operation is not idempotent: "a//" becomes "a/", then "a". */
  method DropTrailingSlashTwice() returns (once: string, twice: string)
    ensures once == "a/" && twice == "a"
  {
    once := DropTrailingSlash("a//");
    assert |once| == 2 && once[0] == "a//"[0] && once[1] == "a//"[1];
    assert once == "a/";
    twice := DropTrailingSlash(once);
    assert |twice| == 1 && twice[0] == once[0];
    assert twice == "a";
  }
}
