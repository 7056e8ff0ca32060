/** The two SimpleDateFormat conversions shared by the map and the reports screens:
    the feed's RFC 822 style date ("EEE, dd MMM yyyy HH:mm:ss z" in English) printed as
    "MM/dd/yyyy", and the feed's 24-hour "HHmm" clock printed as "hh:mm a" (US locale).
    Each parser returns None where SimpleDateFormat.parse would throw. */
module DateTime {
  import opened Common

  datatype Clock = Clock(hour: nat, minute: nat)

  predicate ValidClock(c: Clock) {
    c.hour < 24 && c.minute < 60
  }

  /** Kotlin's `s.padStart(n, pad)`. */
  function PadStart(s: string, n: nat, pad: char): (r: string)
    ensures |r| == if |s| >= n then |s| else n
    ensures r[|r| - |s|..] == s
    ensures forall i :: 0 <= i < |r| - |s| ==> r[i] == pad
  {
    if |s| >= n then s else seq(n - |s|, _ => pad) + s
  }

  /** `SimpleDateFormat("HHmm").parse` in its default lenient mode, on exactly four ASCII
      digits: an hour or minute field out of range rolls over into the following day,
      and only the time of day is kept. */
  function ParseHHmm(s: string): (r: Option<Clock>)
    ensures r.Some? <==> |s| == 4 && AllDigits(s)
    ensures r.Some? ==> ValidClock(r.value)
  {
    if |s| == 4 && AllDigits(s) then
      var total := (DecimalValue(s[..2]) * 60 + DecimalValue(s[2..])) % 1440;
      Some(Clock(total / 60, total % 60))
    else
      None
  }

  /** The "HHmm" spelling of a clock value. */
  function Render24(c: Clock): (r: string)
    requires ValidClock(c)
    ensures |r| == 4 && AllDigits(r)
  {
    Pad2(c.hour) + Pad2(c.minute)
  }

  /** Parsing an in-range "HHmm" string gives back its hour and minute. */
  lemma ParseHHmmRoundTrip(c: Clock)
    requires ValidClock(c)
    ensures ParseHHmm(Render24(c)) == Some(c)
  {
    var s := Render24(c);
    assert s[..2] == Pad2(c.hour);
    assert s[2..] == Pad2(c.minute);
    var total := c.hour * 60 + c.minute;
    assert total < 1440 && total % 1440 == total;
    assert total / 60 == c.hour && total % 60 == c.minute;
  }

  /** Out-of-range fields roll over: "2500" is one o'clock in the morning. */
  lemma ParseHHmmRollsOver()
    ensures ParseHHmm("2500") == Some(Clock(1, 0))
    ensures ParseHHmm("0075") == Some(Clock(1, 15))
  {
    assert "2500"[..2] == "25" && "2500"[2..] == "00";
    assert "0075"[..2] == "00" && "0075"[2..] == "75";
    assert DecimalValue("25") == 25 by { assert "25"[..1] == "2"; assert "2"[..0] == ""; }
    assert DecimalValue("00") == 0 by { assert "00"[..1] == "0"; assert "0"[..0] == ""; }
    assert DecimalValue("75") == 75 by { assert "75"[..1] == "7"; assert "7"[..0] == ""; }
  }

  /** The `hh` field: 12 for midnight and noon, otherwise the hour modulo 12. */
  function Hour12(h: nat): (r: nat)
    requires h < 24
    ensures 1 <= r <= 12
  {
    if h % 12 == 0 then 12 else h % 12
  }

  /** `SimpleDateFormat("hh:mm a", Locale.US).format`. */
  function Render12(c: Clock): (r: string)
    requires ValidClock(c)
    ensures |r| == 8
    ensures r[2] == ':' && r[5] == ' ' && r[6..] == (if c.hour < 12 then "AM" else "PM")
  {
    Pad2(Hour12(c.hour)) + ":" + Pad2(c.minute) + " " + (if c.hour < 12 then "AM" else "PM")
  }

  /** Reads a "hh:mm a" string back; an independent inverse of `Render12`. */
  function Parse12(s: string): Option<Clock>
  {
    if |s| == 8 && AllDigits(s[..2]) && s[2] == ':' && AllDigits(s[3..5]) && s[5] == ' '
       && (s[6..] == "AM" || s[6..] == "PM")
    then
      var h := DecimalValue(s[..2]);
      var m := DecimalValue(s[3..5]);
      if 1 <= h <= 12 && m < 60 then Some(Clock(h % 12 + (if s[6..] == "PM" then 12 else 0), m))
      else None
    else
      None
  }

  /** The 12-hour rendering loses nothing: hour, minute and half of the day can be read back. */
  lemma Render12RoundTrip(c: Clock)
    requires ValidClock(c)
    ensures Parse12(Render12(c)) == Some(c)
  {
    var s := Render12(c);
    assert s[..2] == Pad2(Hour12(c.hour));
    assert s[3..5] == Pad2(c.minute);
    assert s[6..] == (if c.hour < 12 then "AM" else "PM");
  }

  /** Hence distinct clock values are printed differently. */
  lemma Render12Injective(c: Clock, d: Clock)
    requires ValidClock(c) && ValidClock(d) && Render12(c) == Render12(d)
    ensures c == d
  {
    Render12RoundTrip(c);
    Render12RoundTrip(d);
  }

  // ---------------------------------------------------------------------------
  // Dates

  datatype Date = Date(year: nat, month: nat, day: nat)

  predicate IsLeapYear(y: nat) {
    y % 4 == 0 && (y % 100 != 0 || y % 400 == 0)
  }

  function DaysInMonth(month: nat, year: nat): nat
    requires 1 <= month <= 12
  {
    if month == 2 then (if IsLeapYear(year) then 29 else 28)
    else if month == 4 || month == 6 || month == 9 || month == 11 then 30
    else 31
  }

  /** A Gregorian calendar day whose year prints in four digits. */
  predicate ValidDate(d: Date) {
    1 <= d.year <= 9999 && 1 <= d.month <= 12 && 1 <= d.day <= DaysInMonth(d.month, d.year)
  }

  const WeekdayNames: seq<string> := ["Sun", "Mon", "Tue", "Wed", "Thu", "Fri", "Sat"]
  const MonthNames: seq<string> := ["Jan", "Feb", "Mar", "Apr", "May", "Jun",
                                    "Jul", "Aug", "Sep", "Oct", "Nov", "Dec"]
  /** The zone abbreviations the model accepts for the `z` field. */
  const ZoneNames: seq<string> := ["EST", "EDT", "CST", "CDT", "MST", "MDT", "PST", "PDT", "GMT", "UTC"]

  /** The month number (1 to 12) of an English three-letter month name. */
  function MonthNumber(name: string): (r: Option<nat>)
    ensures r.Some? ==> 1 <= r.value <= 12 && MonthNames[r.value - 1] == name
    ensures r.None? ==> name !in MonthNames
  {
    if name in MonthNames then
      var i :| 0 <= i < 12 && MonthNames[i] == name;
      Some(i + 1)
    else
      None
  }

  /** `SimpleDateFormat("EEE, dd MMM yyyy HH:mm:ss z", Locale.ENGLISH).parse` on a string laid
      out as in section 5.1 of RFC 822 with the four-digit year of section 5.2.14 of RFC 1123.
      The weekday is read but not checked against the date, as the lenient calendar does. */
  function ParseFeedDate(s: string): (r: Option<Date>)
    ensures r.Some? ==> ValidDate(r.value)
    ensures r.Some? ==> |s| == 29
  {
    if |s| == 29 && s[..3] in WeekdayNames && s[3..5] == ", " && AllDigits(s[5..7]) && s[7] == ' '
       && MonthNumber(s[8..11]).Some? && s[11] == ' ' && AllDigits(s[12..16]) && s[16] == ' '
       && AllDigits(s[17..19]) && s[19] == ':' && AllDigits(s[20..22]) && s[22] == ':'
       && AllDigits(s[23..25]) && s[25] == ' ' && s[26..] in ZoneNames
    then
      var d := Date(DecimalValue(s[12..16]), MonthNumber(s[8..11]).value, DecimalValue(s[5..7]));
      if ValidDate(d) && DecimalValue(s[17..19]) < 24 && DecimalValue(s[20..22]) < 60
         && DecimalValue(s[23..25]) < 60
      then Some(d)
      else None
    else
      None
  }

  /** The feed's spelling of a day: "EEE, dd MMM yyyy". */
  function FeedDayString(weekday: nat, d: Date): (r: string)
    requires weekday < 7 && ValidDate(d)
    ensures |r| == 16
  {
    WeekdayNames[weekday] + ", " + Pad2(d.day) + " " + MonthNames[d.month - 1] + " " + Pad4(d.year)
  }

  /** The feed's spelling of a time of day: "HH:mm:ss". */
  function FeedTimeString(c: Clock, second: nat): (r: string)
    requires ValidClock(c) && second < 60
    ensures |r| == 8
  {
    Pad2(c.hour) + ":" + Pad2(c.minute) + ":" + Pad2(second)
  }

  /** The feed's spelling of a day, a time of day and a zone. */
  function FeedDateString(weekday: nat, d: Date, c: Clock, second: nat, zone: nat): (r: string)
    requires weekday < 7 && ValidDate(d) && ValidClock(c) && second < 60 && zone < |ZoneNames|
    ensures |r| == 29
  {
    FeedDayString(weekday, d) + " " + FeedTimeString(c, second) + " " + ZoneNames[zone]
  }

  lemma FeedDaySlices(weekday: nat, d: Date)
    requires weekday < 7 && ValidDate(d)
    ensures var r := FeedDayString(weekday, d);
            r[..3] == WeekdayNames[weekday] && r[3..5] == ", " && r[5..7] == Pad2(d.day) && r[7] == ' '
            && r[8..11] == MonthNames[d.month - 1] && r[11] == ' ' && r[12..16] == Pad4(d.year)
  {
  }

  lemma FeedTimeSlices(c: Clock, second: nat)
    requires ValidClock(c) && second < 60
    ensures var r := FeedTimeString(c, second);
            r[..2] == Pad2(c.hour) && r[2] == ':' && r[3..5] == Pad2(c.minute) && r[5] == ':'
            && r[6..8] == Pad2(second)
  {
  }

  /** Where the day's fields sit in a feed date. */
  lemma FeedDateDayFields(weekday: nat, d: Date, c: Clock, second: nat, zone: nat)
    requires weekday < 7 && ValidDate(d) && ValidClock(c) && second < 60 && zone < |ZoneNames|
    ensures var s := FeedDateString(weekday, d, c, second, zone);
            s[..3] == WeekdayNames[weekday] && s[3..5] == ", " && s[5..7] == Pad2(d.day) && s[7] == ' '
            && s[8..11] == MonthNames[d.month - 1] && s[11] == ' ' && s[12..16] == Pad4(d.year)
  {
    var s := FeedDateString(weekday, d, c, second, zone);
    var day := FeedDayString(weekday, d);
    FeedDaySlices(weekday, d);
    assert s[..16] == day;
    assert s[..3] == day[..3] && s[3..5] == day[3..5] && s[5..7] == day[5..7] && s[7] == day[7];
    assert s[8..11] == day[8..11] && s[11] == day[11] && s[12..16] == day[12..16];
  }

  /** Where the time's fields and the zone sit in a feed date. */
  lemma FeedDateTimeFields(weekday: nat, d: Date, c: Clock, second: nat, zone: nat)
    requires weekday < 7 && ValidDate(d) && ValidClock(c) && second < 60 && zone < |ZoneNames|
    ensures var s := FeedDateString(weekday, d, c, second, zone);
            s[16] == ' ' && s[17..19] == Pad2(c.hour) && s[19] == ':' && s[20..22] == Pad2(c.minute)
            && s[22] == ':' && s[23..25] == Pad2(second) && s[25] == ' ' && s[26..] == ZoneNames[zone]
  {
    var s := FeedDateString(weekday, d, c, second, zone);
    var time := FeedTimeString(c, second);
    FeedTimeSlices(c, second);
    assert s[17..25] == time;
    assert s[17..19] == time[..2] && s[19] == time[2] && s[20..22] == time[3..5];
    assert s[22] == time[5] && s[23..25] == time[6..8];
  }

  /** Every well-formed feed date is parsed to the day, month and year it spells. */
  lemma ParseFeedDateRoundTrip(weekday: nat, d: Date, c: Clock, second: nat, zone: nat)
    requires weekday < 7 && ValidDate(d) && ValidClock(c) && second < 60 && zone < |ZoneNames|
    ensures ParseFeedDate(FeedDateString(weekday, d, c, second, zone)) == Some(d)
  {
    var s := FeedDateString(weekday, d, c, second, zone);
    FeedDateDayFields(weekday, d, c, second, zone);
    FeedDateTimeFields(weekday, d, c, second, zone);
    assert MonthNumber(s[8..11]) == Some(d.month) by {
      var m := MonthNumber(s[8..11]).value;
      MonthNamesDistinct(m - 1, d.month - 1);
    }
  }

  /** The texts "EEE, dd MMM yyyy HH:mm:ss z" that spell a valid day and time of day, with an
      English weekday and one of the accepted zones. */
  ghost predicate IsFeedDate(s: string) {
    exists weekday: nat, d: Date, c: Clock, second: nat, zone: nat ::
      weekday < 7 && ValidDate(d) && ValidClock(c) && second < 60 && zone < |ZoneNames|
      && s == FeedDateString(weekday, d, c, second, zone)
  }

  /** A text whose day fields spell a day is, up to its sixteenth character, that day's spelling. */
  lemma FeedDayOfFields(s: string, weekday: nat, d: Date)
    requires |s| == 29 && weekday < 7 && ValidDate(d)
    requires s[..3] == WeekdayNames[weekday] && s[3..5] == ", " && s[5..7] == Pad2(d.day) && s[7] == ' '
    requires s[8..11] == MonthNames[d.month - 1] && s[11] == ' ' && s[12..16] == Pad4(d.year)
    ensures s[..16] == FeedDayString(weekday, d)
  {
    assert s[..16] == s[..3] + s[3..5] + s[5..7] + [s[7]] + s[8..11] + [s[11]] + s[12..16];
  }

  /** A text whose time fields spell a time of day holds that time's spelling at 17 to 25. */
  lemma FeedTimeOfFields(s: string, c: Clock, second: nat)
    requires |s| == 29 && ValidClock(c) && second < 60
    requires s[17..19] == Pad2(c.hour) && s[19] == ':' && s[20..22] == Pad2(c.minute) && s[22] == ':'
    requires s[23..25] == Pad2(second)
    ensures s[17..25] == FeedTimeString(c, second)
  {
    assert s[17..25] == s[17..19] + [s[19]] + s[20..22] + [s[22]] + s[23..25];
  }

  /** The fields of a text the feed-date parser accepts, and the day it returns. */
  lemma ParseFeedDateFields(s: string)
    requires ParseFeedDate(s).Some?
    ensures |s| == 29 && s[..3] in WeekdayNames && s[3..5] == ", " && s[7] == ' ' && s[11] == ' '
    ensures s[16] == ' ' && s[19] == ':' && s[22] == ':' && s[25] == ' ' && s[26..] in ZoneNames
    ensures AllDigits(s[5..7]) && AllDigits(s[12..16]) && AllDigits(s[17..19]) && AllDigits(s[20..22])
    ensures AllDigits(s[23..25]) && MonthNumber(s[8..11]).Some?
    ensures ParseFeedDate(s).value == Date(DecimalValue(s[12..16]), MonthNumber(s[8..11]).value, DecimalValue(s[5..7]))
    ensures DecimalValue(s[17..19]) < 24 && DecimalValue(s[20..22]) < 60 && DecimalValue(s[23..25]) < 60
  {
  }

  /** A text made of a day's spelling, a time's spelling and a zone, separated by spaces. */
  lemma FeedDateOfParts(s: string, weekday: nat, d: Date, c: Clock, second: nat, zone: nat)
    requires weekday < 7 && ValidDate(d) && ValidClock(c) && second < 60 && zone < |ZoneNames|
    requires |s| == 29 && s[..16] == FeedDayString(weekday, d) && s[16] == ' '
    requires s[17..25] == FeedTimeString(c, second) && s[25] == ' ' && s[26..] == ZoneNames[zone]
    ensures s == FeedDateString(weekday, d, c, second, zone)
  {
    assert s == s[..16] + [s[16]] + s[17..25] + [s[25]] + s[26..];
  }

  /** Conversely, a text that parses is the feed spelling of the day it parses to. */
  lemma ParseFeedDateSpelled(s: string)
    requires ParseFeedDate(s).Some?
    ensures exists weekday: nat, c: Clock, second: nat, zone: nat ::
      weekday < 7 && ValidClock(c) && second < 60 && zone < |ZoneNames|
      && s == FeedDateString(weekday, ParseFeedDate(s).value, c, second, zone)
  {
    ParseFeedDateFields(s);
    var d := ParseFeedDate(s).value;
    var w :| 0 <= w < 7 && WeekdayNames[w] == s[..3];
    var z :| 0 <= z < |ZoneNames| && ZoneNames[z] == s[26..];
    Pad2OfDigits(s[5..7]);
    Pad4OfDigits(s[12..16]);
    Pad2OfDigits(s[17..19]);
    Pad2OfDigits(s[20..22]);
    Pad2OfDigits(s[23..25]);
    var c := Clock(DecimalValue(s[17..19]), DecimalValue(s[20..22]));
    var second := DecimalValue(s[23..25]);
    FeedDayOfFields(s, w, d);
    FeedTimeOfFields(s, c, second);
    FeedDateOfParts(s, w, d, c, second, z);
  }

  /** The texts the feed-date parser accepts are exactly the well-formed feed dates. */
  lemma ParseFeedDateAccepts(s: string)
    ensures ParseFeedDate(s).Some? <==> IsFeedDate(s)
  {
    if ParseFeedDate(s).Some? {
      ParseFeedDateSpelled(s);
    }
    if IsFeedDate(s) {
      var weekday: nat, d: Date, c: Clock, second: nat, zone: nat :|
        weekday < 7 && ValidDate(d) && ValidClock(c) && second < 60 && zone < |ZoneNames|
        && s == FeedDateString(weekday, d, c, second, zone);
      ParseFeedDateRoundTrip(weekday, d, c, second, zone);
    }
  }

  lemma MonthNamesDistinct(i: nat, j: nat)
    requires i < 12 && j < 12 && MonthNames[i] == MonthNames[j]
    ensures i == j
  {
  }

  /** `SimpleDateFormat("MM/dd/yyyy", Locale.US).format`. */
  function RenderSlashDate(d: Date): (r: string)
    requires ValidDate(d)
    ensures |r| == 10 && r[2] == '/' && r[5] == '/'
  {
    Pad2(d.month) + "/" + Pad2(d.day) + "/" + Pad4(d.year)
  }

  /** Reads a "MM/dd/yyyy" string back; an independent inverse of `RenderSlashDate`. */
  function ParseSlashDate(s: string): Option<Date>
  {
    if |s| == 10 && AllDigits(s[..2]) && s[2] == '/' && AllDigits(s[3..5]) && s[5] == '/'
       && AllDigits(s[6..])
    then Some(Date(DecimalValue(s[6..]), DecimalValue(s[..2]), DecimalValue(s[3..5])))
    else None
  }

  /** The printed date keeps the day, month and year. */
  lemma RenderSlashDateRoundTrip(d: Date)
    requires ValidDate(d)
    ensures ParseSlashDate(RenderSlashDate(d)) == Some(d)
  {
    var s := RenderSlashDate(d);
    assert s[..2] == Pad2(d.month);
    assert s[3..5] == Pad2(d.day);
    assert s[6..] == Pad4(d.year);
  }
}
