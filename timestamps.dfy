/**
 * The timestamps the server stores: `new Date().toISOString()` cut to its
 * first 19 characters with a `Z` appended (server/server.js, submission date
 * and review timestamp). The clock itself is not modelled; an instant is
 * passed in as a broken-down UTC date-time.
 */
module Timestamps {
  import opened Wrappers

  /** A UTC instant as JavaScript's Date breaks it down. */
  datatype DateTime = DateTime(year: int, month: int, day: int,
                               hour: int, minute: int, second: int, millis: int)

  /** Field ranges of a date-time that `toISOString` accepts. */
  predicate ValidDateTime(d: DateTime) {
    && -1000000 < d.year < 1000000
    && 1 <= d.month <= 12 && 1 <= d.day <= 31
    && 0 <= d.hour < 24 && 0 <= d.minute < 60 && 0 <= d.second < 60
    && 0 <= d.millis < 1000
  }

  /** An instant a JavaScript clock can produce. */
  type Instant = d: DateTime | ValidDateTime(d) witness DateTime(1970, 1, 1, 0, 0, 0, 0)

  /** Years that `toISOString` writes with four digits and no sign. */
  predicate FourDigitYear(d: DateTime) {
    0 <= d.year <= 9999
  }

  function Pow10(w: nat): (r: nat)
    ensures r >= 1
  {
    if w == 0 then 1 else 10 * Pow10(w - 1)
  }

  predicate IsDigit(c: char) {
    '0' <= c <= '9'
  }

  function Digit(n: nat): (c: char)
    requires n < 10
    ensures IsDigit(c)
  {
    ('0' as int + n) as char
  }

  function DigitValue(c: char): int {
    c as int - '0' as int
  }

  /** `n` written in decimal with exactly `w` digits, zero-padded on the left. */
  function Pad(n: nat, w: nat): (r: string)
    requires n < Pow10(w)
    ensures |r| == w
    ensures forall i :: 0 <= i < |r| ==> IsDigit(r[i])
  {
    if w == 0 then [] else Pad(n / 10, w - 1) + [Digit(n % 10)]
  }

  /** The number a string of decimal digits denotes. */
  function Value(s: string): int {
    if s == [] then 0 else 10 * Value(s[..|s| - 1]) + DigitValue(s[|s| - 1])
  }

  /** Reading a padded number back gives the number. */
  lemma {:induction false} PadValue(n: nat, w: nat)
    requires n < Pow10(w)
    ensures Value(Pad(n, w)) == n
  {
    if w > 0 {
      var p := Pad(n, w);
      PadValue(n / 10, w - 1);
      assert p[..|p| - 1] == Pad(n / 10, w - 1);
    }
  }

  /** The year as `toISOString` writes it: four digits, or a sign and six. */
  function YearString(y: int): string
    requires -1000000 < y < 1000000
  {
    if 0 <= y <= 9999 then Pad(y, 4)
    else if y < 0 then "-" + Pad(-y, 6)
    else "+" + Pad(y, 6)
  }

  /** YYYY-MM-DD, the date part of the ISO string. */
  function DatePart(d: DateTime): (r: string)
    requires ValidDateTime(d)
    ensures |r| >= 10
  {
    YearString(d.year) + "-" + Pad(d.month, 2) + "-" + Pad(d.day, 2)
  }

  /** HH:mm:ss, the time of day up to the second. */
  function TimePart(d: DateTime): (r: string)
    requires ValidDateTime(d)
    ensures |r| == 8
  {
    Pad(d.hour, 2) + ":" + Pad(d.minute, 2) + ":" + Pad(d.second, 2)
  }

  /** `Date.prototype.toISOString`: YYYY-MM-DDTHH:mm:ss.sssZ. */
  function ToIsoString(d: DateTime): string
    requires ValidDateTime(d)
  {
    DatePart(d) + "T" + TimePart(d) + "." + Pad(d.millis, 3) + "Z"
  }

  /** `iso.slice(0, 19) + 'Z'`. */
  function FormatTimestamp(iso: string): (r: string)
    ensures |r| == if |iso| < 19 then |iso| + 1 else 20
    ensures r[..|r| - 1] <= iso && r[|r| - 1] == 'Z'
  {
    (if |iso| < 19 then iso else iso[..19]) + "Z"
  }

  /** The stamp the server stores for the instant `d`. */
  function Stamp(d: DateTime): (r: string)
    requires ValidDateTime(d)
    ensures |r| == 20 && r[19] == 'Z'
  {
    FormatTimestamp(ToIsoString(d))
  }

  /** Reads a stored stamp YYYY-MM-DDTHH:mm:ssZ back into an instant (millis 0). */
  function ParseStamp(s: string): Option<DateTime> {
    if |s| == 20 && s[4] == '-' && s[7] == '-' && s[10] == 'T' && s[13] == ':'
       && s[16] == ':' && s[19] == 'Z'
    then Some(DateTime(Value(s[0..4]), Value(s[5..7]), Value(s[8..10]),
                       Value(s[11..13]), Value(s[14..16]), Value(s[17..19]), 0))
    else None
  }

  /**
   * For the years a present-day clock produces, the stored stamp is 20
   * characters long and reads back as the instant truncated to the second:
   * the milliseconds are dropped and nothing else is lost.
   */
  lemma StampRoundTrip(d: DateTime)
    requires ValidDateTime(d) && FourDigitYear(d)
    ensures |Stamp(d)| == 20
    ensures ParseStamp(Stamp(d)) == Some(d.(millis := 0))
  {
    var date, time := DatePart(d), TimePart(d);
    DatePartFields(d);
    TimePartFields(d);
    StampShape(d);
    ParseJoined(date, time);
    PadValue(d.year, 4);
    PadValue(d.month, 2);
    PadValue(d.day, 2);
    PadValue(d.hour, 2);
    PadValue(d.minute, 2);
    PadValue(d.second, 2);
  }

  /** Where the fields sit in the date part of a four-digit year. */
  lemma DatePartFields(d: DateTime)
    requires ValidDateTime(d) && FourDigitYear(d)
    ensures var date := DatePart(d);
      && |date| == 10 && date[4] == '-' && date[7] == '-'
      && date[0..4] == Pad(d.year, 4) && date[5..7] == Pad(d.month, 2) && date[8..10] == Pad(d.day, 2)
  {
  }

  /** Where the fields sit in the time part. */
  lemma TimePartFields(d: DateTime)
    requires ValidDateTime(d)
    ensures var time := TimePart(d);
      && time[2] == ':' && time[5] == ':'
      && time[0..2] == Pad(d.hour, 2) && time[3..5] == Pad(d.minute, 2) && time[6..8] == Pad(d.second, 2)
  {
  }

  /** For a four-digit year the stamp is the date and the time of day, joined by T, ending in Z. */
  lemma StampShape(d: DateTime)
    requires ValidDateTime(d) && FourDigitYear(d)
    ensures Stamp(d) == DatePart(d) + "T" + TimePart(d) + "Z"
  {
    var date, time := DatePart(d), TimePart(d);
    DatePartFields(d);
    var iso := ToIsoString(d);
    assert iso == (date + "T" + time) + ("." + Pad(d.millis, 3) + "Z");
    assert iso[..19] == date + "T" + time;
  }

  /** Parsing a joined stamp reads each field from its place. */
  lemma ParseJoined(date: string, time: string)
    requires |date| == 10 && date[4] == '-' && date[7] == '-'
    requires |time| == 8 && time[2] == ':' && time[5] == ':'
    ensures ParseStamp(date + "T" + time + "Z") == Some(DateTime(
      Value(date[0..4]), Value(date[5..7]), Value(date[8..10]),
      Value(time[0..2]), Value(time[3..5]), Value(time[6..8]), 0))
  {
    var s := date + "T" + time + "Z";
    assert s[..10] == date;
    assert s[11..19] == time;
    assert s[0..4] == date[0..4];
    assert s[5..7] == date[5..7];
    assert s[8..10] == date[8..10];
    assert s[11..13] == time[0..2];
    assert s[14..16] == time[3..5];
    assert s[17..19] == time[6..8];
  }

  /** Two instants in the same second get the same stamp; instants in different seconds do not. */
  lemma StampIsSecondPrecision(d: DateTime, e: DateTime)
    requires ValidDateTime(d) && FourDigitYear(d)
    requires ValidDateTime(e) && FourDigitYear(e)
    ensures Stamp(d) == Stamp(e) <==> d.(millis := 0) == e.(millis := 0)
  {
    StampRoundTrip(d);
    StampRoundTrip(e);
    if d.(millis := 0) == e.(millis := 0) {
      assert ToIsoString(d)[..19] == ToIsoString(e)[..19];
    }
  }

  /**
   * For years written with a sign and six digits the ISO string is three
   * characters longer, so the first 19 characters stop before the seconds:
   * the stored stamp then has minute precision only.
   */
  lemma ExtendedYearStampDropsSeconds(d: DateTime)
    requires ValidDateTime(d) && !FourDigitYear(d)
    ensures |Stamp(d)| == 20
    ensures Stamp(d) == Stamp(d.(second := 0, millis := 0))
  {
    var e := d.(second := 0, millis := 0);
    var date := DatePart(d);
    assert |date| == 13 && DatePart(e) == date;
    var hm := Pad(d.hour, 2) + ":" + Pad(d.minute, 2);
    assert ToIsoString(d) == (date + "T" + hm) + (":" + Pad(d.second, 2) + "." + Pad(d.millis, 3) + "Z");
    assert ToIsoString(e) == (date + "T" + hm) + (":" + Pad(e.second, 2) + "." + Pad(e.millis, 3) + "Z");
    assert |date + "T" + hm| == 19;
  }
}
