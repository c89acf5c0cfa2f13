/**
 * The timestamp text written by the SQLite export, `%Y-%m-%d %H:%M:%S.%f+00`,
 * read as an instant tagged UTC (03_sqlite_to_postgres/tests/check_consistency.py:38-40).
 *
 * The parser accepts exactly the zero-padded fixed-width form
 * `YYYY-MM-DD HH:MM:SS.ffffff+00` (29 characters); `Format` writes that form, and the
 * two are proved inverse to each other in both directions.
 */
module Timestamp {
  import opened Wrappers

  /** An instant in UTC, field by field as `datetime` holds it. */
  datatype Instant = Instant(year: int, month: int, day: int,
                             hour: int, minute: int, second: int, micro: int)

  /** The field ranges the parser admits (months are not checked for their length). */
  predicate Valid(t: Instant) {
    && 1 <= t.year <= 9999
    && 1 <= t.month <= 12
    && 1 <= t.day <= 31
    && 0 <= t.hour < 24
    && 0 <= t.minute < 60
    && 0 <= t.second < 60
    && 0 <= t.micro < 1000000
  }

  function Pow10(w: nat): (p: nat)
    ensures p >= 1
  {
    if w == 0 then 1 else 10 * Pow10(w - 1)
  }

  predicate IsDigit(c: char) {
    '0' <= c <= '9'
  }

  predicate AllDigits(s: string) {
    forall i :: 0 <= i < |s| ==> IsDigit(s[i])
  }

  function DigitChar(d: nat): char
    requires d < 10
  {
    ['0', '1', '2', '3', '4', '5', '6', '7', '8', '9'][d]
  }

  function DigitValue(c: char): (d: nat)
    requires IsDigit(c)
    ensures d < 10
  {
    (c as int - '0' as int) as nat
  }

  /** `v` written with exactly `w` decimal digits, zero-padded on the left. */
  function Digits(v: nat, w: nat): (s: string)
    ensures |s| == w && AllDigits(s)
  {
    if w == 0 then [] else Digits(v / 10, w - 1) + [DigitChar(v % 10)]
  }

  /** The number a string of decimal digits denotes. */
  function ValueOf(s: string): nat
    requires AllDigits(s)
  {
    if s == [] then 0 else ValueOf(s[..|s| - 1]) * 10 + DigitValue(s[|s| - 1])
  }

  lemma DigitRoundTrip(d: nat)
    requires d < 10
    ensures IsDigit(DigitChar(d)) && DigitValue(DigitChar(d)) == d
  {
  }

  /** Reading back `w` written digits gives the number that was written. */
  lemma {:induction false} ValueOfDigits(v: nat, w: nat)
    requires v < Pow10(w)
    ensures ValueOf(Digits(v, w)) == v
  {
    if w > 0 {
      var s := Digits(v, w);
      assert s[..|s| - 1] == Digits(v / 10, w - 1);
      ValueOfDigits(v / 10, w - 1);
      DigitRoundTrip(v % 10);
    }
  }

  /** Writing back the number a digit string denotes, at the same width, gives the string. */
  lemma {:induction false} DigitsOfValue(s: string)
    requires AllDigits(s)
    ensures ValueOf(s) < Pow10(|s|)
    ensures Digits(ValueOf(s), |s|) == s
  {
    if s != [] {
      var init, c := s[..|s| - 1], s[|s| - 1];
      DigitsOfValue(init);
      var v := ValueOf(s);
      var d := DigitValue(c);
      assert v == ValueOf(init) * 10 + d;
      assert v / 10 == ValueOf(init) && v % 10 == d;
      assert DigitChar(d) == c;
      assert s == init + [c];
    }
  }

  /** The number in the digit field `s`, if it is all digits and lies in `lo..hi`. */
  function Field(s: string, lo: int, hi: int): (r: Option<int>)
    ensures r.Some? ==> lo <= r.value <= hi && AllDigits(s) && r.value == ValueOf(s)
  {
    if AllDigits(s) && lo <= ValueOf(s) <= hi then Some(ValueOf(s)) else None
  }

  /** `YYYY-MM-DD`: the date half of the format. */
  function FormatDate(t: Instant): (s: string)
    requires Valid(t)
    ensures |s| == 10
  {
    Digits(t.year, 4) + "-" + Digits(t.month, 2) + "-" + Digits(t.day, 2)
  }

  /** `HH:MM:SS.ffffff`: the time-of-day half of the format. */
  function FormatTime(t: Instant): (s: string)
    requires Valid(t)
    ensures |s| == 15
  {
    Digits(t.hour, 2) + ":" + Digits(t.minute, 2) + ":" + Digits(t.second, 2) + "."
      + Digits(t.micro, 6)
  }

  /** The fixed-width text of an instant, as the export writes it. */
  function Format(t: Instant): (s: string)
    requires Valid(t)
    ensures |s| == 29
  {
    FormatDate(t) + " " + FormatTime(t) + "+00"
  }

  /** Year, month and day of a `YYYY-MM-DD` text, each in its range. */
  function ParseDate(d: string): Option<(int, int, int)> {
    if |d| != 10 || d[4] != '-' || d[7] != '-' then None
    else
      var year, month, day := Field(d[..4], 1, 9999), Field(d[5..7], 1, 12), Field(d[8..], 1, 31);
      if year.None? || month.None? || day.None? then None
      else Some((year.value, month.value, day.value))
  }

  /** Hour, minute, second and microsecond of a `HH:MM:SS.ffffff` text, each in its range. */
  function ParseTime(c: string): Option<(int, int, int, int)> {
    if |c| != 15 || c[2] != ':' || c[5] != ':' || c[8] != '.' then None
    else
      var hour, minute := Field(c[..2], 0, 23), Field(c[3..5], 0, 59);
      var second, micro := Field(c[6..8], 0, 59), Field(c[9..], 0, 999999);
      if hour.None? || minute.None? || second.None? || micro.None? then None
      else Some((hour.value, minute.value, second.value, micro.value))
  }

  /** Parse `YYYY-MM-DD HH:MM:SS.ffffff+00`; `None` is the `ValueError` of `strptime`. */
  function Parse(s: string): Option<Instant> {
    if |s| != 29 || s[10] != ' ' || s[26..] != "+00" then None
    else
      var date, time := ParseDate(s[..10]), ParseTime(s[11..26]);
      if date.None? || time.None? then None
      else
        var (year, month, day) := date.value;
        var (hour, minute, second, micro) := time.value;
        Some(Instant(year, month, day, hour, minute, second, micro))
  }

  lemma ParseFormatDate(t: Instant)
    requires Valid(t)
    ensures ParseDate(FormatDate(t)) == Some((t.year, t.month, t.day))
  {
    var d := FormatDate(t);
    assert d[..4] == Digits(t.year, 4);
    assert d[5..7] == Digits(t.month, 2);
    assert d[8..] == Digits(t.day, 2);
    ValueOfDigits(t.year, 4);
    ValueOfDigits(t.month, 2);
    ValueOfDigits(t.day, 2);
  }

  lemma ParseFormatTime(t: Instant)
    requires Valid(t)
    ensures ParseTime(FormatTime(t)) == Some((t.hour, t.minute, t.second, t.micro))
  {
    var c := FormatTime(t);
    assert c[..2] == Digits(t.hour, 2);
    assert c[3..5] == Digits(t.minute, 2);
    assert c[6..8] == Digits(t.second, 2);
    assert c[9..] == Digits(t.micro, 6);
    ValueOfDigits(t.hour, 2);
    ValueOfDigits(t.minute, 2);
    ValueOfDigits(t.second, 2);
    ValueOfDigits(t.micro, 6);
  }

  /** Every valid instant survives formatting and parsing. */
  lemma ParseFormat(t: Instant)
    requires Valid(t)
    ensures Parse(Format(t)) == Some(t)
  {
    var s := Format(t);
    assert s[..10] == FormatDate(t) && s[11..26] == FormatTime(t) && s[26..] == "+00";
    ParseFormatDate(t);
    ParseFormatTime(t);
  }

  lemma FormatParseDate(d: string)
    requires ParseDate(d).Some?
    ensures var (year, month, day) := ParseDate(d).value;
      Digits(year, 4) + "-" + Digits(month, 2) + "-" + Digits(day, 2) == d
  {
    DigitsOfValue(d[..4]);
    DigitsOfValue(d[5..7]);
    DigitsOfValue(d[8..]);
    assert d == d[..4] + "-" + d[5..7] + "-" + d[8..];
  }

  lemma FormatParseTime(c: string)
    requires ParseTime(c).Some?
    ensures var (hour, minute, second, micro) := ParseTime(c).value;
      Digits(hour, 2) + ":" + Digits(minute, 2) + ":" + Digits(second, 2) + "."
        + Digits(micro, 6) == c
  {
    DigitsOfValue(c[..2]);
    DigitsOfValue(c[3..5]);
    DigitsOfValue(c[6..8]);
    DigitsOfValue(c[9..]);
    assert c == c[..2] + ":" + c[3..5] + ":" + c[6..8] + "." + c[9..];
  }

  /** An accepted text is a date, a space, a time and `+00`, and the instant is made of their fields. */
  lemma ParseParts(s: string)
    requires Parse(s).Some?
    ensures var t := Parse(s).value;
      && s == s[..10] + " " + s[11..26] + "+00"
      && ParseDate(s[..10]) == Some((t.year, t.month, t.day))
      && ParseTime(s[11..26]) == Some((t.hour, t.minute, t.second, t.micro))
  {
    assert s == s[..10] + " " + s[11..26] + s[26..];
  }

  /** Fields within their ranges make a valid instant. */
  lemma PartsValid(t: Instant, d: string, c: string)
    requires ParseDate(d) == Some((t.year, t.month, t.day))
    requires ParseTime(c) == Some((t.hour, t.minute, t.second, t.micro))
    ensures Valid(t)
  {
  }

  /** Every accepted text is the format of the instant it denotes: the parse loses nothing. */
  lemma FormatParse(s: string)
    requires Parse(s).Some?
    ensures Valid(Parse(s).value) && Format(Parse(s).value) == s
  {
    var t := Parse(s).value;
    var d, c := s[..10], s[11..26];
    ParseParts(s);
    PartsValid(t, d, c);
    FormatParseDate(d);
    FormatParseTime(c);
  }
}
