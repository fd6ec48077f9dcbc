/**
 * Packet timestamps (`sniff_time`, a naive Python `datetime`), their
 * difference in microseconds, and the two `strftime` layouts the splitter
 * prints: `%Y-%m-%d %H:%M:%S.%f` for filter queries and `%Y%m%d_%H%M%S` for
 * file names.
 */
module Clock {
  import opened Base

  datatype DateTime = DateTime(year: int, month: int, day: int,
                               hour: int, minute: int, second: int, micro: int)

  predicate IsLeap(y: int) {
    y % 4 == 0 && (y % 100 != 0 || y % 400 == 0)
  }

  /**
   * The field ranges of a date and time of day. Capture timestamps count
   * seconds from 1970, so years before 1970 do not occur; Python's
   * `datetime` stops at 9999. The day is bounded by 31 in every month.
   */
  predicate Valid(t: DateTime) {
    1970 <= t.year <= 9999 && 1 <= t.month <= 12 && 1 <= t.day <= 31 &&
    0 <= t.hour < 24 && 0 <= t.minute < 60 && 0 <= t.second < 60 && 0 <= t.micro < 1000000
  }

  type Timestamp = t: DateTime | Valid(t) witness DateTime(1970, 1, 1, 0, 0, 0, 0)

  /** Days in the months before `m` of year `y` (Python's `_days_before_month`). */
  function DaysBeforeMonth(y: int, m: int): int
    requires 1 <= m <= 12
  {
    [0, 31, 59, 90, 120, 151, 181, 212, 243, 273, 304, 334][m - 1] + (if m > 2 && IsLeap(y) then 1 else 0)
  }

  /** Proleptic Gregorian day number, 1 for 0001-01-01 (Python's `toordinal`). */
  function Ordinal(t: Timestamp): int {
    var y := t.year - 1;
    y * 365 + y / 4 - y / 100 + y / 400 + DaysBeforeMonth(t.year, t.month) + t.day
  }

  /** Microseconds since 0001-01-01 00:00; `a - b` between datetimes is `Micros(a) - Micros(b)`. */
  function Micros(t: Timestamp): int {
    (((Ordinal(t) * 24 + t.hour) * 60 + t.minute) * 60 + t.second) * 1000000 + t.micro
  }

  function Pow10(w: nat): (p: nat)
    ensures p >= 1
  {
    if w == 0 then 1 else 10 * Pow10(w - 1)
  }

  predicate IsDigit(ch: char) {
    '0' <= ch <= '9'
  }

  predicate AllDigits(s: string) {
    forall i :: 0 <= i < |s| ==> IsDigit(s[i])
  }

  /** The last `w` decimal digits of `n`, zero-padded (`%0wd` when `n < 10^w`). */
  function Pad(n: nat, w: nat): string {
    if w == 0 then ""
    else Pad(n / 10, w - 1) + [('0' as int + n % 10) as char]
  }

  /** A padded number is `w` decimal digits. */
  lemma {:induction false} PadShape(n: nat, w: nat)
    ensures |Pad(n, w)| == w && AllDigits(Pad(n, w))
  {
    if w > 0 {
      PadShape(n / 10, w - 1);
    }
  }

  /** The number a string of decimal digits denotes. */
  function DigitsValue(s: string): nat
    requires AllDigits(s)
  {
    if s == [] then 0
    else DigitsValue(s[..|s| - 1]) * 10 + (s[|s| - 1] as int - '0' as int)
  }

  /** Padding loses nothing when the number fits the width. */
  lemma {:induction false} PadValue(n: nat, w: nat)
    requires n < Pow10(w)
    ensures AllDigits(Pad(n, w)) && DigitsValue(Pad(n, w)) == n
  {
    PadShape(n, w);
    if w > 0 {
      PadShape(n / 10, w - 1);
      var s := Pad(n, w);
      assert s[..|s| - 1] == Pad(n / 10, w - 1);
      PadValue(n / 10, w - 1);
    }
  }

  // The two layouts below are written as right-nested concatenations, so
  // that proofs can take them apart one field at a time from the left.

  /** `strftime('%Y-%m-%d %H:%M:%S.%f')`. */
  function FormatFull(t: Timestamp): string {
    Pad(t.year, 4) + ("-" + (Pad(t.month, 2) + ("-" + (Pad(t.day, 2) + (" " +
    (Pad(t.hour, 2) + (":" + (Pad(t.minute, 2) + (":" + (Pad(t.second, 2) + ("." + Pad(t.micro, 6))))))))))))
  }

  /** `strftime('%Y%m%d_%H%M%S')`: the microseconds are not printed. */
  function FormatCompact(t: Timestamp): string {
    Pad(t.year, 4) + (Pad(t.month, 2) + (Pad(t.day, 2) + ("_" +
    (Pad(t.hour, 2) + (Pad(t.minute, 2) + Pad(t.second, 2))))))
  }

  predicate IsFullShape(s: string) {
    |s| == 26 && s[4] == '-' && s[7] == '-' && s[10] == ' ' && s[13] == ':' && s[16] == ':' && s[19] == '.' &&
    AllDigits(s[0..4]) && AllDigits(s[5..7]) && AllDigits(s[8..10]) && AllDigits(s[11..13]) &&
    AllDigits(s[14..16]) && AllDigits(s[17..19]) && AllDigits(s[20..26])
  }

  /** Reads back a `%Y-%m-%d %H:%M:%S.%f` text. */
  function ParseFull(s: string): Option<DateTime> {
    if IsFullShape(s) then
      Some(DateTime(DigitsValue(s[0..4]), DigitsValue(s[5..7]), DigitsValue(s[8..10]),
                    DigitsValue(s[11..13]), DigitsValue(s[14..16]), DigitsValue(s[17..19]),
                    DigitsValue(s[20..26])))
    else None
  }

  predicate IsCompactShape(s: string) {
    |s| == 15 && s[8] == '_' &&
    AllDigits(s[0..4]) && AllDigits(s[4..6]) && AllDigits(s[6..8]) &&
    AllDigits(s[9..11]) && AllDigits(s[11..13]) && AllDigits(s[13..15])
  }

  /** Reads back a `%Y%m%d_%H%M%S` text, with zero microseconds. */
  function ParseCompact(s: string): Option<DateTime> {
    if IsCompactShape(s) then
      Some(DateTime(DigitsValue(s[0..4]), DigitsValue(s[4..6]), DigitsValue(s[6..8]),
                    DigitsValue(s[9..11]), DigitsValue(s[11..13]), DigitsValue(s[13..15]), 0))
    else None
  }

  /** Where the fields of the `%Y-%m-%d %H:%M:%S.%f` layout sit, for any digit strings of the right widths. */
  lemma FullLayout(y: string, mo: string, d: string, h: string, mi: string, sec: string, u: string)
    requires |y| == 4 && |mo| == 2 && |d| == 2 && |h| == 2 && |mi| == 2 && |sec| == 2 && |u| == 6
    requires AllDigits(y) && AllDigits(mo) && AllDigits(d) && AllDigits(h) && AllDigits(mi) && AllDigits(sec) && AllDigits(u)
    ensures var s := y + ("-" + (mo + ("-" + (d + (" " + (h + (":" + (mi + (":" + (sec + ("." + u)))))))))));
      IsFullShape(s) && s[0..4] == y && s[5..7] == mo && s[8..10] == d && s[11..13] == h &&
      s[14..16] == mi && s[17..19] == sec && s[20..26] == u
  {
    var s5 := sec + ("." + u);
    var s4 := mi + (":" + s5);
    var s3 := h + (":" + s4);
    var s2 := d + (" " + s3);
    var s1 := mo + ("-" + s2);
    var s := y + ("-" + s1);
    FieldAt(y, '-', s1);
    FieldAt(mo, '-', s2);
    FieldAt(d, ' ', s3);
    FieldAt(h, ':', s4);
    FieldAt(mi, ':', s5);
    FieldAt(sec, '.', u);
    assert s[5..] == s1;
    assert s[5..7] == s1[0..2] && s[7] == s1[2];
    assert s[8..] == s2 by { assert s1[3..] == s2; }
    assert s[8..10] == s2[0..2] && s[10] == s2[2];
    assert s[11..] == s3 by { assert s2[3..] == s3; }
    assert s[11..13] == s3[0..2] && s[13] == s3[2];
    assert s[14..] == s4 by { assert s3[3..] == s4; }
    assert s[14..16] == s4[0..2] && s[16] == s4[2];
    assert s[17..] == s5 by { assert s4[3..] == s5; }
    assert s[17..19] == s5[0..2] && s[19] == s5[2];
    assert s[20..26] == u by { assert s5[3..] == u; }
  }

  /** A field followed by a one-character separator and the rest. */
  lemma FieldAt(x: string, sep: char, rest: string)
    ensures var s := x + ([sep] + rest);
      |s| == |x| + 1 + |rest| && s[..|x|] == x && s[|x|] == sep && s[|x| + 1..] == rest
  {
  }

  /** The query layout keeps the timestamp to the microsecond. */
  lemma FullRoundTrip(t: Timestamp)
    ensures ParseFull(FormatFull(t)).Some? && ParseFull(FormatFull(t)).value == t
  {
    PadShape(t.year, 4); PadShape(t.month, 2); PadShape(t.day, 2); PadShape(t.hour, 2);
    PadShape(t.minute, 2); PadShape(t.second, 2); PadShape(t.micro, 6);
    FullLayout(Pad(t.year, 4), Pad(t.month, 2), Pad(t.day, 2), Pad(t.hour, 2), Pad(t.minute, 2),
               Pad(t.second, 2), Pad(t.micro, 6));
    PadValue(t.year, 4);
    PadValue(t.month, 2);
    PadValue(t.day, 2);
    PadValue(t.hour, 2);
    PadValue(t.minute, 2);
    PadValue(t.second, 2);
    PadValue(t.micro, 6);
  }

  /** Where the fields of the `%Y%m%d_%H%M%S` layout sit. */
  lemma CompactLayout(y: string, mo: string, d: string, h: string, mi: string, sec: string)
    requires |y| == 4 && |mo| == 2 && |d| == 2 && |h| == 2 && |mi| == 2 && |sec| == 2
    requires AllDigits(y) && AllDigits(mo) && AllDigits(d) && AllDigits(h) && AllDigits(mi) && AllDigits(sec)
    ensures var s := y + (mo + (d + ("_" + (h + (mi + sec)))));
      IsCompactShape(s) && s[0..4] == y && s[4..6] == mo && s[6..8] == d && s[9..11] == h &&
      s[11..13] == mi && s[13..15] == sec
  {
    var s3 := h + (mi + sec);
    var s2 := d + ("_" + s3);
    var s := y + (mo + s2);
    assert s[6..] == s2;
    assert s2[3..] == s3;
  }

  /** The file-name layout keeps the timestamp to the second. */
  lemma CompactRoundTrip(t: Timestamp)
    ensures ParseCompact(FormatCompact(t)) == Some(t.(micro := 0))
  {
    PadShape(t.year, 4); PadShape(t.month, 2); PadShape(t.day, 2); PadShape(t.hour, 2);
    PadShape(t.minute, 2); PadShape(t.second, 2);
    CompactLayout(Pad(t.year, 4), Pad(t.month, 2), Pad(t.day, 2), Pad(t.hour, 2), Pad(t.minute, 2),
                  Pad(t.second, 2));
    PadValue(t.year, 4);
    PadValue(t.month, 2);
    PadValue(t.day, 2);
    PadValue(t.hour, 2);
    PadValue(t.minute, 2);
    PadValue(t.second, 2);
  }

  /** A query timestamp holds no double quote. */
  lemma FullHasNoQuote(t: Timestamp)
    ensures '"' !in FormatFull(t)
  {
    assert IsFullShape(FormatFull(t)) by {
      PadShape(t.year, 4); PadShape(t.month, 2); PadShape(t.day, 2); PadShape(t.hour, 2);
      PadShape(t.minute, 2); PadShape(t.second, 2); PadShape(t.micro, 6);
      FullLayout(Pad(t.year, 4), Pad(t.month, 2), Pad(t.day, 2), Pad(t.hour, 2), Pad(t.minute, 2),
                 Pad(t.second, 2), Pad(t.micro, 6));
    }
    ShapeHasNoQuote(FormatFull(t));
  }

  lemma ShapeHasNoQuote(s: string)
    requires IsFullShape(s)
    ensures '"' !in s
  {
    forall i | 0 <= i < |s|
      ensures s[i] != '"'
    {
      ShapeChar(s, i);
    }
  }

  /** Every character of a `%Y-%m-%d %H:%M:%S.%f` text is a digit or one of its separators. */
  lemma ShapeChar(s: string, i: nat)
    requires IsFullShape(s) && i < |s|
    ensures IsDigit(s[i]) || s[i] in "-: ."
  {
    if i < 4 { assert s[i] == s[0..4][i]; }
    else if 4 < i < 7 { assert s[i] == s[5..7][i - 5]; }
    else if 7 < i < 10 { assert s[i] == s[8..10][i - 8]; }
    else if 10 < i < 13 { assert s[i] == s[11..13][i - 11]; }
    else if 13 < i < 16 { assert s[i] == s[14..16][i - 14]; }
    else if 16 < i < 19 { assert s[i] == s[17..19][i - 17]; }
    else if 19 < i { assert s[i] == s[20..26][i - 20]; }
  }

  /** A file-name stamp is fifteen characters long. */
  lemma CompactLength(t: Timestamp)
    ensures |FormatCompact(t)| == 15
  {
    PadShape(t.year, 4); PadShape(t.month, 2); PadShape(t.day, 2); PadShape(t.hour, 2);
    PadShape(t.minute, 2); PadShape(t.second, 2);
  }

  /** Distinct timestamps print as distinct query texts. */
  lemma FullInjective(a: Timestamp, b: Timestamp)
    ensures FormatFull(a) == FormatFull(b) <==> a == b
  {
    FullRoundTrip(a);
    FullRoundTrip(b);
  }

  /** Two timestamps print the same file-name stamp exactly when they fall in the same second. */
  /** Two timestamps in the same second are less than a second apart. */
  lemma SameSecondClose(a: Timestamp, b: Timestamp)
    requires a.(micro := 0) == b.(micro := 0)
    ensures -1000000 < Micros(b) - Micros(a) < 1000000
  {
    assert a.year == b.year && a.month == b.month && a.day == b.day;
    assert a.hour == b.hour && a.minute == b.minute && a.second == b.second;
  }

  lemma CompactSameSecond(a: Timestamp, b: Timestamp)
    ensures FormatCompact(a) == FormatCompact(b) <==> a.(micro := 0) == b.(micro := 0)
  {
    CompactRoundTrip(a);
    CompactRoundTrip(b);
  }
}
