/**
  The part of Go's `time` package that message cursors rely on: an instant together with the
  civil fields it is shown with, the RFC3339Nano layout that prints it, and the parser that
  reads it back (section 5.6 of RFC 3339).
 */
module Rfc3339 {
  import opened Wrappers

  /** The fields of a wall clock reading; `offset` is the distance from UTC in seconds, east positive. */
  datatype Civil = Civil(year: int, month: int, day: int, hour: int, minute: int, second: int, nano: int, offset: int)

  /** A time.Time: nanoseconds since 1 January of year 1 UTC, and the fields its Location shows. */
  datatype Time = Time(instant: int, civil: Civil)

  const ZERO_TIME := Time(0, Civil(1, 1, 1, 0, 0, 0, 0, 0))

  predicate IsLeap(year: int) {
    year % 4 == 0 && (year % 100 != 0 || year % 400 == 0)
  }

  function DaysIn(year: int, month: int): int {
    if month == 2 then (if IsLeap(year) then 29 else 28)
    else if month in {4, 6, 9, 11} then 30
    else 31
  }

  /** Days between 1 January of year 1 and the first day of the month; month 13 closes the year. */
  function DaysBeforeMonth(year: int, month: int): int
    decreases month
  {
    if month <= 1 then
      365 * (year - 1) + (year - 1) / 4 - (year - 1) / 100 + (year - 1) / 400
    else
      DaysBeforeMonth(year, month - 1) + DaysIn(year, month - 1)
  }

  const NANOS_PER_SECOND := 1_000_000_000

  function InstantOf(c: Civil): int {
    var days := DaysBeforeMonth(c.year, c.month) + c.day - 1;
    var seconds := days * 86400 + c.hour * 3600 + c.minute * 60 + c.second - c.offset;
    seconds * NANOS_PER_SECOND + c.nano
  }

  predicate ValidCivil(c: Civil) {
    && 1 <= c.month <= 12
    && 1 <= c.day <= DaysIn(c.year, c.month)
    && 0 <= c.hour < 24
    && 0 <= c.minute < 60
    && 0 <= c.second < 60
    && 0 <= c.nano < NANOS_PER_SECOND
    && -86400 < c.offset < 86400
  }

  /** What holds of every time.Time: the civil fields are in range and name the instant. */
  predicate Coherent(t: Time) {
    ValidCivil(t.civil) && t.instant == InstantOf(t.civil)
  }

  // Printing ---------------------------------------------------------------------------------

  function Digit(n: int): (c: char)
    requires 0 <= n < 10
  {
    (n + 48) as char
  }

  predicate IsDigit(c: char) {
    '0' <= c <= '9'
  }

  /** appendInt for a natural number: decimal digits, zero-padded on the left to `width`. */
  function PadNat(n: nat, width: nat): (s: string)
    decreases n, width
  {
    if n < 10 && width <= 1 then [Digit(n)]
    else PadNat(n / 10, if width == 0 then 0 else width - 1) + [Digit(n % 10)]
  }

  function PadInt(n: int, width: nat): string {
    if n < 0 then "-" + PadNat(-n, width) else PadNat(n, width)
  }

  function TrimZeros(s: string): string {
    if s == "" || s[|s| - 1] != '0' then s else TrimZeros(s[..|s| - 1])
  }

  function FormatFraction(nano: nat): string {
    if nano == 0 then "" else "." + TrimZeros(PadNat(nano, 9))
  }

  /** Whole minutes of an offset, truncated toward zero as Go's integer division does. */
  function OffsetMinutes(offset: int): int {
    if offset < 0 then -(-offset / 60) else offset / 60
  }

  function FormatZone(offset: int): string {
    if offset == 0 then "Z"
    else
      var zone := OffsetMinutes(offset);
      var size := if zone < 0 then -zone else zone;
      (if zone < 0 then "-" else "+") + PadNat(size / 60, 2) + ":" + PadNat(size % 60, 2)
  }

  function FormatSeconds(c: Civil): string
    requires ValidCivil(c)
  {
    PadNat(c.month, 2) + "-" + PadNat(c.day, 2) + "T" +
    PadNat(c.hour, 2) + ":" + PadNat(c.minute, 2) + ":" + PadNat(c.second, 2)
  }

  /** Time.Format(time.RFC3339Nano) */
  function Format(c: Civil): string
    requires ValidCivil(c)
  {
    PadInt(c.year, 4) + "-" + FormatSeconds(c) + FormatFraction(c.nano) + FormatZone(c.offset)
  }

  // Parsing ----------------------------------------------------------------------------------

  predicate AllDigits(s: string) {
    forall k :: 0 <= k < |s| ==> IsDigit(s[k])
  }

  function NatOf(s: string): nat
    requires AllDigits(s)
  {
    if s == "" then 0 else NatOf(s[..|s| - 1]) * 10 + (s[|s| - 1] as int - 48)
  }

  /** A fixed-width decimal field with its accepted range. */
  function Field(s: string, lo: int, hi: int): Option<int> {
    if AllDigits(s) && lo <= NatOf(s) <= hi then Some(NatOf(s)) else None
  }

  function DigitsPrefix(s: string): (n: nat)
    ensures n <= |s|
    ensures AllDigits(s[..n])
    ensures n < |s| ==> !IsDigit(s[n])
  {
    if s == "" || !IsDigit(s[0]) then 0
    else
      var rest := DigitsPrefix(s[1..]);
      assert forall k :: 0 < k < 1 + rest ==> s[k] == s[1..][..rest][k - 1];
      1 + rest
  }

  function PadRight(s: string, width: nat): (r: string)
    requires |s| <= width
    ensures |r| == width
    ensures AllDigits(s) ==> AllDigits(r)
    decreases width - |s|
  {
    if |s| == width then s else PadRight(s + "0", width)
  }

  /** The value of fraction digits in nanoseconds; digits beyond the ninth are dropped. */
  function NanosOf(digits: string): nat
    requires AllDigits(digits)
  {
    var kept := if |digits| > 9 then digits[..9] else digits;
    assert AllDigits(kept);
    NatOf(PadRight(kept, 9))
  }

  /** Offset in seconds of "Z" or "+hh:mm" or "-hh:mm". */
  function ParseZone(s: string): Option<int> {
    if s == "Z" then Some(0)
    else if |s| != 6 || s[3] != ':' || (s[0] != '+' && s[0] != '-') then None
    else
      var hours := Field(s[1..3], 0, 23);
      var minutes := Field(s[4..6], 0, 59);
      if hours.None? || minutes.None? then None
      else
        var size := (hours.value * 60 + minutes.value) * 60;
        Some(if s[0] == '-' then -size else size)
  }

  /** Fraction (possibly absent) and zone. */
  function ParseTail(s: string): Option<(int, int)> {
    var n := if |s| >= 2 && s[0] == '.' then DigitsPrefix(s[1..]) else 0;
    assert n > 0 ==> s[1..1 + n] == s[1..][..n];
    var nano := if n == 0 then 0 else NanosOf(s[1..1 + n]);
    var zone := ParseZone(if n == 0 then s else s[1 + n..]);
    if zone.None? then None else Some((nano, zone.value))
  }

  /** time.Parse(time.RFC3339Nano, s) on the grammar of section 5.6 of RFC 3339. */
  function Parse(s: string): Option<Time> {
    if |s| < 19 || s[4] != '-' || s[7] != '-' || s[10] != 'T' || s[13] != ':' || s[16] != ':' then None
    else
      var year := Field(s[..4], 0, 9999);
      var month := Field(s[5..7], 1, 12);
      if year.None? || month.None? then None
      else
        var day := Field(s[8..10], 1, DaysIn(year.value, month.value));
        var hour := Field(s[11..13], 0, 23);
        var minute := Field(s[14..16], 0, 59);
        var second := Field(s[17..19], 0, 59);
        var tail := ParseTail(s[19..]);
        if day.None? || hour.None? || minute.None? || second.None? || tail.None? then None
        else
          var c := Civil(year.value, month.value, day.value, hour.value, minute.value, second.value,
                         tail.value.0, tail.value.1);
          Some(Time(InstantOf(c), c))
  }

  // Printing and parsing are inverse ----------------------------------------------------------

  function Pow10(n: nat): (p: nat)
    ensures p >= 1
  {
    if n == 0 then 1 else 10 * Pow10(n - 1)
  }

  lemma OneMoreDigit(s: string, d: nat)
    requires AllDigits(s) && d < 10
    ensures AllDigits(s + [Digit(d)]) && NatOf(s + [Digit(d)]) == NatOf(s) * 10 + d
  {
    assert (s + [Digit(d)])[..|s|] == s;
  }

  lemma {:induction false} PadNatReads(n: nat, width: nat)
    ensures AllDigits(PadNat(n, width))
    ensures NatOf(PadNat(n, width)) == n
    decreases n, width
  {
    if n < 10 && width <= 1 {
      OneMoreDigit("", n);
      assert [Digit(n)] == "" + [Digit(n)];
    } else {
      var w := if width == 0 then 0 else width - 1;
      PadNatReads(n / 10, w);
      OneMoreDigit(PadNat(n / 10, w), n % 10);
      hide NatOf, AllDigits;
    }
  }

  lemma {:induction false} PadNatWidth(n: nat, width: nat)
    requires width >= 1
    ensures |PadNat(n, width)| >= width
    ensures |PadNat(n, width)| == width <==> n < Pow10(width)
    decreases width
  {
    assert Pow10(width) == 10 * Pow10(width - 1);
    if width == 1 {
      assert Pow10(0) == 1;
      if n >= 10 { NonEmptyDigits(n / 10, 0); }
    } else {
      PadNatWidth(n / 10, width - 1);
    }
  }

  lemma {:induction false} NonEmptyDigits(n: nat, width: nat)
    ensures |PadNat(n, width)| >= 1
  {
  }

  lemma TwoDigits(n: nat)
    requires n < 100
    ensures |PadNat(n, 2)| == 2 && AllDigits(PadNat(n, 2)) && NatOf(PadNat(n, 2)) == n
  {
    PadNatReads(n, 2);
    PadNatWidth(n, 2);
    assert Pow10(2) == 10 * Pow10(1) && Pow10(1) == 10 * Pow10(0);
  }

  lemma {:induction false} TrimThenPad(s: string, width: nat)
    requires |s| <= width
    requires AllDigits(s)
    ensures |TrimZeros(s)| <= |s|
    ensures AllDigits(TrimZeros(s))
    ensures PadRight(TrimZeros(s), width) == PadRight(s, width)
  {
    if s != "" && s[|s| - 1] == '0' {
      var t := s[..|s| - 1];
      TrimThenPad(t, width);
      assert t + "0" == s;
      assert PadRight(t, width) == PadRight(s, width);
    }
  }

  lemma FractionRoundTrip(nano: nat)
    requires 0 < nano < NANOS_PER_SECOND
    ensures var digits := TrimZeros(PadNat(nano, 9));
            && 0 < |digits| <= 9 && AllDigits(digits) && NanosOf(digits) == nano
  {
    var padded := PadNat(nano, 9);
    PadNatReads(nano, 9);
    NinePlaces();
    PadNatWidth(nano, 9);
    TrimThenPad(padded, 9);
    var digits := TrimZeros(padded);
    if digits == "" {
      ZerosReadZero(9);
    }
  }

  lemma NinePlaces()
    ensures Pow10(9) == NANOS_PER_SECOND
  {
    assert Pow10(3) == 1000 by { assert Pow10(2) == 100 by { assert Pow10(1) == 10; } }
    assert Pow10(6) == 1_000_000 by { assert Pow10(5) == 100_000 by { assert Pow10(4) == 10_000; } }
    assert Pow10(8) == 100_000_000 by { assert Pow10(7) == 10_000_000; }
  }

  lemma {:induction false} ZerosReadZero(width: nat)
    ensures AllDigits(PadRight("", width)) && NatOf(PadRight("", width)) == 0
  {
    PadRightGrows("", width);
  }

  lemma {:induction false} PadRightGrows(s: string, width: nat)
    requires |s| <= width && AllDigits(s) && NatOf(s) == 0
    ensures NatOf(PadRight(s, width)) == 0
    decreases width - |s|
  {
    if |s| < width {
      assert (s + "0")[..|s|] == s;
      PadRightGrows(s + "0", width);
    }
  }

  lemma ZoneLayout(sign: string, hours: string, minutes: string)
    requires |sign| == 1 && |hours| == |minutes| == 2
    ensures var s := sign + hours + ":" + minutes;
            |s| == 6 && s[0] == sign[0] && s[1..3] == hours && s[3] == ':' && s[4..6] == minutes
  {
    var s := sign + hours + ":" + minutes;
    assert s[1..3] == hours;
    assert s[4..6] == minutes;
  }

  lemma ZoneRoundTrip(offset: int)
    requires -86400 < offset < 86400
    ensures ParseZone(FormatZone(offset)) == Some(OffsetMinutes(offset) * 60)
    ensures !IsDigit(FormatZone(offset)[0]) && FormatZone(offset)[0] != '.'
  {
    hide PadNat, NatOf;
    if offset != 0 {
      var zone := OffsetMinutes(offset);
      var size := if zone < 0 then -zone else zone;
      TwoDigits(size / 60);
      TwoDigits(size % 60);
      ZoneLayout(if zone < 0 then "-" else "+", PadNat(size / 60, 2), PadNat(size % 60, 2));
    }
  }

  lemma {:induction false} DigitsPrefixStops(a: string, b: string)
    requires AllDigits(a)
    requires b != "" && !IsDigit(b[0])
    ensures DigitsPrefix(a + b) == |a|
  {
    if a == "" {
      assert a + b == b;
    } else {
      assert (a + b)[1..] == a[1..] + b;
      DigitsPrefixStops(a[1..], b);
    }
  }

  lemma FractionLayout(digits: string, zone: string)
    requires AllDigits(digits) && digits != ""
    requires zone != "" && !IsDigit(zone[0])
    ensures var s := "." + digits + zone;
            && |s| >= 2 && s[0] == '.' && DigitsPrefix(s[1..]) == |digits|
            && s[1..1 + |digits|] == digits && s[1 + |digits|..] == zone
  {
    var s := "." + digits + zone;
    assert s[1..] == digits + zone;
    DigitsPrefixStops(digits, zone);
    assert s[1..1 + |digits|] == digits;
    assert s[1 + |digits|..] == zone;
  }

  lemma TailRoundTrip(nano: nat, offset: int)
    requires nano < NANOS_PER_SECOND
    requires -86400 < offset < 86400
    ensures ParseTail(FormatFraction(nano) + FormatZone(offset)) == Some((nano, OffsetMinutes(offset) * 60))
  {
    var zone := FormatZone(offset);
    ZoneRoundTrip(offset);
    if nano == 0 {
      assert "" + zone == zone;
    } else {
      FractionRoundTrip(nano);
      FractionTail(nano, TrimZeros(PadNat(nano, 9)), zone);
    }
  }

  lemma FractionTail(nano: nat, digits: string, zone: string)
    requires AllDigits(digits) && digits != "" && NanosOf(digits) == nano
    requires zone != "" && !IsDigit(zone[0])
    ensures ParseTail("." + digits + zone) ==
            (if ParseZone(zone).None? then None else Some((nano, ParseZone(zone).value)))
  {
    FractionLayout(digits, zone);
  }

  lemma SecondsLayout(month: string, day: string, hour: string, minute: string, second: string)
    requires |month| == |day| == |hour| == |minute| == |second| == 2
    ensures var s := month + "-" + day + "T" + hour + ":" + minute + ":" + second;
            && |s| == 14
            && s[2] == '-' && s[5] == 'T' && s[8] == ':' && s[11] == ':'
            && s[..2] == month && s[3..5] == day && s[6..8] == hour && s[9..11] == minute && s[12..14] == second
  {
    var s := month + "-" + day + "T" + hour + ":" + minute + ":" + second;
    assert s[..2] == month;
    assert s[3..5] == day;
    assert s[6..8] == hour;
    assert s[9..11] == minute;
    assert s[12..14] == second;
  }

  lemma DateTimeLayout(year: string, seconds: string, tail: string)
    requires |year| == 4 && |seconds| == 14
    ensures var s := year + "-" + seconds + tail;
            && |s| >= 19 && s[..4] == year && s[4] == '-' && s[19..] == tail
            && (forall k :: 0 <= k < 14 ==> s[5 + k] == seconds[k])
            && s[5..7] == seconds[..2] && s[8..10] == seconds[3..5] && s[11..13] == seconds[6..8]
            && s[14..16] == seconds[9..11] && s[17..19] == seconds[12..14]
  {
    var s := year + "-" + seconds + tail;
    assert s[..4] == year;
    assert s[19..] == tail;
    assert forall k :: 0 <= k < 14 ==> s[5 + k] == seconds[k];
    assert s[5..7] == seconds[..2];
    assert s[8..10] == seconds[3..5];
    assert s[11..13] == seconds[6..8];
    assert s[14..16] == seconds[9..11];
    assert s[17..19] == seconds[12..14];
  }

  /** The civil fields a printed time is read back with: the offset keeps its whole minutes only. */
  function ReadBack(c: Civil): Civil {
    c.(offset := OffsetMinutes(c.offset) * 60)
  }

  /** Parsing what Format printed succeeds exactly for four-digit years, and loses only the seconds of the offset. */
  lemma FormatParse(c: Civil)
    requires ValidCivil(c)
    ensures 0 <= c.year <= 9999 ==> Parse(Format(c)) == Some(Time(InstantOf(ReadBack(c)), ReadBack(c)))
    ensures !(0 <= c.year <= 9999) ==> Parse(Format(c)) == None
  {
    hide PadNat, NatOf, FormatSeconds, FormatFraction, FormatZone, Parse, ParseTail, Reads;
    if 0 <= c.year <= 9999 {
      FormatLayout(c, Format(c));
      FieldsRead(c);
      TailRoundTrip(c.nano, c.offset);
      ParseByFields(c, Format(c));
    } else {
      BadYear(c.year, "-" + FormatSeconds(c) + FormatFraction(c.nano) + FormatZone(c.offset));
      assert Format(c) == PadInt(c.year, 4) + ("-" + FormatSeconds(c) + FormatFraction(c.nano) + FormatZone(c.offset));
    }
  }

  /** A year that does not print as four digits is refused, whatever follows it. */
  lemma BadYear(year: int, rest: string)
    requires !(0 <= year <= 9999)
    ensures Parse(PadInt(year, 4) + rest) == None
  {
    var s := PadInt(year, 4) + rest;
    var digits := PadNat(if year < 0 then -year else year, 4);
    PadNatReads(if year < 0 then -year else year, 4);
    PadNatWidth(if year < 0 then -year else year, 4);
    FourPlaces();
    if year < 0 {
      assert s[0] == '-';
      assert |s| >= 19 ==> s[..4][0] == '-' && !AllDigits(s[..4]);
    } else {
      assert s[4] == digits[4];
      assert IsDigit(digits[4]);
    }
  }

  lemma FourPlaces()
    ensures Pow10(4) == 10_000
  {
    assert Pow10(2) == 100 by { assert Pow10(1) == 10; }
    assert Pow10(3) == 1000;
  }

  /** `s` is laid out as a date-time whose fields print those of `c`. */
  ghost predicate Layout(c: Civil, s: string)
    requires ValidCivil(c) && c.year >= 0
  {
    && |s| >= 19
    && s[4] == '-' && s[7] == '-' && s[10] == 'T' && s[13] == ':' && s[16] == ':'
    && s[..4] == PadNat(c.year, 4) && s[5..7] == PadNat(c.month, 2) && s[8..10] == PadNat(c.day, 2)
    && s[11..13] == PadNat(c.hour, 2) && s[14..16] == PadNat(c.minute, 2) && s[17..19] == PadNat(c.second, 2)
    && s[19..] == FormatFraction(c.nano) + FormatZone(c.offset)
  }

  lemma FormatLayout(c: Civil, s: string)
    requires ValidCivil(c) && s == Format(c) && 0 <= c.year <= 9999
    ensures Layout(c, s)
  {
    FieldsRead(c);
    var head := PadNat(c.year, 4) + "-" + FormatSeconds(c);
    Regroup(head, FormatFraction(c.nano), FormatZone(c.offset));
    PartsLayout(PadNat(c.year, 4), PadNat(c.month, 2), PadNat(c.day, 2), PadNat(c.hour, 2), PadNat(c.minute, 2),
                PadNat(c.second, 2), FormatFraction(c.nano) + FormatZone(c.offset), s);
  }

  lemma Regroup(a: string, b: string, c: string)
    ensures a + b + c == a + (b + c)
  {
  }

  lemma PartsLayout(year: string, month: string, day: string, hour: string, minute: string, second: string,
                    tail: string, s: string)
    requires |year| == 4 && |month| == |day| == |hour| == |minute| == |second| == 2
    requires s == year + "-" + (month + "-" + day + "T" + hour + ":" + minute + ":" + second) + tail
    ensures |s| >= 19
    ensures s[4] == '-' && s[7] == '-' && s[10] == 'T' && s[13] == ':' && s[16] == ':'
    ensures s[..4] == year && s[5..7] == month && s[8..10] == day
    ensures s[11..13] == hour && s[14..16] == minute && s[17..19] == second && s[19..] == tail
  {
    var seconds := month + "-" + day + "T" + hour + ":" + minute + ":" + second;
    SecondsLayout(month, day, hour, minute, second);
    DateTimeLayout(year, seconds, tail);
    assert s == year + "-" + seconds + tail;
    assert s[7] == seconds[2] && s[10] == seconds[5] && s[13] == seconds[8] && s[16] == seconds[11];
  }

  ghost predicate Reads(s: string, n: int) {
    AllDigits(s) && NatOf(s) == n
  }

  lemma FieldsRead(c: Civil)
    requires ValidCivil(c) && 0 <= c.year <= 9999
    ensures |PadNat(c.year, 4)| == 4 && Reads(PadNat(c.year, 4), c.year)
    ensures |PadNat(c.month, 2)| == 2 && Reads(PadNat(c.month, 2), c.month)
    ensures |PadNat(c.day, 2)| == 2 && Reads(PadNat(c.day, 2), c.day)
    ensures |PadNat(c.hour, 2)| == 2 && Reads(PadNat(c.hour, 2), c.hour)
    ensures |PadNat(c.minute, 2)| == 2 && Reads(PadNat(c.minute, 2), c.minute)
    ensures |PadNat(c.second, 2)| == 2 && Reads(PadNat(c.second, 2), c.second)
  {
    FourPlaces();
    PadNatReads(c.year, 4);
    PadNatWidth(c.year, 4);
    TwoDigits(c.month);
    TwoDigits(c.day);
    TwoDigits(c.hour);
    TwoDigits(c.minute);
    TwoDigits(c.second);
  }

  lemma ParseByFields(c: Civil, s: string)
    requires ValidCivil(c) && 0 <= c.year <= 9999
    requires |s| >= 19 && s[4] == '-' && s[7] == '-' && s[10] == 'T' && s[13] == ':' && s[16] == ':'
    requires Reads(s[..4], c.year) && Reads(s[5..7], c.month) && Reads(s[8..10], c.day)
    requires Reads(s[11..13], c.hour) && Reads(s[14..16], c.minute) && Reads(s[17..19], c.second)
    requires ParseTail(s[19..]) == Some((c.nano, OffsetMinutes(c.offset) * 60))
    ensures Parse(s) == Some(Time(InstantOf(ReadBack(c)), ReadBack(c)))
  {
  }

  /** The offset survives exactly when it is a whole number of minutes. */
  lemma WholeMinutes(offset: int)
    ensures OffsetMinutes(offset) * 60 == offset <==> offset % 60 == 0
  {
  }

  // Characters of a printed time --------------------------------------------------------------

  predicate TimeChar(c: char) {
    IsDigit(c) || c in {'-', '+', ':', '.', 'T', 'Z'}
  }

  predicate TimeChars(s: string) {
    forall k :: 0 <= k < |s| ==> TimeChar(s[k])
  }

  lemma {:induction false} TrimKeepsDigits(s: string)
    requires AllDigits(s)
    ensures AllDigits(TrimZeros(s))
  {
    if s != "" && s[|s| - 1] == '0' {
      TrimKeepsDigits(s[..|s| - 1]);
    }
  }

  lemma FormatChars(c: Civil)
    requires ValidCivil(c)
    ensures TimeChars(Format(c))
    ensures Format(c) != ""
  {
    hide PadNat, PadInt, FormatSeconds, FormatFraction, FormatZone, TimeChars;
    YearChars(c.year);
    SecondsChars(c);
    FractionChars(c.nano);
    ZoneChars(c.offset);
    DashChars();
    JoinChars(PadInt(c.year, 4), "-");
    JoinChars(PadInt(c.year, 4) + "-", FormatSeconds(c));
    JoinChars(PadInt(c.year, 4) + "-" + FormatSeconds(c), FormatFraction(c.nano));
    JoinChars(PadInt(c.year, 4) + "-" + FormatSeconds(c) + FormatFraction(c.nano), FormatZone(c.offset));
  }

  lemma DashChars()
    ensures TimeChars("-")
  {
  }

  lemma YearChars(year: int)
    ensures TimeChars(PadInt(year, 4))
  {
    PadNatReads(if year < 0 then -year else year, 4);
  }

  lemma FractionChars(nano: nat)
    ensures TimeChars(FormatFraction(nano))
  {
    PadNatReads(nano, 9);
    TrimKeepsDigits(PadNat(nano, 9));
  }

  lemma ZoneChars(offset: int)
    ensures TimeChars(FormatZone(offset))
  {
    hide PadNat;
    var zone := OffsetMinutes(offset);
    var size := if zone < 0 then -zone else zone;
    PadNatReads(size / 60, 2);
    PadNatReads(size % 60, 2);
  }

  lemma JoinChars(a: string, b: string)
    requires TimeChars(a) && TimeChars(b)
    ensures TimeChars(a + b)
  {
  }

  lemma SecondsChars(c: Civil)
    requires ValidCivil(c)
    ensures TimeChars(FormatSeconds(c))
  {
    TwoDigits(c.month);
    TwoDigits(c.day);
    TwoDigits(c.hour);
    TwoDigits(c.minute);
    TwoDigits(c.second);
    ConcatChars(PadNat(c.month, 2), PadNat(c.day, 2), PadNat(c.hour, 2), PadNat(c.minute, 2), PadNat(c.second, 2));
  }

  lemma ConcatChars(month: string, day: string, hour: string, minute: string, second: string)
    requires AllDigits(month) && AllDigits(day) && AllDigits(hour) && AllDigits(minute) && AllDigits(second)
    ensures TimeChars(month + "-" + day + "T" + hour + ":" + minute + ":" + second)
  {
  }

  // What is printed and what is read, each on its own ------------------------------------------------

  lemma {:induction false} NatOfBound(s: string)
    requires AllDigits(s)
    ensures NatOf(s) < Pow10(|s|)
  {
    if s != "" {
      NatOfBound(s[..|s| - 1]);
    }
  }

  lemma NanosBound(digits: string)
    requires AllDigits(digits)
    ensures NanosOf(digits) < NANOS_PER_SECOND
  {
    var kept := if |digits| > 9 then digits[..9] else digits;
    assert AllDigits(kept);
    NatOfBound(PadRight(kept, 9));
    NinePlaces();
  }

  lemma ZoneInRange(s: string)
    requires ParseZone(s).Some?
    ensures -86400 < ParseZone(s).value < 86400 && ParseZone(s).value % 60 == 0
  {
    hide NatOf;
  }

  lemma TailInRange(s: string)
    requires ParseTail(s).Some?
    ensures 0 <= ParseTail(s).value.0 < NANOS_PER_SECOND
    ensures -86400 < ParseTail(s).value.1 < 86400 && ParseTail(s).value.1 % 60 == 0
  {
    hide NatOf, NanosOf, ParseZone;
    var n := if |s| >= 2 && s[0] == '.' then DigitsPrefix(s[1..]) else 0;
    ZoneInRange(if n == 0 then s else s[1 + n..]);
    if n > 0 {
      assert s[1..1 + n] == s[1..][..n];
      NanosBound(s[1..1 + n]);
    }
  }

  /** Whatever is accepted is a possible clock reading, of a year of four digits, together with its instant. */
  lemma ParsedIsCoherent(s: string)
    requires Parse(s).Some?
    ensures var t := Parse(s).value;
            Coherent(t) && 0 <= t.civil.year <= 9999 && t.civil.offset % 60 == 0
  {
    hide ParseTail, NatOf, InstantOf, DaysIn;
    TailInRange(s[19..]);
  }

  lemma PrintedPair(n: nat, s: string)
    requires n < 100 && |s| == 2 && s[0] == Digit(n / 10) && s[1] == Digit(n % 10)
    ensures PadNat(n, 2) == s
  {
    assert PadNat(n / 10, 1) == [s[0]];
  }

  lemma PadDigit(n: nat, d: nat, width: nat)
    requires d < 10 && width >= 2
    ensures PadNat(10 * n + d, width) == PadNat(n, width - 1) + [Digit(d)]
  {
    assert (10 * n + d) / 10 == n && (10 * n + d) % 10 == d;
  }

  lemma OneDigit(d: nat)
    requires d < 10
    ensures PadNat(d, 1) == [Digit(d)]
  {
  }

  lemma ExampleYears()
    ensures PadNat(1985, 4) == "1985" && PadNat(1996, 4) == "1996"
  {
    hide PadNat;
    OneDigit(1);
    PadDigit(1, 9, 2);
    PadDigit(19, 8, 3);
    PadDigit(198, 5, 4);
    PadDigit(19, 9, 3);
    PadDigit(199, 6, 4);
  }

  lemma PrintedFraction()
    ensures FormatFraction(520_000_000) == ".52" && FormatFraction(0) == ""
  {
    hide PadNat;
    OneDigit(5);
    PadDigit(5, 2, 2);
    PadDigit(52, 0, 3);
    PadDigit(520, 0, 4);
    PadDigit(5200, 0, 5);
    PadDigit(52000, 0, 6);
    PadDigit(520000, 0, 7);
    PadDigit(5200000, 0, 8);
    PadDigit(52000000, 0, 9);
    assert PadNat(520000000, 9) == "520000000";
    TrimAll("52", 7);
    assert "520000000" == "52" + seq(7, _ => '0');
  }

  lemma {:induction false} TrimAll(s: string, n: nat)
    requires s != "" && s[|s| - 1] != '0'
    ensures TrimZeros(s + seq(n, _ => '0')) == s
  {
    var t := s + seq(n, _ => '0');
    if n == 0 {
      assert t == s;
    } else {
      TrimAll(s, n - 1);
      assert t[..|t| - 1] == s + seq(n - 1, _ => '0');
    }
  }

  const EXAMPLE := Civil(1985, 4, 12, 23, 20, 50, 520_000_000, 0)
  const EXAMPLE_WEST := Civil(1996, 12, 19, 16, 39, 57, 0, -8 * 3600)

  lemma ExampleSeconds()
    ensures ValidCivil(EXAMPLE) && FormatSeconds(EXAMPLE) == "04-12T23:20:50"
  {
    PrintedPair(4, "04");
    PrintedPair(12, "12");
    PrintedPair(23, "23");
    PrintedPair(20, "20");
    PrintedPair(50, "50");
    hide PadNat;
    assert "04" + "-" + "12" + "T" == "04-12T";
    assert "04-12T" + "23" + ":" + "20" + ":" + "50" == "04-12T23:20:50";
  }

  lemma ExampleWestSeconds()
    ensures ValidCivil(EXAMPLE_WEST) && FormatSeconds(EXAMPLE_WEST) == "12-19T16:39:57"
  {
    PrintedPair(12, "12");
    PrintedPair(19, "19");
    PrintedPair(16, "16");
    PrintedPair(39, "39");
    PrintedPair(57, "57");
    hide PadNat;
    assert "12" + "-" + "19" + "T" == "12-19T";
    assert "12-19T" + "16" + ":" + "39" + ":" + "57" == "12-19T16:39:57";
  }

  lemma ExampleZones()
    ensures FormatZone(0) == "Z" && FormatZone(-8 * 3600) == "-08:00" && FormatZone(-30) == "+00:00"
  {
    PrintedPair(8, "08");
    PrintedPair(0, "00");
    hide PadNat;
    assert "-" + "08" + ":" + "00" == "-08:00";
    assert "+" + "00" + ":" + "00" == "+00:00";
  }

  /** The seconds of an offset are cut off toward zero, on either side of UTC. */
  lemma TowardZero(offset: int)
    ensures var kept := OffsetMinutes(offset) * 60;
            -60 < offset - kept < 60 && if offset < 0 then offset <= kept <= 0 else 0 <= kept <= offset
  {
  }

  /** Fraction digits beyond the ninth are cut off. */
  lemma NanosCutOff(digits: string, more: string)
    requires AllDigits(digits) && AllDigits(more) && |digits| == 9
    ensures AllDigits(digits + more) && NanosOf(digits + more) == NatOf(digits)
  {
    assert (digits + more)[..9] == digits;
    assert more == "" ==> digits + more == digits;
    assert PadRight(digits, 9) == digits;
  }

  /** Two of the examples of section 5.8 of RFC 3339. */
  lemma Section58()
    ensures ValidCivil(EXAMPLE) && Format(EXAMPLE) == "1985" + "-" + "04-12T23:20:50" + ".52" + "Z"
    ensures ValidCivil(EXAMPLE_WEST) && Format(EXAMPLE_WEST) == "1996" + "-" + "12-19T16:39:57" + "" + "-08:00"
  {
    ExampleYears();
    PrintedFraction();
    ExampleSeconds();
    ExampleWestSeconds();
    ExampleZones();
    hide PadNat, FormatSeconds, FormatFraction, FormatZone;
  }
}
