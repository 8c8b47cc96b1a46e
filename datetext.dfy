/** Timestamps as text: `strftime` rendering and `strptime` parsing for the formats the engine
    uses ("%Y-%m-%d %H:%M:%S", "%Y-%m-%d" and "%d.%m.%Y"). */
module DateText {

  import opened Wrappers
  import opened Calendar
  import Text

  predicate IsDigit(c: char)
  {
    '0' <= c <= '9'
  }

  function DigitChar(n: int): char
    requires 0 <= n < 10
  {
    ('0' as int + n) as char
  }

  function DigitValue(c: char): int
    requires IsDigit(c)
  {
    c as int - '0' as int
  }

  /** `n` written with exactly two digits (`%02d`). */
  function Pad2(n: int): string
    requires 0 <= n < 100
  {
    [DigitChar(n / 10), DigitChar(n % 10)]
  }

  /** `n` written with exactly four digits, as `%Y` writes years. */
  function Pad4(n: int): string
    requires 0 <= n < 10000
  {
    [DigitChar(n / 1000), DigitChar(n / 100 % 10), DigitChar(n / 10 % 10), DigitChar(n % 10)]
  }

  /** `strftime("%Y-%m-%d")`. */
  function RenderDate(t: DateTime): string
  {
    Pad4(t.year) + "-" + Pad2(t.month) + "-" + Pad2(t.day)
  }

  /** `strftime("%H:%M:%S")` of the second `sec` of a day. */
  function Clock(sec: int): string
    requires 0 <= sec < SecondsPerDay
  {
    Pad2(sec / 3600) + ":" + Pad2(sec % 3600 / 60) + ":" + Pad2(sec % 60)
  }

  /** `strftime("%Y-%m-%d %H:%M:%S")`. */
  function RenderDateTime(t: DateTime): string
  {
    RenderDate(t) + " " + Clock(t.sec)
  }

  /** `strftime("%d.%m.%Y")`. */
  function RenderDayMonthYear(t: DateTime): string
  {
    Pad2(t.day) + "." + Pad2(t.month) + "." + Pad4(t.year)
  }

  /** The number of consecutive ASCII digits of `s` from index `i` on. */
  function DigitRun(s: string, i: nat): nat
    decreases |s| - i
  {
    if i < |s| && IsDigit(s[i]) then 1 + DigitRun(s, i + 1) else 0
  }

  /** The number of consecutive whitespace characters of `s` from index `i` on. */
  function SpaceRun(s: string, i: nat): nat
    decreases |s| - i
  {
    if i < |s| && Text.IsSpace(s[i]) then 1 + SpaceRun(s, i + 1) else 0
  }

  /** The decimal value of the digits `s[i..i + n]`. */
  function Value(s: string, i: nat, n: nat): int
    requires i + n <= |s| && forall k :: i <= k < i + n ==> IsDigit(s[k])
  {
    if n == 0 then 0 else 10 * Value(s, i, n - 1) + DigitValue(s[i + n - 1])
  }

  /** What a directive consumed: the number it read and where the rest of the input starts. */
  datatype Scan = Scan(value: int, next: nat)

  lemma {:induction false} DigitRunDigits(s: string, i: nat)
    ensures i + DigitRun(s, i) <= |s| || DigitRun(s, i) == 0
    ensures forall k :: i <= k < i + DigitRun(s, i) ==> k < |s| && IsDigit(s[k])
    decreases |s| - i
  {
    if i < |s| && IsDigit(s[i]) {
      DigitRunDigits(s, i + 1);
    }
  }

  /** A numeric directive with up to two digits (%m, %d, %H, %M, %S): the regular expression
      strptime builds for it accepts a run of one or two digits whose value lies in `lo..hi`. */
  function Numeric(s: string, i: nat, lo: int, hi: int): Option<Scan>
  {
    var n := DigitRun(s, i);
    DigitRunDigits(s, i);
    if 1 <= n <= 2 && lo <= Value(s, i, n) <= hi then Some(Scan(Value(s, i, n), i + n)) else None
  }

  /** The %d directive also accepts a blank followed by one digit (" 5"). */
  function DayOfMonth(s: string, i: nat): Option<Scan>
  {
    if i + 1 < |s| && s[i] == ' ' && DigitRun(s, i + 1) == 1 && s[i + 1] != '0' then
      Some(Scan(DigitValue(s[i + 1]), i + 2))
    else Numeric(s, i, 1, 31)
  }

  /** The "%Y-%m-%d" part: four digits of year, then month and day, each after a '-'.
      The year, month and day read, and the position after the day. */
  datatype DatePart = DatePart(year: int, month: int, day: int, next: nat)

  function ScanDate(s: string): Option<DatePart>
  {
    DigitRunDigits(s, 0);
    if !(DigitRun(s, 0) == 4 && 4 < |s| && s[4] == '-') then None
    else
      var year := Value(s, 0, 4);
      match Numeric(s, 5, 1, 12)
      case None => None
      case Some(m) =>
        if !(m.next < |s| && s[m.next] == '-') then None
        else
          match DayOfMonth(s, m.next + 1)
          case None => None
          case Some(d) => Some(DatePart(year, m.value, d.value, d.next))
  }

  /** `datetime.strptime(s, "%Y-%m-%d")`: None where Python raises ValueError (no match, text
      left over, or a date that does not exist, such as year 0 or February 30). */
  function ParseDate(s: string): Option<DateTime>
  {
    match ScanDate(s)
    case None => None
    case Some(p) =>
      if p.next == |s| && ValidDate(p.year, p.month, p.day)
      then Some(Timestamp(p.year, p.month, p.day, 0)) else None
  }

  /** The "%H:%M:%S" part from index `k` to the end of `s`, as a second of the day. Seconds 60
      and 61 pass the regular expression strptime builds, but `datetime` rejects them, so both
      fail here. */
  function ScanClock(s: string, k: nat): Option<int>
  {
    match Numeric(s, k, 0, 23)
    case None => None
    case Some(h) =>
      if !(h.next < |s| && s[h.next] == ':') then None
      else
        match Numeric(s, h.next + 1, 0, 59)
        case None => None
        case Some(mi) =>
          if !(mi.next < |s| && s[mi.next] == ':') then None
          else
            match Numeric(s, mi.next + 1, 0, 59)
            case None => None
            case Some(sc) =>
              if sc.next == |s| then Some(h.value * 3600 + mi.value * 60 + sc.value) else None
  }

  /** `datetime.strptime(s, "%Y-%m-%d %H:%M:%S")`; the blank of the format matches one or more
      whitespace characters, as in strptime. */
  function ParseDateTime(s: string): Option<DateTime>
  {
    match ScanDate(s)
    case None => None
    case Some(p) =>
      var k := p.next + SpaceRun(s, p.next);
      if k == p.next then None
      else
        match ScanClock(s, k)
        case None => None
        case Some(sec) =>
          if ValidDate(p.year, p.month, p.day) then Some(Timestamp(p.year, p.month, p.day, sec)) else None
  }

  lemma {:induction false} DigitRunExact(s: string, i: nat, n: nat)
    requires i + n <= |s|
    requires forall k :: i <= k < i + n ==> IsDigit(s[k])
    requires i + n == |s| || !IsDigit(s[i + n])
    ensures DigitRun(s, i) == n
    decreases n
  {
    if n > 0 {
      DigitRunExact(s, i + 1, n - 1);
    }
  }

  lemma Pad2Reads(s: string, i: nat, n: int)
    requires 0 <= n < 100
    requires i + 2 <= |s| && s[i..i + 2] == Pad2(n)
    requires i + 2 == |s| || !IsDigit(s[i + 2])
    ensures DigitRun(s, i) == 2
    ensures forall k :: i <= k < i + 2 ==> IsDigit(s[k])
    ensures Value(s, i, 2) == n
  {
    assert s[i] == s[i..i + 2][0] && s[i + 1] == s[i..i + 2][1];
    DigitRunExact(s, i, 2);
    assert DigitValue(s[i]) == n / 10 && DigitValue(s[i + 1]) == n % 10;
    assert Value(s, i, 1) == n / 10;
  }

  lemma Pad4Reads(s: string, n: int)
    requires 0 <= n < 10000
    requires 4 < |s| && s[..4] == Pad4(n) && s[4] == '-'
    ensures DigitRun(s, 0) == 4
    ensures forall k :: 0 <= k < 4 ==> IsDigit(s[k])
    ensures Value(s, 0, 4) == n
  {
    assert s[0] == s[..4][0] && s[1] == s[..4][1] && s[2] == s[..4][2] && s[3] == s[..4][3];
    DigitRunExact(s, 0, 4);
    assert DigitValue(s[0]) == n / 1000 && DigitValue(s[1]) == n / 100 % 10;
    assert DigitValue(s[2]) == n / 10 % 10 && DigitValue(s[3]) == n % 10;
    assert Value(s, 0, 1) == n / 1000;
    assert Value(s, 0, 2) == n / 100;
    assert Value(s, 0, 3) == n / 10;
  }

  /** The date part of a rendered timestamp scans back to the same year, month and day. */
  lemma ScanRenderedDate(t: DateTime, rest: string)
    requires rest == [] || !IsDigit(rest[0])
    ensures ScanDate(RenderDate(t) + rest) == Some(DatePart(t.year, t.month, t.day, 10))
  {
    var s := RenderDate(t) + rest;
    assert |s| == 10 + |rest|;
    assert s[..4] == Pad4(t.year) && s[4] == '-';
    Pad4Reads(s, t.year);
    assert s[5..7] == Pad2(t.month) && s[7] == '-';
    Pad2Reads(s, 5, t.month);
    assert s[8..10] == Pad2(t.day);
    assert 10 == |s| || s[10] == rest[0];
    Pad2Reads(s, 8, t.day);
    assert s[8] != ' ';
  }

  /** `strptime(strftime(t, "%Y-%m-%d"), "%Y-%m-%d")` is the day of `t` at midnight. */
  lemma ParseRenderDate(t: DateTime)
    ensures ParseDate(RenderDate(t)) == Some(Midnight(t))
  {
    ScanRenderedDate(t, []);
    assert RenderDate(t) + [] == RenderDate(t);
  }

  /** The time part of a rendered timestamp, which ends the string, scans back to its second. */
  lemma ScanRenderedClock(s: string, sec: int)
    requires 0 <= sec < SecondsPerDay
    requires |s| == 19 && s[11..] == Clock(sec)
    ensures ScanClock(s, 11) == Some(sec)
  {
    var h, mi, sc := sec / 3600, sec % 3600 / 60, sec % 60;
    assert s[11..13] == s[11..][..2] == Pad2(h) && s[13] == s[11..][2] == ':';
    Pad2Reads(s, 11, h);
    assert s[14..16] == s[11..][3..5] == Pad2(mi) && s[16] == s[11..][5] == ':';
    Pad2Reads(s, 14, mi);
    assert s[17..19] == s[11..][6..8] == Pad2(sc);
    Pad2Reads(s, 17, sc);
  }

  lemma RenderedShape(t: DateTime)
    ensures RenderDateTime(t) == RenderDate(t) + (" " + Clock(t.sec))
    ensures |RenderDateTime(t)| == 19 && RenderDateTime(t)[11..] == Clock(t.sec)
    ensures RenderDateTime(t)[10] == ' ' && IsDigit(RenderDateTime(t)[11])
  {
  }

  /** `strptime(strftime(t, F), F) == t` for F = "%Y-%m-%d %H:%M:%S". */
  lemma ParseRenderDateTime(t: DateTime)
    ensures ParseDateTime(RenderDateTime(t)) == Some(t)
  {
    var s := RenderDateTime(t);
    RenderedShape(t);
    ScanRenderedDate(t, " " + Clock(t.sec));
    assert SpaceRun(s, 10) == 1 by {
      assert !Text.IsSpace(s[11]);
    }
    ScanRenderedClock(s, t.sec);
  }
}
