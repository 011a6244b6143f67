/** `iso8601_utc` of crates/red-core/src/doc.rs, and a reader of the text it writes. */
module IsoDate {
  import opened Wrappers
  import opened CivilDate
  import opened JsonText

  const DAY_MS: int := 86_400_000

  /** `n` in exactly `width` decimal digits. */
  function Pad(n: nat, width: nat): (s: string)
    ensures |s| == width
  {
    if width == 0 then "" else Pad(n / 10, width - 1) + [DigitChar(n % 10)]
  }

  function Clock(day: int, hour: nat, minute: nat, second: nat, milli: nat): int {
    day * DAY_MS + hour * 3_600_000 + minute * 60_000 + second * 1000 + milli
  }

  /** `YYYY-MM-DDThh:mm:ss.mmmZ`. */
  function Stamp(d: Date, hour: nat, minute: nat, second: nat, milli: nat): string
    requires d.year >= 0 && d.month >= 0 && d.day >= 0
  {
    Pad(d.year, 4) + "-" + Pad(d.month, 2) + "-" + Pad(d.day, 2) + "T"
      + Pad(hour, 2) + ":" + Pad(minute, 2) + ":" + Pad(second, 2) + "." + Pad(milli, 3) + "Z"
  }

  /** The text of the instant `ms`, if its year has at most four digits. */
  function Iso8601(ms: int): Option<string> {
    var d := CivilFromDays(ms / DAY_MS);
    var rem := ms % DAY_MS;
    CivilIsTheDate(ms / DAY_MS);
    if 0 <= d.year <= 9999 then
      Some(Stamp(d, rem / 1000 / 3600, rem / 1000 % 3600 / 60, rem / 1000 % 60, rem % 1000))
    else None
  }

  // ----- reading -----

  function ReadPad(s: string): Option<int> {
    if forall k :: 0 <= k < |s| ==> IsDigit(s[k]) then Some(DigitsValue(s, 0)) else None
  }

  /** The instant a stamp names. */
  function ReadIso(s: string): Option<int> {
    if |s| != 24 then None
    else
      match (ReadPad(s[0..4]), ReadPad(s[5..7]), ReadPad(s[8..10]), ReadPad(s[11..13]), ReadPad(s[14..16]), ReadPad(s[17..19]), ReadPad(s[20..23]))
      case (Some(y), Some(mo), Some(d), Some(h), Some(mi), Some(sec), Some(ms)) =>
        if 1 <= mo <= 12 && h >= 0 && mi >= 0 && sec >= 0 && ms >= 0 then Some(Clock(DayCount(Date(y, mo, d)), h, mi, sec, ms)) else None
      case _ => None
  }

  function Pow10(n: nat): nat {
    if n == 0 then 1 else 10 * Pow10(n - 1)
  }

  lemma {:induction false} PadReads(n: nat, width: nat)
    requires n < Pow10(width)
    ensures forall k :: 0 <= k < |Pad(n, width)| ==> IsDigit(Pad(n, width)[k])
    ensures ReadPad(Pad(n, width)) == Some(n)
    decreases width
  {
    if width > 0 {
      PadReads(n / 10, width - 1);
      DigitsValueSnoc(Pad(n / 10, width - 1), DigitChar(n % 10), 0);
    }
  }

  lemma PadReadsSmall(n: nat)
    ensures n < 100 ==> ReadPad(Pad(n, 2)) == Some(n)
    ensures n < 1000 ==> ReadPad(Pad(n, 3)) == Some(n)
    ensures n < 10_000 ==> ReadPad(Pad(n, 4)) == Some(n)
  {
    hide Pad, ReadPad;
    assert Pow10(2) == 100 && Pow10(3) == 10 * Pow10(2) && Pow10(4) == 10 * Pow10(3);
    if n < 100 {
      PadReads(n, 2);
    }
    if n < 1000 {
      PadReads(n, 3);
    }
    if n < 10_000 {
      PadReads(n, 4);
    }
  }

  /** The fields of a stamp stand at fixed places. */
  lemma StampFields(a: string, b: string, c: string, d: string, e: string, f: string, g: string)
    requires |a| == 4 && |b| == |c| == |d| == |e| == |f| == 2 && |g| == 3
    ensures var s := a + "-" + b + "-" + c + "T" + d + ":" + e + ":" + f + "." + g + "Z";
            && |s| == 24 && s[0..4] == a && s[5..7] == b && s[8..10] == c && s[11..13] == d
            && s[14..16] == e && s[17..19] == f && s[20..23] == g
  {
  }

  lemma ClockSplits(ms: int)
    ensures var rem := ms % DAY_MS;
            && 0 <= rem / 1000 / 3600 < 24 && 0 <= rem / 1000 % 3600 / 60 < 60 && 0 <= rem / 1000 % 60 < 60
            && Clock(ms / DAY_MS, rem / 1000 / 3600, rem / 1000 % 3600 / 60, rem / 1000 % 60, rem % 1000) == ms
  {
    var rem := ms % DAY_MS;
    var secs := rem / 1000;
    var inHour := secs % 3600;
    assert secs == 3600 * (secs / 3600) + inHour;
    assert inHour == 60 * (inHour / 60) + inHour % 60;
    assert secs % 60 == inHour % 60;
    assert rem == 1000 * secs + rem % 1000;
  }

  /** The text determines the instant, to the millisecond. */
  lemma IsoRoundTrip(ms: int)
    requires Iso8601(ms).Some?
    ensures ReadIso(Iso8601(ms).value) == Some(ms)
  {
    hide Pad, ReadPad, CivilFromDays, DayCount, MonthLength;
    var d := CivilFromDays(ms / DAY_MS);
    var rem := ms % DAY_MS;
    var h, mi, sec, milli := rem / 1000 / 3600, rem / 1000 % 3600 / 60, rem / 1000 % 60, rem % 1000;
    CivilIsTheDate(ms / DAY_MS);
    MonthLengthSmall(d.year, d.month);
    ClockSplits(ms);
    StampFields(Pad(d.year, 4), Pad(d.month, 2), Pad(d.day, 2), Pad(h, 2), Pad(mi, 2), Pad(sec, 2), Pad(milli, 3));
    PadReadsSmall(d.year);
    PadReadsSmall(d.month);
    PadReadsSmall(d.day);
    PadReadsSmall(h);
    PadReadsSmall(mi);
    PadReadsSmall(sec);
    PadReadsSmall(milli);
  }

  lemma MonthLengthSmall(y: int, m: int)
    ensures 28 <= MonthLength(y, m) <= 31
  {
  }

  /** Exactly the instants of the years 0 to 9999 have a text. */
  lemma IsoRange(ms: int)
    ensures Iso8601(ms).Some? <==> -62_167_219_200_000 <= ms < 253_402_300_800_000
  {
    hide CivilFromDays, DayCount, MonthLength;
    var day := ms / DAY_MS;
    CivilIsTheDate(day);
    YearEdges();
    if day < -719_528 {
      CivilAscends(day, -719_528);
    } else if -719_528 < day {
      CivilAscends(-719_528, day);
    }
    if day < 2_932_897 {
      CivilAscends(day, 2_932_897);
    } else if 2_932_897 < day {
      CivilAscends(2_932_897, day);
    }
  }

  lemma YearEdges()
    ensures CivilFromDays(-719_528) == Date(0, 1, 1) && CivilFromDays(2_932_897) == Date(10_000, 1, 1)
  {
    hide CivilFromDays;
    CivilInvertsDayCount(Date(0, 1, 1));
    CivilInvertsDayCount(Date(10_000, 1, 1));
    assert DaysBeforeMonth(0, 1) == 0 && DaysBeforeMonth(10_000, 1) == 0;
    assert DayCount(Date(0, 1, 1)) == -719_528 && DayCount(Date(10_000, 1, 1)) == 2_932_897;
  }
}
