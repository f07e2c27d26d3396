/** The printed time stamp of `iso_utc_now` (crates/vdsm-host/src/stats.rs). */
module Timestamp {
  import opened CivilDate
  import opened Numerals

  function DigitChar(n: nat): char {
    ('0' as int + n % 10) as char
  }

  /** `{n:0w}` for a natural number: at least `w` digits, zero-padded. */
  function Pad(n: nat, w: nat): string
    decreases n + w
  {
    (if n < 10 && w <= 1 then "" else Pad(n / 10, if w == 0 then 0 else w - 1)) + [DigitChar(n)]
  }

  /** `{y:04}` for a signed number: the sign counts toward the width. */
  function PadYear(y: int): string {
    if y >= 0 then Pad(y, 4) else "-" + Pad(-y, 3)
  }

  datatype Clock = Clock(hour: nat, minute: nat, second: nat)
  datatype Moment = Moment(date: Date, clock: Clock)

  function ClockOf(secOfDay: nat): Clock {
    Clock(secOfDay / 3600, secOfDay % 3600 / 60, secOfDay % 60)
  }

  function MomentOf(secs: int): Moment {
    Moment(Civil(secs / 86400), ClockOf(secs % 86400))
  }

  function MomentText(m: Moment): string
    requires m.date.month >= 0 && m.date.day >= 0
  {
    PadYear(m.date.year) + ("-" + (Pad(m.date.month, 2) + ("-" + (Pad(m.date.day, 2) + (" " +
    (Pad(m.clock.hour, 2) + (":" + (Pad(m.clock.minute, 2) + (":" + (Pad(m.clock.second, 2) + " -0000"))))))))))
  }

  /** `iso_utc_now` for a given second count. */
  function IsoText(secs: int): string
  {
    CivilCounts(secs / 86400);
    MomentText(MomentOf(secs))
  }

  /** Lexicographic order of texts, as `String` comparison has it. */
  predicate TextBefore(a: string, b: string) {
    b != [] && (a == [] || a[0] < b[0] || (a[0] == b[0] && TextBefore(a[1..], b[1..])))
  }

  // ------------------------------------------------------------ fixed-width fields

  function Pow10(w: nat): nat {
    if w == 0 then 1 else 10 * Pow10(w - 1)
  }

  lemma {:induction false} PadWidth(n: nat, w: nat)
    requires w > 0 && n < Pow10(w)
    ensures |Pad(n, w)| == w
    decreases w
  {
    if w > 1 {
      PadWidth(n / 10, w - 1);
    }
  }

  lemma {:induction false} TextBeforeConcat(a: string, c: string, b: string, d: string)
    requires |a| == |b|
    ensures TextBefore(a + c, b + d) <==> TextBefore(a, b) || (a == b && TextBefore(c, d))
    ensures a + c == b + d <==> a == b && c == d
    decreases |a|
  {
    if a == [] {
      assert a + c == c && b + d == d;
    } else {
      assert (a + c)[0] == a[0] && (b + d)[0] == b[0];
      assert (a + c)[1..] == a[1..] + c && (b + d)[1..] == b[1..] + d;
      TextBeforeConcat(a[1..], c, b[1..], d);
      if a + c == b + d {
        assert (a + c)[..|a|] == a && (b + d)[..|b|] == b;
        assert (a + c)[|a|..] == c && (b + d)[|b|..] == d;
      }
    }
  }

  lemma {:induction false} PadOrder(n: nat, m: nat, w: nat)
    requires w > 0 && n < Pow10(w) && m < Pow10(w)
    ensures TextBefore(Pad(n, w), Pad(m, w)) <==> n < m
    ensures Pad(n, w) == Pad(m, w) <==> n == m
    decreases w
  {
    var c, d := DigitChar(n), DigitChar(m);
    DigitOrder(n, m);
    if w == 1 {
      assert Pad(n, w) == [c] && Pad(m, w) == [d];
    } else {
      PadWidth(n / 10, w - 1);
      PadWidth(m / 10, w - 1);
      PadOrder(n / 10, m / 10, w - 1);
      TextBeforeConcat(Pad(n / 10, w - 1), [c], Pad(m / 10, w - 1), [d]);
    }
  }

  lemma DigitOrder(n: nat, m: nat)
    ensures TextBefore([DigitChar(n)], [DigitChar(m)]) <==> n % 10 < m % 10
    ensures [DigitChar(n)] == [DigitChar(m)] <==> n % 10 == m % 10
  {
  }

  /** One field and its separator in front of two texts. */
  lemma FieldOrder(n: nat, m: nat, w: nat, sep: string, c: string, d: string)
    requires w > 0 && n < Pow10(w) && m < Pow10(w)
    ensures var a, b := Pad(n, w) + (sep + c), Pad(m, w) + (sep + d);
            && (TextBefore(a, b) <==> n < m || (n == m && TextBefore(c, d)))
            && (a == b <==> n == m && c == d)
  {
    PadWidth(n, w);
    PadWidth(m, w);
    PadOrder(n, m, w);
    TextBeforeConcat(Pad(n, w), sep + c, Pad(m, w), sep + d);
    SameBefore(sep);
    TextBeforeConcat(sep, c, sep, d);
  }

  lemma {:induction false} SameBefore(a: string)
    ensures !TextBefore(a, a)
  {
    if a != [] {
      SameBefore(a[1..]);
    }
  }

  // ----------------------------------------------------------- order and identity

  predicate ClockBefore(a: Clock, b: Clock) {
    || a.hour < b.hour
    || (a.hour == b.hour && (a.minute < b.minute || (a.minute == b.minute && a.second < b.second)))
  }

  predicate MomentBefore(a: Moment, b: Moment) {
    Before(a.date, b.date) || (a.date == b.date && ClockBefore(a.clock, b.clock))
  }

  predicate ClockInRange(c: Clock) {
    c.hour < 24 && c.minute < 60 && c.second < 60
  }

  predicate InRange(m: Moment) {
    0 <= m.date.year <= 9999 && ValidDate(m.date) && ClockInRange(m.clock)
  }

  function ClockText(c: Clock): string {
    Pad(c.hour, 2) + (":" + (Pad(c.minute, 2) + (":" + (Pad(c.second, 2) + " -0000"))))
  }

  function DateText(x: Date, rest: string): string
    requires x.year >= 0 && x.month >= 0 && x.day >= 0
  {
    Pad(x.year, 4) + ("-" + (Pad(x.month, 2) + ("-" + (Pad(x.day, 2) + (" " + rest)))))
  }

  lemma ClockOrder(a: Clock, b: Clock)
    requires ClockInRange(a) && ClockInRange(b)
    ensures TextBefore(ClockText(a), ClockText(b)) <==> ClockBefore(a, b)
    ensures ClockText(a) == ClockText(b) <==> a == b
  {
    var sa, sb := Pad(a.second, 2) + " -0000", Pad(b.second, 2) + " -0000";
    assert " -0000" + "" == " -0000";
    assert Pow10(2) == 100;
    FieldOrder(a.second, b.second, 2, " -0000", "", "");
    FieldOrder(a.minute, b.minute, 2, ":", sa, sb);
    FieldOrder(a.hour, b.hour, 2, ":", Pad(a.minute, 2) + (":" + sa), Pad(b.minute, 2) + (":" + sb));
  }

  lemma DateOrder(a: Date, c: string, b: Date, d: string)
    requires ValidDate(a) && ValidDate(b) && 0 <= a.year <= 9999 && 0 <= b.year <= 9999
    ensures TextBefore(DateText(a, c), DateText(b, d)) <==> Before(a, b) || (a == b && TextBefore(c, d))
    ensures DateText(a, c) == DateText(b, d) <==> a == b && c == d
  {
    var da, db := Pad(a.day, 2) + (" " + c), Pad(b.day, 2) + (" " + d);
    assert Pow10(2) == 100 && Pow10(4) == 10000;
    FieldOrder(a.day, b.day, 2, " ", c, d);
    FieldOrder(a.month, b.month, 2, "-", da, db);
    FieldOrder(a.year, b.year, 4, "-", Pad(a.month, 2) + ("-" + da), Pad(b.month, 2) + ("-" + db));
  }

  /** Dates by their day numbers, clocks by their seconds: together they order as seconds do. */
  lemma DayAndClockOrder(x: Date, s: nat, y: Date, t: nat)
    requires ValidDate(x) && ValidDate(y) && s < 86400 && t < 86400
    ensures var a, b := Moment(x, ClockOf(s)), Moment(y, ClockOf(t));
            && (MomentBefore(a, b) <==> DayNumber(x) < DayNumber(y) || (DayNumber(x) == DayNumber(y) && s < t))
            && (a == b <==> DayNumber(x) == DayNumber(y) && s == t)
  {
    ClockSeconds(s, t);
    DatesByNumber(x, y);
  }

  lemma DatesByNumber(x: Date, y: Date)
    requires ValidDate(x) && ValidDate(y)
    ensures (Before(x, y) <==> DayNumber(x) < DayNumber(y)) && (x == y <==> DayNumber(x) == DayNumber(y))
  {
    if Before(x, y) {
      DayNumberGrows(x, y);
    } else if Before(y, x) {
      DayNumberGrows(y, x);
    }
  }

  lemma SecondsOrder(a: int, b: int)
    ensures MomentBefore(MomentOf(a), MomentOf(b)) <==> a < b
    ensures MomentOf(a) == MomentOf(b) <==> a == b
  {
    CivilCounts(a / 86400);
    CivilCounts(b / 86400);
    DayAndClockOrder(Civil(a / 86400), a % 86400, Civil(b / 86400), b % 86400);
  }

  lemma ClockSeconds(a: nat, b: nat)
    requires a < 86400 && b < 86400
    ensures a < b <==> ClockBefore(ClockOf(a), ClockOf(b))
    ensures a == b <==> ClockOf(a) == ClockOf(b)
  {
    assert a == 3600 * (a / 3600) + 60 * (a % 3600 / 60) + a % 60;
    assert b == 3600 * (b / 3600) + 60 * (b % 3600 / 60) + b % 60;
  }

  lemma IsoParts(secs: int)
    requires 0 <= Civil(secs / 86400).year <= 9999
    ensures InRange(MomentOf(secs))
    ensures IsoText(secs) == DateText(MomentOf(secs).date, ClockText(MomentOf(secs).clock))
  {
    CivilCounts(secs / 86400);
  }

  lemma MomentTextOrder(a: Moment, b: Moment)
    requires InRange(a) && InRange(b)
    ensures var ta, tb := DateText(a.date, ClockText(a.clock)), DateText(b.date, ClockText(b.clock));
            (ta == tb <==> a == b) && (TextBefore(ta, tb) <==> MomentBefore(a, b))
  {
    ClockOrder(a.clock, b.clock);
    DateOrder(a.date, ClockText(a.clock), b.date, ClockText(b.clock));
  }

  /** In the years 0000 to 9999 the text determines the second, and texts sort as time does. */
  lemma StampOrder(a: int, b: int)
    requires 0 <= Civil(a / 86400).year <= 9999 && 0 <= Civil(b / 86400).year <= 9999
    ensures IsoText(a) == IsoText(b) <==> a == b
    ensures TextBefore(IsoText(a), IsoText(b)) <==> a < b
  {
    IsoParts(a);
    IsoParts(b);
    SecondsOrder(a, b);
    MomentTextOrder(MomentOf(a), MomentOf(b));
  }

  // ------------------------------------------------------------- reading the text

  lemma DigitReads(n: nat)
    ensures '0' <= DigitChar(n) <= '9' && DigitChar(n) as int - '0' as int == n % 10
  {
  }

  lemma {:induction false} PadReads(n: nat, w: nat)
    ensures Reads(Pad(n, w), n) && |Pad(n, w)| >= w
    decreases n + w
  {
    var c := DigitChar(n);
    DigitReads(n);
    if n < 10 && w <= 1 {
      AppendDigit("", c, n);
    } else {
      var w' := if w == 0 then 0 else w - 1;
      PadReads(n / 10, w');
      AppendDigit(Pad(n / 10, w'), c, n);
    }
  }

  /** Two digits. */
  lemma TwoDigits(n: nat)
    requires n < 100
    ensures |Pad(n, 2)| == 2 && Reads(Pad(n, 2), n)
  {
    assert Pow10(2) == 100;
    PadWidth(n, 2);
    PadReads(n, 2);
  }

  /** A time stamp with a year of `w` characters, its fields in their places. */
  predicate Stamp(t: string, w: nat, date: Date, clock: Clock) {
    && |t| == w + 21 && w > 0
    && t[w] == '-' && t[w + 3] == '-' && t[w + 6] == ' ' && t[w + 9] == ':' && t[w + 12] == ':'
    && t[w + 15..] == " -0000"
    && Reads(t[w + 1..w + 3], date.month) && Reads(t[w + 4..w + 6], date.day)
    && Reads(t[w + 7..w + 9], clock.hour) && Reads(t[w + 10..w + 12], clock.minute)
    && Reads(t[w + 13..w + 15], clock.second)
    && if date.year >= 0 then Reads(t[..w], date.year) else t[0] == '-' && Reads(t[1..w], -date.year)
  }

  lemma Slices(y: string, a: string, b: string, c: string, d: string, e: string)
    requires |a| == |b| == |c| == |d| == |e| == 2
    ensures var t, w := y + ("-" + (a + ("-" + (b + (" " + (c + (":" + (d + (":" + (e + " -0000")))))))))), |y|;
            && |t| == w + 21 && t[..w] == y && t[w + 1..w + 3] == a && t[w + 4..w + 6] == b
            && t[w + 7..w + 9] == c && t[w + 10..w + 12] == d && t[w + 13..w + 15] == e && t[w + 15..] == " -0000"
            && t[w] == '-' && t[w + 3] == '-' && t[w + 6] == ' ' && t[w + 9] == ':' && t[w + 12] == ':'
  {
  }

  /** The text of a moment has its parts in their places; years -999 to 9999 take four
      characters. */
  lemma TextStamp(m: Moment)
    requires ValidDate(m.date) && ClockInRange(m.clock)
    ensures var w := |PadYear(m.date.year)|;
            Stamp(MomentText(m), w, m.date, m.clock) && w >= 4 && (-999 <= m.date.year <= 9999 ==> w == 4)
  {
    TwoDigits(m.date.month);
    TwoDigits(m.date.day);
    TwoDigits(m.clock.hour);
    TwoDigits(m.clock.minute);
    TwoDigits(m.clock.second);
    YearReads(m.date.year);
    Slices(PadYear(m.date.year), Pad(m.date.month, 2), Pad(m.date.day, 2), Pad(m.clock.hour, 2),
           Pad(m.clock.minute, 2), Pad(m.clock.second, 2));
  }

  /** The seconds from the epoch to a moment. */
  function SecondsOf(m: Moment): int
    requires 1 <= m.date.month <= 12
  {
    86400 * DayNumber(m.date) + 3600 * m.clock.hour + 60 * m.clock.minute + m.clock.second
  }

  lemma MomentCounts(secs: int)
    ensures ValidDate(MomentOf(secs).date) && ClockInRange(MomentOf(secs).clock)
    ensures secs == SecondsOf(MomentOf(secs))
  {
    CivilCounts(secs / 86400);
    ClockCounts(secs % 86400);
  }

  /** A reader of the text gets the very second back, in every year: there is a moment, the one that
      many seconds after the epoch, whose fields stand in the text. */
  lemma StampReads(secs: int)
    ensures exists m: Moment, w: nat ::
      && Stamp(IsoText(secs), w, m.date, m.clock) && ValidDate(m.date) && ClockInRange(m.clock)
      && secs == SecondsOf(m) && w >= 4 && (-999 <= m.date.year <= 9999 ==> w == 4)
  {
    var m := MomentOf(secs);
    MomentCounts(secs);
    TextStamp(m);
    assert Stamp(IsoText(secs), |PadYear(m.date.year)|, m.date, m.clock);
  }

  lemma ClockCounts(s: nat)
    requires s < 86400
    ensures ClockInRange(ClockOf(s)) && s == 3600 * ClockOf(s).hour + 60 * ClockOf(s).minute + ClockOf(s).second
  {
  }

  lemma YearReads(y: int)
    ensures var t := PadYear(y);
            && |t| >= 4 && (-999 <= y <= 9999 ==> |t| == 4)
            && if y >= 0 then Reads(t, y) else t[0] == '-' && Reads(t[1..], -y)
  {
    assert Pow10(4) == 10000;
    if y >= 0 {
      PadReads(y, 4);
      if y <= 9999 {
        PadWidth(y, 4);
      }
    } else {
      PadReads(-y, 3);
      if y >= -999 {
        assert Pow10(3) == 1000;
        PadWidth(-y, 3);
      }
      assert PadYear(y)[1..] == Pad(-y, 3);
    }
  }

  lemma PadOnce(n: nat, w: nat)
    requires w > 1
    ensures Pad(n, w) == Pad(n / 10, w - 1) + [DigitChar(n)]
  {
  }

  lemma EpochYear()
    ensures PadYear(1970) == "1970"
  {
    PadOnce(1970, 4);
    PadOnce(197, 3);
    PadOnce(19, 2);
    assert Pad(1, 1) == "1" && DigitChar(19) == '9' && DigitChar(197) == '7' && DigitChar(1970) == '0';
  }

  /** The text of second 0. */
  lemma EpochText()
    ensures IsoText(0) == "1970-01-01 00:00:00 -0000"
  {
    EpochMoment();
    EpochParts(MomentOf(0));
  }

  lemma EpochMoment()
    ensures MomentOf(0) == Moment(Date(1970, 1, 1), Clock(0, 0, 0))
  {
    CivilEpoch();
  }

  lemma EpochParts(m: Moment)
    requires m == Moment(Date(1970, 1, 1), Clock(0, 0, 0))
    ensures MomentText(m) == "1970-01-01 00:00:00 -0000"
  {
    EpochYear();
    PadOnce(0, 2);
    PadOnce(1, 2);
    Assemble(PadYear(1970), Pad(1, 2), Pad(0, 2));
  }

  lemma Assemble(y: string, one: string, nil: string)
    requires y == "1970" && one == "01" && nil == "00"
    ensures y + ("-" + (one + ("-" + (one + (" " + (nil + (":" + (nil + (":" + (nil + " -0000"))))))))))
            == "1970-01-01 00:00:00 -0000"
  {
    assert nil + (":" + (nil + (":" + (nil + " -0000")))) == "00:00:00 -0000";
  }
}
