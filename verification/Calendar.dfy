/** Dates as numbers of days and seconds. */
module Calendar {
  import opened Words

  const MAC_EPOCH_OFFSET: int := 2082844800

  /** Division as in C, towards zero. */
  function CDiv(a: int, b: int): int
    requires b > 0
  {
    if a >= 0 then a / b else -((-a) / b)
  }

  predicate Leap(y: int) {
    y % 4 == 0 && (y % 100 != 0 || y % 400 == 0)
  }

  function DaysIn(y: int, m: int): int
    requires 1 <= m <= 12
  {
    if m == 2 then (if Leap(y) then 29 else 28)
    else if m == 4 || m == 6 || m == 9 || m == 11 then 30
    else 31
  }

  datatype Date = Date(y: int, m: int, d: int)

  predicate ValidDate(t: Date) {
    1 <= t.m <= 12 && 1 <= t.d <= DaysIn(t.y, t.m)
  }

  /** The next day of the Gregorian calendar. */
  function NextDay(t: Date): (n: Date)
    requires ValidDate(t)
    ensures ValidDate(n)
  {
    if t.d < DaysIn(t.y, t.m) then Date(t.y, t.m, t.d + 1)
    else if t.m < 12 then Date(t.y, t.m + 1, 1)
    else Date(t.y + 1, 1, 1)
  }

  /** The day number DateTime_Current computes. */
  function DayNumber(t: Date): int
    requires ValidDate(t)
  {
    var adjY := t.y - if t.m <= 2 then 1 else 0;
    var era := CDiv(if adjY >= 0 then adjY else adjY - 399, 400);
    var yoe := adjY - era * 400;
    var doy := (153 * (t.m + if t.m > 2 then -3 else 9) + 2) / 5 + t.d - 1;
    var doe := yoe * 365 + yoe / 4 - yoe / 100 + doy;
    era * 146097 + doe - 719468
  }

  /** The days before 1 March of year `a`, counted from 1 March of year 0. */
  function YearStart(a: int): int {
    365 * a + a / 4 - a / 100 + a / 400
  }

  lemma EraYears(a: int)
    ensures var era := CDiv(if a >= 0 then a else a - 399, 400);
            var yoe := a - era * 400;
            0 <= yoe < 400 && era * 146097 + yoe * 365 + yoe / 4 - yoe / 100 == YearStart(a)
  {
    var era := CDiv(if a >= 0 then a else a - 399, 400);
    var yoe := a - era * 400;
    assert a / 4 == 100 * era + yoe / 4;
    assert a / 100 == 4 * era + yoe / 100;
    assert a / 400 == era;
  }

  lemma YearLength(a: int)
    ensures YearStart(a + 1) - YearStart(a) == if Leap(a + 1) then 366 else 365
  {
    NextQuotient(a, 4);
    NextQuotient(a, 100);
    assert (a + 1) % 400 == 0 ==> (a + 1) % 100 == 0;
    NextQuotient(a, 400);
    assert (a + 1) % 100 == 0 ==> (a + 1) % 4 == 0;
  }

  /** A quotient goes up when the dividend reaches a multiple. */
  lemma NextQuotient(a: int, k: int)
    requires k == 4 || k == 100 || k == 400
    ensures (a + 1) / k == a / k + if (a + 1) % k == 0 then 1 else 0
  {
  }

  lemma DayNumberIs(t: Date)
    requires ValidDate(t)
    ensures var a := if t.m <= 2 then t.y - 1 else t.y;
            DayNumber(t) == YearStart(a) + (153 * (t.m + if t.m > 2 then -3 else 9) + 2) / 5 + t.d - 1 - 719468
  {
    EraYears(if t.m <= 2 then t.y - 1 else t.y);
  }

  /** 1 January 1970 is day 0, and every day is followed by the day with the next number. */
  lemma DayNumbersAreExact(t: Date)
    ensures DayNumber(Date(1970, 1, 1)) == 0
    ensures ValidDate(t) ==> DayNumber(NextDay(t)) == DayNumber(t) + 1
  {
    hide YearStart, DayNumber;
    DayNumberIs(Date(1970, 1, 1));
    EpochYear();
    if ValidDate(t) {
      DayNumberIs(t);
      DayNumberIs(NextDay(t));
      YearLength(t.y - 1);
    }
  }

  lemma EpochYear()
    ensures YearStart(1969) == 719468 - 306
  {
  }

  // ---- Seconds; time_t is a 32-bit long ------------------------------------------------------------

  function FromUnix(t: int): (mac: nat)
    ensures mac < TWO_32
  {
    U32(t + MAC_EPOCH_OFFSET)
  }

  function ToUnix(mac: nat): int {
    if mac < MAC_EPOCH_OFFSET then 0 else S32(mac - MAC_EPOCH_OFFSET)
  }

  /** A date and a time of day, as the clock gives them. */
  datatype Moment = Moment(date: Date, hour: nat, minute: nat, second: nat)

  predicate ValidMoment(t: Moment) {
    ValidDate(t.date) && t.hour < 24 && t.minute < 60 && t.second < 60
  }

  /** DateTime_Current, for what the clock gives. */
  function Current(t: Moment): nat
    requires ValidDate(t.date)
  {
    var unixTime := DayNumber(t.date) * 86400 + t.hour * 3600 + t.minute * 60 + t.second;
    FromUnix(S32(if unixTime < 0 then 0 else unixTime))
  }

  /** Unix time survives the way to Mac time and back exactly if it is no time between 1904 and 1970. */
  lemma UnixRoundTrip(t: int)
    requires -0x8000_0000 <= t < 0x8000_0000
    ensures ToUnix(FromUnix(t)) == t <==> t >= 0 || t < -MAC_EPOCH_OFFSET
  {
  }

  /** Mac time survives the way to Unix time and back exactly from 1970 on. */
  lemma MacRoundTrip(mac: nat)
    requires mac < TWO_32
    ensures FromUnix(ToUnix(mac)) == mac <==> mac >= MAC_EPOCH_OFFSET
  {
  }

  /** Mac time begins with 1904: the offset is the seconds from 1 January 1904 to 1 January 1970. */
  lemma EpochIs()
    ensures MAC_EPOCH_OFFSET == -86400 * DayNumber(Date(1904, 1, 1))
  {
    hide DayNumber, YearStart;
    DayNumberIs(Date(1904, 1, 1));
    EarlyYear();
  }

  lemma EarlyYear()
    ensures YearStart(1903) == 719468 - 306 - 24107
  {
  }

  /**
   * The Mac time of every moment from 1970 on is the number of seconds since 1904, in 32 bits; before it stands
   * still.
   */
  lemma CurrentIs(t: Moment)
    requires ValidMoment(t)
    ensures var days := DayNumber(t.date) - DayNumber(Date(1904, 1, 1));
            Current(t) == if DayNumber(t.date) < 0 then MAC_EPOCH_OFFSET
                          else U32(86400 * days + 3600 * t.hour + 60 * t.minute + t.second)
  {
    hide DayNumber, S32, U32;
    EpochIs();
    var unixTime := DayNumber(t.date) * 86400 + t.hour * 3600 + t.minute * 60 + t.second;
    var shown := if unixTime < 0 then 0 else unixTime;
    var turns := S32Turns(shown);
    Turns32(shown + MAC_EPOCH_OFFSET, turns);
    U32Same(MAC_EPOCH_OFFSET);
  }

  /** One second later. */
  function NextSecond(t: Moment): (n: Moment)
    requires ValidMoment(t)
    ensures ValidMoment(n)
  {
    if t.second < 59 then t.(second := t.second + 1)
    else if t.minute < 59 then t.(minute := t.minute + 1, second := 0)
    else if t.hour < 23 then Moment(t.date, t.hour + 1, 0, 0)
    else Moment(NextDay(t.date), 0, 0, 0)
  }

  /** From 1970 on one second later is one more second of Mac time, midnights and ends of years included. */
  lemma NextSecondCounts(t: Moment)
    requires ValidMoment(t) && 0 <= DayNumber(t.date)
    ensures Current(NextSecond(t)) == U32(Current(t) + 1)
  {
    hide DayNumber, Current, U32;
    CurrentIs(t);
    CurrentIs(NextSecond(t));
    DayNumbersAreExact(t.date);
    var days := DayNumber(t.date) - DayNumber(Date(1904, 1, 1));
    U32Plus(86400 * days + 3600 * t.hour + 60 * t.minute + t.second);
  }

  lemma U32Plus(x: int)
    ensures U32(U32(x) + 1) == U32(x + 1)
  {
    hide U32;
    var turns := U32Turns(x);
    Turns32(x + 1, turns);
  }

  /** From 1970 on one day later is 86400 seconds more, in 32 bits. */
  lemma NextDaySameTime(t: Moment)
    requires ValidMoment(t) && 0 <= DayNumber(t.date)
    ensures Current(t.(date := NextDay(t.date))) == U32(Current(t) + 86400)
  {
    hide DayNumber, Current, U32;
    var next := t.(date := NextDay(t.date));
    CurrentIs(t);
    CurrentIs(next);
    DayNumbersAreExact(t.date);
    var x := 86400 * (DayNumber(t.date) - DayNumber(Date(1904, 1, 1))) + 3600 * t.hour + 60 * t.minute + t.second;
    var turns := U32Turns(x);
    Turns32(x + 86400, turns);
  }
}
