/** The integer encodings of dates, time offsets and directions
    (`_date`, `_time_offset` and `_direction` in libtcd/api.py). */
module Scalars {
  import opened Results
  import opened Util
  import opened Values

  // ---------------------------------------------------------------- dates

  /** `date.year * 10000 + date.month * 100 + date.day` */
  function PackDate(d: CalendarDate): (p: int)
    ensures 10101 <= p <= 99991231
    ensures p / 10000 == d.year && (p % 10000) / 100 == d.month && p % 100 == d.day
  {
    var mmdd := d.month * 100 + d.day;
    DivMod(mmdd, d.month, d.day, 100);
    DivMod(d.year * 10000 + mmdd, d.year, mmdd, 10000);
    DivMod(d.year * 10000 + mmdd, d.year * 100 + d.month, d.day, 100);
    d.year * 10000 + mmdd
  }

  /** Floor division and remainder are determined by the quotient and a
      remainder in range. */
  lemma DivMod(a: int, q: int, r: int, k: int)
    requires k > 0 && 0 <= r < k && a == q * k + r
    ensures a / k == q && a % k == r
  {
    var q', r' := a / k, a % k;
    assert a == q' * k + r' && 0 <= r' < k;
    var d := q' - q;
    assert d * k == r - r';
    ProductBounds(d, k);
  }

  lemma ProductBounds(d: int, k: int)
    requires k > 0
    ensures d >= 1 ==> d * k >= k
    ensures d <= -1 ==> d * k <= -k
  {
    if d >= 1 {
      assert d * k == (d - 1) * k + k;
    } else if d <= -1 {
      assert d * k == (d + 1) * k - k;
    }
  }

  /** `divmod` by 10000 and then by 100, and the date of those three parts
      if `datetime.date` accepts them, a ValueError if not. A successful
      unpacking packs back to the same integer. */
  function UnpackDate(p: int): (r: Result<CalendarDate>)
    ensures r.Ok? <==> ValidDate(Ymd(p / 10000, (p % 10000) / 100, p % 100))
    ensures r.Err? ==> r.error == ValueError
    ensures r.Ok? ==> PackDate(r.value) == p
  {
    var yyyy, mmdd := p / 10000, p % 10000;
    var mm, dd := mmdd / 100, mmdd % 100;
    var d := Ymd(yyyy, mm, dd);
    if ValidDate(d) then Ok(d) else Err(ValueError)
  }

  /** Every date survives the round trip. */
  lemma DateRoundTrip(d: CalendarDate)
    ensures UnpackDate(PackDate(d)) == Ok(d)
  {
  }

  /** Zero, the absent-date value of the date columns, is no date. */
  lemma ZeroIsNoDate()
    ensures UnpackDate(0).Err?
  {
  }

  /** 2001-02-03 is 20010203. */
  lemma DateVector()
    ensures PackDate(Ymd(2001, 2, 3)) == 20010203
    ensures UnpackDate(20010203) == Ok(Ymd(2001, 2, 3))
  {
  }

  // --------------------------------------------------------- time offsets

  function Abs(x: int): nat {
    if x < 0 then -x else x
  }

  /** The number of minutes `±HHMM` stands for, if its minutes are below 60. */
  function HhmmMinutes(p: int): int {
    (if p >= 0 then 1 else -1) * (Abs(p) / 100 * 60 + Abs(p) % 100)
  }

  /** `_time_offset.unpack_value`: the sign of `p`, and hours and minutes
      from `divmod(abs(p), 100)`; minutes of 60 or more fail the source's
      assertion. */
  function UnpackOffset(p: int): (r: Result<TimeDelta>)
    ensures r.Ok? <==> Abs(p) % 100 < 60
    ensures r.Err? ==> r.error == AssertionError
    ensures r.Ok? ==> Micros(r.value) == HhmmMinutes(p) * MICROS_PER_MINUTE
  {
    var sign := if p >= 0 then 1 else -1;
    var hours, minutes := Abs(p) / 100, Abs(p) % 100;
    if !(0 <= minutes < 60) then Err(AssertionError)
    else Ok(FromMicros(sign * (hours * 3600 + minutes * 60) * MICROS_PER_SECOND))
  }

  /** `_time_offset.pack_value` of a duration: the duration rounded to the
      nearest minute, written as `sign * (100 * hh + mm)`. The result is a
      well-formed `±HHMM` for exactly that number of minutes. */
  function PackOffset(td: TimeDelta): (p: int)
    ensures Abs(p) % 100 < 60
    ensures HhmmMinutes(p) == Minutes(td)
  {
    var minutes := Minutes(td);
    var sign := if minutes > 0 then 1 else -1;
    var hh, mm := Abs(minutes) / 60, Abs(minutes) % 60;
    HhmmOfMinutes(minutes);
    sign * (100 * hh + mm)
  }

  /** Writing `m` minutes as `sign * (100 * hh + mm)` gives a well-formed
      `±HHMM` value that reads back as `m`. */
  lemma HhmmOfMinutes(m: int)
    ensures var p := (if m > 0 then 1 else -1) * (100 * (Abs(m) / 60) + Abs(m) % 60);
      Abs(p) % 100 < 60 && HhmmMinutes(p) == m
  {
    var a: int := Abs(m);
    var hh, mm := a / 60, a % 60;
    var p: int := (if m > 0 then 1 else -1) * (100 * hh + mm);
    assert a == 60 * hh + mm && 0 <= mm < 60 && hh >= 0;
    assert Abs(p) == 100 * hh + mm;
    assert (100 * hh + mm) / 100 == hh && (100 * hh + mm) % 100 == mm;
    assert (p >= 0) == (m >= 0);
  }

  /** An offset comes back rounded to the nearest whole minute. */
  lemma OffsetRoundTrip(td: TimeDelta)
    ensures UnpackOffset(PackOffset(td)) == Ok(FromMicros(Minutes(td) * MICROS_PER_MINUTE))
  {
    var r := UnpackOffset(PackOffset(td));
    FromMicrosOfMicros(r.value);
  }

  /** A whole number of minutes comes back exactly. */
  lemma WholeOffsetRoundTrip(td: TimeDelta)
    requires Micros(td) % MICROS_PER_MINUTE == 0
    ensures UnpackOffset(PackOffset(td)) == Ok(td)
  {
    OffsetRoundTrip(td);
    var m := Micros(td) / MICROS_PER_MINUTE;
    assert Micros(td) == m * MICROS_PER_MINUTE;
    FromMicrosOfMicros(td);
    WholeMinutesExact(m, false);
    assert FromMicros(m * MICROS_PER_MINUTE) == td;
  }

  /** Every well-formed packed offset packs back to itself. */
  lemma PackedOffsetRoundTrip(p: int)
    requires UnpackOffset(p).Ok?
    ensures PackOffset(UnpackOffset(p).value) == p
  {
    var td := UnpackOffset(p).value;
    var m := HhmmMinutes(p);
    assert Micros(td) == m * MICROS_PER_MINUTE;
    assert FromMicros(m * MICROS_PER_MINUTE) == td by { FromMicrosOfMicros(td); }
    WholeMinutesExact(m, false);
    assert Minutes(td) == m;
    var q := PackOffset(td);
    assert HhmmMinutes(q) == m;
    HhmmInjective(p, q);
  }

  /** Two well-formed `±HHMM` values for the same number of minutes are
      equal. */
  lemma HhmmInjective(p: int, q: int)
    requires Abs(p) % 100 < 60 && Abs(q) % 100 < 60
    requires HhmmMinutes(p) == HhmmMinutes(q)
    ensures p == q
  {
    var a, b := Abs(p), Abs(q);
    assert (p >= 0) == (q >= 0);
    assert a / 100 * 60 + a % 100 == b / 100 * 60 + b % 100;
    assert a / 100 == b / 100;
    assert a == 100 * (a / 100) + a % 100 && b == 100 * (b / 100) + b % 100;
  }

  /** No packed offset equals the absent-slack marker 0xA00, whose last
      two digits read as 60 minutes. */
  lemma PackOffsetNeverNull(td: TimeDelta)
    ensures PackOffset(td) != 0xA00
  {
  }

  /** -9h30m is -930; 60 fails the assertion. */
  lemma OffsetVectors()
    ensures PackOffset(FromMicros(-(9 * 60 + 30) * MICROS_PER_MINUTE)) == -930
    ensures UnpackOffset(-930) == Ok(FromMicros(-(9 * 60 + 30) * MICROS_PER_MINUTE))
    ensures UnpackOffset(60) == Err(AssertionError)
  {
    WholeMinutesExact(-(9 * 60 + 30), false);
  }

  // ------------------------------------------------------------ directions

  /** `_direction.unpack_value`: a direction outside `[0, 360)` is read as
      absent rather than rejected. */
  predicate IsDirection(d: int) {
    0 <= d < 360
  }

  function UnpackDirection(p: int): (r: Value)
    ensures r.Int? <==> IsDirection(p)
    ensures r.Int? ==> r.i == p
    ensures !r.Int? ==> r == None
  {
    if !IsDirection(p) then None else Int(p)
  }

  /** `_direction.pack_value` of an integer: a direction outside `[0, 360)`
      is a ValueError. */
  function PackDirection(d: int): (r: Result<int>)
    ensures r.Ok? <==> IsDirection(d)
    ensures r.Ok? ==> r.value == d
    ensures r.Err? ==> r.error == ValueError
  {
    if !IsDirection(d) then Err(ValueError) else Ok(d)
  }

  /** Lenient one way, strict the other: what packs, unpacks to itself, and
      every packed value that unpacks to a direction packs back to itself. */
  lemma DirectionRoundTrip(d: int)
    ensures PackDirection(d).Ok? ==> UnpackDirection(PackDirection(d).value) == Int(d)
    ensures UnpackDirection(d).Int? ==> PackDirection(UnpackDirection(d).i) == Ok(d)
  {
  }

  /** 361 unpacks to None and refuses to pack. */
  lemma DirectionVectors()
    ensures UnpackDirection(361) == None && PackDirection(361) == Err(ValueError)
    ensures UnpackDirection(42) == Int(42) && PackDirection(42) == Ok(42)
  {
  }
}
