/** Durations and their rounding to whole minutes (libtcd/util.py). */
module Util {
  import opened Results

  const MICROS_PER_SECOND: int := 1_000_000
  const SECONDS_PER_DAY: int := 86_400
  const MICROS_PER_MINUTE: int := 60_000_000
  const MICROS_PER_HALF_MINUTE: int := 30_000_000

  datatype Delta = Delta(days: int, seconds: int, microseconds: int)

  /** Python's `datetime.timedelta`: three integers kept normalised so that
      only `days` may be negative. (The bound of 999999999 days Python puts
      on `days` is not modelled.) */
  type TimeDelta = d: Delta | 0 <= d.seconds < SECONDS_PER_DAY && 0 <= d.microseconds < MICROS_PER_SECOND
    witness Delta(0, 0, 0)

  /** The duration as a signed number of microseconds. */
  function Micros(td: Delta): int {
    (td.days * SECONDS_PER_DAY + td.seconds) * MICROS_PER_SECOND + td.microseconds
  }

  /** The normalised duration of `us` microseconds, as `timedelta(microseconds=us)`. */
  function FromMicros(us: int): (td: TimeDelta)
    ensures Micros(td) == us
  {
    var secs := us / MICROS_PER_SECOND;
    Delta(secs / SECONDS_PER_DAY, secs % SECONDS_PER_DAY, us % MICROS_PER_SECOND)
  }

  /** A duration is determined by its length: normalisation is unique. */
  lemma FromMicrosOfMicros(td: TimeDelta)
    ensures FromMicros(Micros(td)) == td
  {
    var us := Micros(td);
    var secs := td.days * SECONDS_PER_DAY + td.seconds;
    assert us == secs * MICROS_PER_SECOND + td.microseconds;
    assert us / MICROS_PER_SECOND == secs;
    assert us % MICROS_PER_SECOND == td.microseconds;
    assert secs / SECONDS_PER_DAY == td.days;
    assert secs % SECONDS_PER_DAY == td.seconds;
  }

  /** `-td` */
  function Negate(td: TimeDelta): (r: TimeDelta)
    ensures Micros(r) == -Micros(td)
  {
    FromMicros(-Micros(td))
  }

  /** `us` microseconds lie within half a minute of `m` minutes, an exact
      half minute being rounded down (towards minus infinity). */
  ghost predicate NearestMinute(us: int, m: int) {
    MICROS_PER_MINUTE * m - MICROS_PER_HALF_MINUTE < us <= MICROS_PER_MINUTE * m + MICROS_PER_HALF_MINUTE
  }

  /** A length has exactly one nearest minute in that sense. */
  lemma NearestMinuteUnique(us: int, m1: int, m2: int)
    requires NearestMinute(us, m1) && NearestMinute(us, m2)
    ensures m1 == m2
  {
  }

  /** The whole seconds split into minutes and the microseconds left over,
      which are the duration's remainder modulo a minute. */
  lemma MinuteSplit(td: TimeDelta)
    ensures var total := td.days * SECONDS_PER_DAY + td.seconds;
      var rem := (total % 60) * MICROS_PER_SECOND + td.microseconds;
      && Micros(td) == MICROS_PER_MINUTE * (total / 60) + rem
      && 0 <= rem < MICROS_PER_MINUTE
      && Micros(td) % MICROS_PER_MINUTE == rem
  {
    var total := td.days * SECONDS_PER_DAY + td.seconds;
    var q, sec := total / 60, total % 60;
    var rem := sec * MICROS_PER_SECOND + td.microseconds;
    assert total == 60 * q + sec;
    assert Micros(td) == total * MICROS_PER_SECOND + td.microseconds;
    assert Micros(td) == MICROS_PER_MINUTE * q + rem;
    var q2, r2 := Micros(td) / MICROS_PER_MINUTE, Micros(td) % MICROS_PER_MINUTE;
    assert MICROS_PER_MINUTE * (q - q2) == r2 - rem;
  }

  /** `timedelta_total_minutes(td, strict)`: floor-divide the whole seconds
      by 60 and add one when the remainder is more than 30 s, or exactly
      30 s with microseconds to spare; in strict mode any remainder is a
      ValueError instead. */
  function TotalMinutes(td: TimeDelta, strict: bool): (r: Result<int>)
    ensures r.Err? <==> strict && Micros(td) % MICROS_PER_MINUTE != 0
    ensures r.Err? ==> r.error == ValueError
    ensures r.Ok? ==> NearestMinute(Micros(td), r.value)
  {
    var total := td.days * SECONDS_PER_DAY + td.seconds;
    var minutes := total / 60;
    var seconds := total % 60;
    var rem := seconds * MICROS_PER_SECOND + td.microseconds;
    MinuteSplit(td);
    if seconds != 0 || td.microseconds != 0 then
      if strict then Err(ValueError)
      else if seconds > 30 || (seconds == 30 && td.microseconds > 0) then Ok(minutes + 1)
      else Ok(minutes)
    else
      Ok(minutes)
  }

  /** The rounding never fails outside strict mode. */
  function Minutes(td: TimeDelta): (m: int)
    ensures TotalMinutes(td, false) == Ok(m)
    ensures NearestMinute(Micros(td), m)
  {
    TotalMinutes(td, false).value
  }

  lemma WholeMinutesDivide(m: int)
    ensures (m * MICROS_PER_MINUTE) % MICROS_PER_MINUTE == 0
  {
    var q, r := (m * 60_000_000) / 60_000_000, (m * 60_000_000) % 60_000_000;
    assert 60_000_000 * (m - q) == r;
  }

  /** A whole number of minutes comes back exactly, in either mode. */
  lemma WholeMinutesExact(m: int, strict: bool)
    ensures TotalMinutes(FromMicros(m * MICROS_PER_MINUTE), strict) == Ok(m)
  {
    var us := m * MICROS_PER_MINUTE;
    WholeMinutesDivide(m);
    var td := FromMicros(us);
    var r := TotalMinutes(td, strict);
    assert r.Ok?;
    assert NearestMinute(us, m);
    NearestMinuteUnique(us, r.value, m);
  }

  /** The vectors of libtcd/tests/test_util.py, in microseconds:
      0 s, 1 h, +-29.99 s, +-30.01 s and -2 h. */
  lemma TotalMinutesVectors()
    ensures TotalMinutes(FromMicros(0), false) == Ok(0)
    ensures TotalMinutes(FromMicros(3_600_000_000), false) == Ok(60)
    ensures TotalMinutes(FromMicros(29_990_000), false) == Ok(0)
    ensures TotalMinutes(FromMicros(30_010_000), false) == Ok(1)
    ensures TotalMinutes(FromMicros(-29_990_000), false) == Ok(0)
    ensures TotalMinutes(FromMicros(-30_010_000), false) == Ok(-1)
    ensures TotalMinutes(FromMicros(-7_200_000_000), false) == Ok(-120)
  {
  }

  /** An exact half minute rounds down on both sides of zero. */
  lemma HalfMinuteRoundsDown()
    ensures TotalMinutes(FromMicros(30_000_000), false) == Ok(0)
    ensures TotalMinutes(FromMicros(-30_000_000), false) == Ok(-1)
  {
  }
}
