/** How a `timeoffset` prints: `0:00` for zero, otherwise a sign, two or
    more hour digits, a colon and two minute digits (`timeoffset.__str__`
    in libtcd/api.py). */
module OffsetText {
  import opened Util

  function DigitChar(d: nat): char
    requires d < 10
  {
    "0123456789"[d]
  }

  predicate IsDigit(c: char) {
    '0' <= c <= '9'
  }

  function DigitValue(c: char): nat
    requires IsDigit(c)
  {
    (c as int - '0' as int) as nat
  }

  /** `"%d" % n` for a non-negative `n`. */
  function Decimal(n: nat): (s: string)
    ensures |s| >= 1 && forall i :: 0 <= i < |s| ==> IsDigit(s[i])
    decreases n
  {
    if n < 10 then [DigitChar(n)] else Decimal(n / 10) + [DigitChar(n % 10)]
  }

  /** `"%02d" % n`: at least two digits, zero padded. */
  function TwoDigits(n: nat): (s: string)
    ensures |s| >= 2 && forall i :: 0 <= i < |s| ==> IsDigit(s[i])
  {
    if n < 10 then "0" + Decimal(n) else Decimal(n)
  }

  lemma TwoDigitsOfSmall(n: nat)
    requires n < 100
    ensures |TwoDigits(n)| == 2
  {
    if n >= 10 {
      assert Decimal(n) == Decimal(n / 10) + [DigitChar(n % 10)];
      assert |Decimal(n / 10)| == 1;
    }
  }

  /** The number a string of digits denotes. */
  function ReadDecimal(s: string): nat
    requires forall i :: 0 <= i < |s| ==> IsDigit(s[i])
  {
    if s == [] then 0 else ReadDecimal(s[..|s| - 1]) * 10 + DigitValue(s[|s| - 1])
  }

  lemma {:induction false} ReadDecimalOfDecimal(n: nat)
    ensures ReadDecimal(Decimal(n)) == n
    decreases n
  {
    var s := Decimal(n);
    if n >= 10 {
      ReadDecimalOfDecimal(n / 10);
      assert s[..|s| - 1] == Decimal(n / 10);
    }
  }

  lemma ReadDecimalOfTwoDigits(n: nat)
    ensures ReadDecimal(TwoDigits(n)) == n
  {
    ReadDecimalOfDecimal(n);
    if n < 10 {
      var s := TwoDigits(n);
      assert s[..|s| - 1] == "0";
      assert ReadDecimal("0") == 0 by { assert "0"[..0] == ""; }
    }
  }

  /** `str(offset)`: the offset rounded to the nearest minute, then `0:00`
      or `[+-]HH:MM`. */
  function Format(td: TimeDelta): string {
    FormatMinutes(Minutes(td))
  }

  function FormatMinutes(minutes: int): string {
    if minutes == 0 then "0:00"
    else
      var a := if minutes < 0 then -minutes else minutes;
      Signed(if minutes < 0 then '-' else '+', a / 60, a % 60)
  }

  /** `"%s%02d:%02d" % (sign, hh, mm)` */
  function Signed(sign: char, hh: nat, mm: nat): string {
    [sign] + TwoDigits(hh) + ":" + TwoDigits(mm)
  }

  /** Reads a printed offset back as a number of minutes. */
  function Read(s: string): (m: int)
  {
    if s == "0:00" then 0
    else if |s| >= 6 && (s[0] == '+' || s[0] == '-') && s[|s| - 3] == ':'
      && (forall i :: 1 <= i < |s| - 3 ==> IsDigit(s[i]))
      && IsDigit(s[|s| - 2]) && IsDigit(s[|s| - 1])
    then
      var hours := ReadDecimal(s[1..|s| - 3]);
      var mins := ReadDecimal(s[|s| - 2..]);
      (if s[0] == '-' then -1 else 1) * (hours * 60 + mins)
    else 0
  }

  /** A signed `HH:MM` reads back as its number of minutes. */
  lemma ReadSigned(sign: char, h: nat, m: nat)
    requires sign == '+' || sign == '-'
    requires m < 60
    ensures Read(Signed(sign, h, m)) == (if sign == '-' then -1 else 1) * (h * 60 + m)
  {
    var hh, mm := TwoDigits(h), TwoDigits(m);
    var s := [sign] + hh + ":" + mm;
    TwoDigitsOfSmall(m);
    assert s != "0:00" by { assert |s| >= 6; }
    assert s[0] == sign && s[|s| - 3] == ':';
    assert s[1..|s| - 3] == hh;
    assert s[|s| - 2..] == mm;
    assert s[|s| - 2] == mm[0] && s[|s| - 1] == mm[1];
    forall i | 1 <= i < |s| - 3 ensures IsDigit(s[i]) { assert s[i] == hh[i - 1]; }
    ReadDecimalOfTwoDigits(h);
    ReadDecimalOfTwoDigits(m);
  }

  /** The printed form determines the rounded offset: reading it back gives
      `timedelta_total_minutes` of the offset. */
  lemma ReadFormat(td: TimeDelta)
    ensures Read(Format(td)) == Minutes(td)
  {
    ReadFormatMinutes(Minutes(td));
  }

  lemma ReadFormatMinutes(minutes: int)
    ensures Read(FormatMinutes(minutes)) == minutes
  {
    if minutes != 0 {
      var a := if minutes < 0 then -minutes else minutes;
      ReadSigned(if minutes < 0 then '-' else '+', a / 60, a % 60);
    }
  }

  /** The vectors of the `timeoffset` tests, in microseconds: 0 s, 3600 s,
      7229.9 s, 7230.1 s and -3629 s. */
  lemma FormatVectors()
    ensures Format(FromMicros(0)) == "0:00"
    ensures Format(FromMicros(3_600_000_000)) == "+01:00"
    ensures Format(FromMicros(7_229_900_000)) == "+02:00"
    ensures Format(FromMicros(7_230_100_000)) == "+02:01"
    ensures Format(FromMicros(-3_629_000_000)) == "-01:00"
  {
    assert Minutes(FromMicros(0)) == 0;
    assert Minutes(FromMicros(3_600_000_000)) == 60;
    assert Minutes(FromMicros(7_229_900_000)) == 120;
    assert Minutes(FromMicros(7_230_100_000)) == 121;
    assert Minutes(FromMicros(-3_629_000_000)) == -60;
    assert TwoDigits(1) == "01" && TwoDigits(2) == "02" && TwoDigits(0) == "00";
  }
}
