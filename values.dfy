/** The Python values the codec passes around: attribute values of station
    objects, and the values it hands to and reads from the packed record. */
module Values {
  import opened Util
  import opened Constituents

  datatype Ymd = Ymd(year: int, month: int, day: int)

  predicate IsLeapYear(y: int) {
    y % 4 == 0 && (y % 100 != 0 || y % 400 == 0)
  }

  function DaysInMonth(y: int, m: int): int {
    if m == 2 then (if IsLeapYear(y) then 29 else 28)
    else if m == 4 || m == 6 || m == 9 || m == 11 then 30
    else 31
  }

  /** The dates `datetime.date` accepts: proleptic Gregorian, years 1 to 9999. */
  predicate ValidDate(d: Ymd) {
    1 <= d.year <= 9999 && 1 <= d.month <= 12 && 1 <= d.day <= DaysInMonth(d.year, d.month)
  }

  type CalendarDate = d: Ymd | ValidDate(d) witness Ymd(1, 1, 1)

  /** `Coefficient(amplitude, epoch, constituent)` */
  datatype Coefficient = Coefficient(amplitude: real, epoch: real, constituent: Constituent)

  /** Which station class an object is. */
  datatype Kind = Reference | Subordinate

  /** A Python value as the codec sees it. Floating point numbers are
      `Float`s over the reals; byte strings and text strings are both
      `Text`; an `OrderedDict` of extra fields is `Fields`, a list of
      pairs with distinct keys in insertion order; `Floats` is a ctypes
      `c_float` array. */
  datatype Value =
    | None
    | Int(i: int)
    | Float(r: real)
    | Text(s: string)
    | Date(date: CalendarDate)
    | Offset(delta: TimeDelta)
    | Fields(entries: seq<(string, string)>)
    | Coefficients(coefficients: seq<Coefficient>)
    | Floats(floats: seq<real>)
    | StationValue(station: Station)

  /** A `ReferenceStation` or `SubordinateStation` object: its class and
      its instance attributes by name. */
  datatype Station = Station(kind: Kind, attrs: map<string, Value>)
}
