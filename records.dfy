/** The packed tide record: the columns of `TIDE_RECORD` and the way a
    ctypes structure stores and reads back the Python values it is given
    (libtcd/_libtcd.py). */
module Records {
  import opened Results
  import opened Values

  const ONELINER_LENGTH: nat := 90
  const MONOLOGUE_LENGTH: nat := 10000
  const MAX_CONSTITUENTS: nat := 255

  /** `enum TIDE_RECORD_TYPE` */
  const REFERENCE_STATION: int := 1
  const SUBORDINATE_STATION: int := 2

  /** The packed value of an absent slack offset. */
  const NULLSLACKOFFSET: int := 0xA00

  /** The columns of a tide record: those of the station header followed
      by those of the record proper, in declaration order. */
  datatype Field =
    | RecordNumber | RecordSize | RecordType | Latitude | Longitude
    | ReferenceStation | Tzfile | Name
    | Country | Source | Restriction | Comments | Notes | Legalese
    | StationIdContext | StationId | DateImported | Xfields
    | DirectionUnits | MinDirection | MaxDirection | LevelUnits
    | DatumOffset | Datum | ZoneOffset | ExpirationDate | MonthsOnStation
    | LastDateOnStation | Confidence | Amplitude | Epoch
    | MinTimeAdd | MinLevelAdd | MinLevelMultiply | MaxTimeAdd
    | MaxLevelAdd | MaxLevelMultiply | FloodBegins | EbbBegins

  /** The column's name in the structure, which is also the keyword the
      codec uses for it. */
  function FieldName(f: Field): string {
    match f
    case RecordNumber => "record_number"
    case RecordSize => "record_size"
    case RecordType => "record_type"
    case Latitude => "latitude"
    case Longitude => "longitude"
    case ReferenceStation => "reference_station"
    case Tzfile => "tzfile"
    case Name => "name"
    case Country => "country"
    case Source => "source"
    case Restriction => "restriction"
    case Comments => "comments"
    case Notes => "notes"
    case Legalese => "legalese"
    case StationIdContext => "station_id_context"
    case StationId => "station_id"
    case DateImported => "date_imported"
    case Xfields => "xfields"
    case DirectionUnits => "direction_units"
    case MinDirection => "min_direction"
    case MaxDirection => "max_direction"
    case LevelUnits => "level_units"
    case DatumOffset => "datum_offset"
    case Datum => "datum"
    case ZoneOffset => "zone_offset"
    case ExpirationDate => "expiration_date"
    case MonthsOnStation => "months_on_station"
    case LastDateOnStation => "last_date_on_station"
    case Confidence => "confidence"
    case Amplitude => "amplitude"
    case Epoch => "epoch"
    case MinTimeAdd => "min_time_add"
    case MinLevelAdd => "min_level_add"
    case MinLevelMultiply => "min_level_multiply"
    case MaxTimeAdd => "max_time_add"
    case MaxLevelAdd => "max_level_add"
    case MaxLevelMultiply => "max_level_multiply"
    case FloodBegins => "flood_begins"
    case EbbBegins => "ebb_begins"
  }

  /** No two columns share a name. */
  lemma FieldNameInjective(f: Field, g: Field)
    ensures FieldName(f) == FieldName(g) ==> f == g
  {
    match f
    case RecordNumber => NamedOnlyRecordNumber(g);
    case RecordSize => NamedOnlyRecordSize(g);
    case RecordType => NamedOnlyRecordType(g);
    case Latitude => NamedOnlyLatitude(g);
    case Longitude => NamedOnlyLongitude(g);
    case ReferenceStation => NamedOnlyReferenceStation(g);
    case Tzfile => NamedOnlyTzfile(g);
    case Name => NamedOnlyName(g);
    case Country => NamedOnlyCountry(g);
    case Source => NamedOnlySource(g);
    case Restriction => NamedOnlyRestriction(g);
    case Comments => NamedOnlyComments(g);
    case Notes => NamedOnlyNotes(g);
    case Legalese => NamedOnlyLegalese(g);
    case StationIdContext => NamedOnlyStationIdContext(g);
    case StationId => NamedOnlyStationId(g);
    case DateImported => NamedOnlyDateImported(g);
    case Xfields => NamedOnlyXfields(g);
    case DirectionUnits => NamedOnlyDirectionUnits(g);
    case MinDirection => NamedOnlyMinDirection(g);
    case MaxDirection => NamedOnlyMaxDirection(g);
    case LevelUnits => NamedOnlyLevelUnits(g);
    case DatumOffset => NamedOnlyDatumOffset(g);
    case Datum => NamedOnlyDatum(g);
    case ZoneOffset => NamedOnlyZoneOffset(g);
    case ExpirationDate => NamedOnlyExpirationDate(g);
    case MonthsOnStation => NamedOnlyMonthsOnStation(g);
    case LastDateOnStation => NamedOnlyLastDateOnStation(g);
    case Confidence => NamedOnlyConfidence(g);
    case Amplitude => NamedOnlyAmplitude(g);
    case Epoch => NamedOnlyEpoch(g);
    case MinTimeAdd => NamedOnlyMinTimeAdd(g);
    case MinLevelAdd => NamedOnlyMinLevelAdd(g);
    case MinLevelMultiply => NamedOnlyMinLevelMultiply(g);
    case MaxTimeAdd => NamedOnlyMaxTimeAdd(g);
    case MaxLevelAdd => NamedOnlyMaxLevelAdd(g);
    case MaxLevelMultiply => NamedOnlyMaxLevelMultiply(g);
    case FloodBegins => NamedOnlyFloodBegins(g);
    case EbbBegins => NamedOnlyEbbBegins(g);
  }

  /** Each of the names below belongs to one column only. */
  lemma NamedOnlyRecordNumber(g: Field)
    ensures FieldName(g) == "record_number" ==> g == RecordNumber
  {
  }

  lemma NamedOnlyRecordSize(g: Field)
    ensures FieldName(g) == "record_size" ==> g == RecordSize
  {
  }

  lemma NamedOnlyRecordType(g: Field)
    ensures FieldName(g) == "record_type" ==> g == RecordType
  {
  }

  lemma NamedOnlyLatitude(g: Field)
    ensures FieldName(g) == "latitude" ==> g == Latitude
  {
  }

  lemma NamedOnlyLongitude(g: Field)
    ensures FieldName(g) == "longitude" ==> g == Longitude
  {
  }

  lemma NamedOnlyReferenceStation(g: Field)
    ensures FieldName(g) == "reference_station" ==> g == ReferenceStation
  {
  }

  lemma NamedOnlyTzfile(g: Field)
    ensures FieldName(g) == "tzfile" ==> g == Tzfile
  {
  }

  lemma NamedOnlyName(g: Field)
    ensures FieldName(g) == "name" ==> g == Name
  {
  }

  lemma NamedOnlyCountry(g: Field)
    ensures FieldName(g) == "country" ==> g == Country
  {
  }

  lemma NamedOnlySource(g: Field)
    ensures FieldName(g) == "source" ==> g == Source
  {
  }

  lemma NamedOnlyRestriction(g: Field)
    ensures FieldName(g) == "restriction" ==> g == Restriction
  {
  }

  lemma NamedOnlyComments(g: Field)
    ensures FieldName(g) == "comments" ==> g == Comments
  {
  }

  lemma NamedOnlyNotes(g: Field)
    ensures FieldName(g) == "notes" ==> g == Notes
  {
  }

  lemma NamedOnlyLegalese(g: Field)
    ensures FieldName(g) == "legalese" ==> g == Legalese
  {
  }

  lemma NamedOnlyStationIdContext(g: Field)
    ensures FieldName(g) == "station_id_context" ==> g == StationIdContext
  {
  }

  lemma NamedOnlyStationId(g: Field)
    ensures FieldName(g) == "station_id" ==> g == StationId
  {
  }

  lemma NamedOnlyDateImported(g: Field)
    ensures FieldName(g) == "date_imported" ==> g == DateImported
  {
  }

  lemma NamedOnlyXfields(g: Field)
    ensures FieldName(g) == "xfields" ==> g == Xfields
  {
  }

  lemma NamedOnlyDirectionUnits(g: Field)
    ensures FieldName(g) == "direction_units" ==> g == DirectionUnits
  {
  }

  lemma NamedOnlyMinDirection(g: Field)
    ensures FieldName(g) == "min_direction" ==> g == MinDirection
  {
  }

  lemma NamedOnlyMaxDirection(g: Field)
    ensures FieldName(g) == "max_direction" ==> g == MaxDirection
  {
  }

  lemma NamedOnlyLevelUnits(g: Field)
    ensures FieldName(g) == "level_units" ==> g == LevelUnits
  {
  }

  lemma NamedOnlyDatumOffset(g: Field)
    ensures FieldName(g) == "datum_offset" ==> g == DatumOffset
  {
  }

  lemma NamedOnlyDatum(g: Field)
    ensures FieldName(g) == "datum" ==> g == Datum
  {
  }

  lemma NamedOnlyZoneOffset(g: Field)
    ensures FieldName(g) == "zone_offset" ==> g == ZoneOffset
  {
  }

  lemma NamedOnlyExpirationDate(g: Field)
    ensures FieldName(g) == "expiration_date" ==> g == ExpirationDate
  {
  }

  lemma NamedOnlyMonthsOnStation(g: Field)
    ensures FieldName(g) == "months_on_station" ==> g == MonthsOnStation
  {
  }

  lemma NamedOnlyLastDateOnStation(g: Field)
    ensures FieldName(g) == "last_date_on_station" ==> g == LastDateOnStation
  {
  }

  lemma NamedOnlyConfidence(g: Field)
    ensures FieldName(g) == "confidence" ==> g == Confidence
  {
  }

  lemma NamedOnlyAmplitude(g: Field)
    ensures FieldName(g) == "amplitude" ==> g == Amplitude
  {
  }

  lemma NamedOnlyEpoch(g: Field)
    ensures FieldName(g) == "epoch" ==> g == Epoch
  {
  }

  lemma NamedOnlyMinTimeAdd(g: Field)
    ensures FieldName(g) == "min_time_add" ==> g == MinTimeAdd
  {
  }

  lemma NamedOnlyMinLevelAdd(g: Field)
    ensures FieldName(g) == "min_level_add" ==> g == MinLevelAdd
  {
  }

  lemma NamedOnlyMinLevelMultiply(g: Field)
    ensures FieldName(g) == "min_level_multiply" ==> g == MinLevelMultiply
  {
  }

  lemma NamedOnlyMaxTimeAdd(g: Field)
    ensures FieldName(g) == "max_time_add" ==> g == MaxTimeAdd
  {
  }

  lemma NamedOnlyMaxLevelAdd(g: Field)
    ensures FieldName(g) == "max_level_add" ==> g == MaxLevelAdd
  {
  }

  lemma NamedOnlyMaxLevelMultiply(g: Field)
    ensures FieldName(g) == "max_level_multiply" ==> g == MaxLevelMultiply
  {
  }

  lemma NamedOnlyFloodBegins(g: Field)
    ensures FieldName(g) == "flood_begins" ==> g == FloodBegins
  {
  }

  lemma NamedOnlyEbbBegins(g: Field)
    ensures FieldName(g) == "ebb_begins" ==> g == EbbBegins
  {
  }


  /** The coefficients are stored in two columns, neither of which is
      named `coefficients`. */
  lemma NoColumnNamedCoefficients(f: Field)
    ensures FieldName(f) != "coefficients"
  {
  }

  /** Only the record-type column is named `record_type`. */
  lemma RecordTypeName(f: Field)
    ensures FieldName(f) == "record_type" <==> f == RecordType
  {
  }

  datatype Width = W8 | W16 | W32

  function Modulus(w: Width): int {
    match w
    case W8 => 0x100
    case W16 => 0x1_0000
    case W32 => 0x1_0000_0000
  }

  /** The ctypes type of a column. */
  datatype Column =
    | Signed(width: Width)      // c_int8 .. c_int32
    | Unsigned(width: Width)    // c_uint8 .. c_uint32
    | Double                    // c_double
    | Single                    // c_float
    | Chars(size: nat)          // c_char * size
    | Singles(count: nat)       // c_float * count

  function ColumnOf(f: Field): Column {
    match f
    case RecordNumber => Signed(W32)
    case RecordSize => Unsigned(W32)
    case RecordType => Unsigned(W8)
    case Latitude => Double
    case Longitude => Double
    case ReferenceStation => Signed(W32)
    case Tzfile => Signed(W16)
    case Name => Chars(ONELINER_LENGTH)
    case Country => Signed(W16)
    case Source => Chars(ONELINER_LENGTH)
    case Restriction => Unsigned(W8)
    case Comments => Chars(MONOLOGUE_LENGTH)
    case Notes => Chars(MONOLOGUE_LENGTH)
    case Legalese => Unsigned(W8)
    case StationIdContext => Chars(ONELINER_LENGTH)
    case StationId => Chars(ONELINER_LENGTH)
    case DateImported => Unsigned(W32)
    case Xfields => Chars(MONOLOGUE_LENGTH)
    case DirectionUnits => Unsigned(W8)
    case MinDirection => Signed(W32)
    case MaxDirection => Signed(W32)
    case LevelUnits => Unsigned(W8)
    case DatumOffset => Single
    case Datum => Signed(W16)
    case ZoneOffset => Signed(W32)
    case ExpirationDate => Unsigned(W32)
    case MonthsOnStation => Unsigned(W16)
    case LastDateOnStation => Unsigned(W32)
    case Confidence => Unsigned(W8)
    case Amplitude => Singles(MAX_CONSTITUENTS)
    case Epoch => Singles(MAX_CONSTITUENTS)
    case MinTimeAdd => Signed(W32)
    case MinLevelAdd => Single
    case MinLevelMultiply => Single
    case MaxTimeAdd => Signed(W32)
    case MaxLevelAdd => Single
    case MaxLevelMultiply => Single
    case FloodBegins => Signed(W32)
    case EbbBegins => Signed(W32)
  }

  /** The integers a column of this type can hold. */
  predicate InRange(c: Column, i: int) {
    match c
    case Signed(w) => -(Modulus(w) / 2) <= i < Modulus(w) / 2
    case Unsigned(w) => 0 <= i < Modulus(w)
    case _ => false
  }

  /** Two's-complement truncation, as ctypes silently applies it to an
      integer stored into a narrower signed column. */
  function WrapSigned(i: int, w: Width): (r: int)
    ensures InRange(Signed(w), r)
    ensures InRange(Signed(w), i) ==> r == i
    ensures (r - i) % Modulus(w) == 0
  {
    var m := Modulus(w);
    (i + m / 2) % m - m / 2
  }

  function WrapUnsigned(i: int, w: Width): (r: int)
    ensures InRange(Unsigned(w), r)
    ensures InRange(Unsigned(w), i) ==> r == i
    ensures (r - i) % Modulus(w) == 0
  {
    i % Modulus(w)
  }

  /** A char array field reads back the bytes before the first NUL. */
  function UpToNul(s: string): (r: string)
    ensures r <= s && '\0' !in r
    ensures '\0' !in s ==> r == s
  {
    if s == [] then []
    else if s[0] == '\0' then []
    else [s[0]] + UpToNul(s[1..])
  }

  /** The value a column of type `c` reads back after `v` is stored into it,
      or the exception the store raises: TypeError for a value of the
      wrong Python type, ValueError for a byte string longer than its
      char array. */
  function Convert(c: Column, v: Value): (r: Result<Value>)
    ensures r.Ok? ==> HasType(c, r.value)
    ensures (c.Signed? || c.Unsigned?) ==> (r.Ok? <==> v.Int?)
    ensures (c.Double? || c.Single?) ==> (r.Ok? <==> v.Int? || v.Float?)
    ensures c.Chars? ==> (r.Ok? <==> v.Text? && |v.s| <= c.size)
    ensures c.Chars? && v.Text? && |v.s| > c.size ==> r == Err(ValueError)
    ensures r.Err? && r.error != ValueError ==> r.error == TypeError
  {
    match c
    case Signed(w) => if v.Int? then Ok(Int(WrapSigned(v.i, w))) else Err(TypeError)
    case Unsigned(w) => if v.Int? then Ok(Int(WrapUnsigned(v.i, w))) else Err(TypeError)
    case Double | Single =>
      if v.Int? then Ok(Float(v.i as real))
      else if v.Float? then Ok(v)
      else Err(TypeError)
    case Chars(n) =>
      if !v.Text? then Err(TypeError)
      else if |v.s| > n then Err(ValueError)
      else Ok(Text(UpToNul(v.s)))
    case Singles(n) =>
      if v.Floats? && |v.floats| == n then Ok(v) else Err(TypeError)
  }

  /** The values a column of type `c` reads back as. */
  predicate HasType(c: Column, v: Value) {
    match c
    case Signed(_) => v.Int? && InRange(c, v.i)
    case Unsigned(_) => v.Int? && InRange(c, v.i)
    case Double => v.Float?
    case Single => v.Float?
    case Chars(n) => v.Text? && |v.s| <= n && '\0' !in v.s
    case Singles(n) => v.Floats? && |v.floats| == n
  }

  /** What a column of a freshly zeroed structure reads back as. */
  function ZeroOf(c: Column): (v: Value)
    ensures HasType(c, v)
  {
    match c
    case Signed(_) => Int(0)
    case Unsigned(_) => Int(0)
    case Double => Float(0.0)
    case Single => Float(0.0)
    case Chars(_) => Text("")
    case Singles(n) => Floats(seq(n, _ => 0.0))
  }

  /** A tide record, with the header's columns alongside the others. */
  datatype TideRecord = TideRecord(
    recordNumber: int, recordSize: int, recordType: int,
    latitude: real, longitude: real, referenceStation: int, tzfile: int, name: string,
    country: int, source: string, restriction: int, comments: string, notes: string,
    legalese: int, stationIdContext: string, stationId: string, dateImported: int,
    xfields: string, directionUnits: int, minDirection: int, maxDirection: int, levelUnits: int,
    datumOffset: real, datum: int, zoneOffset: int, expirationDate: int, monthsOnStation: int,
    lastDateOnStation: int, confidence: int, amplitude: seq<real>, epoch: seq<real>,
    minTimeAdd: int, minLevelAdd: real, minLevelMultiply: real, maxTimeAdd: int,
    maxLevelAdd: real, maxLevelMultiply: real, floodBegins: int, ebbBegins: int)

  /** `getattr(rec, name)` for the column `f`. */
  function Get(rec: TideRecord, f: Field): Value {
    match f
    case RecordNumber => Int(rec.recordNumber)
    case RecordSize => Int(rec.recordSize)
    case RecordType => Int(rec.recordType)
    case Latitude => Float(rec.latitude)
    case Longitude => Float(rec.longitude)
    case ReferenceStation => Int(rec.referenceStation)
    case Tzfile => Int(rec.tzfile)
    case Name => Text(rec.name)
    case Country => Int(rec.country)
    case Source => Text(rec.source)
    case Restriction => Int(rec.restriction)
    case Comments => Text(rec.comments)
    case Notes => Text(rec.notes)
    case Legalese => Int(rec.legalese)
    case StationIdContext => Text(rec.stationIdContext)
    case StationId => Text(rec.stationId)
    case DateImported => Int(rec.dateImported)
    case Xfields => Text(rec.xfields)
    case DirectionUnits => Int(rec.directionUnits)
    case MinDirection => Int(rec.minDirection)
    case MaxDirection => Int(rec.maxDirection)
    case LevelUnits => Int(rec.levelUnits)
    case DatumOffset => Float(rec.datumOffset)
    case Datum => Int(rec.datum)
    case ZoneOffset => Int(rec.zoneOffset)
    case ExpirationDate => Int(rec.expirationDate)
    case MonthsOnStation => Int(rec.monthsOnStation)
    case LastDateOnStation => Int(rec.lastDateOnStation)
    case Confidence => Int(rec.confidence)
    case Amplitude => Floats(rec.amplitude)
    case Epoch => Floats(rec.epoch)
    case MinTimeAdd => Int(rec.minTimeAdd)
    case MinLevelAdd => Float(rec.minLevelAdd)
    case MinLevelMultiply => Float(rec.minLevelMultiply)
    case MaxTimeAdd => Int(rec.maxTimeAdd)
    case MaxLevelAdd => Float(rec.maxLevelAdd)
    case MaxLevelMultiply => Float(rec.maxLevelMultiply)
    case FloodBegins => Int(rec.floodBegins)
    case EbbBegins => Int(rec.ebbBegins)
  }

  /** The record with its number replaced, as the native store numbers a
      record it adds. */
  function WithRecordNumber(rec: TideRecord, n: int): (r: TideRecord)
    ensures Get(r, RecordNumber) == Int(n)
    ensures forall f :: f != RecordNumber ==> Get(r, f) == Get(rec, f)
  {
    rec.(recordNumber := n)
  }

  /** The order in which `TIDE_RECORD(**packed)` stores its keyword
      arguments: the order of the packed dict, whose first keys are the
      defaults and whose others arrive in descriptor order. The two
      columns the codec never sets come last. */
  const ConversionOrder: seq<Field> := [
    ReferenceStation, MinDirection, MaxDirection, FloodBegins, EbbBegins,
    RecordType, Name, Latitude, Longitude, Source, Comments, Notes,
    StationIdContext, StationId, Xfields, DateImported, Tzfile, Country,
    Restriction, Legalese, LevelUnits, DirectionUnits,
    DatumOffset, Datum, ZoneOffset, ExpirationDate, MonthsOnStation,
    LastDateOnStation, Confidence, Amplitude, Epoch,
    MinTimeAdd, MinLevelAdd, MinLevelMultiply, MaxTimeAdd, MaxLevelAdd,
    MaxLevelMultiply, RecordNumber, RecordSize]

  lemma ConversionOrderComplete(f: Field)
    ensures f in ConversionOrder
  {
  }

  /** Storing the arguments `p` column by column in the order `order`: the
      stored values, or the exception of the first column that refuses its
      value. */
  function StoreAll(order: seq<Field>, p: map<Field, Value>): (r: Result<map<Field, Value>>)
    ensures r.Ok? <==> forall f :: f in order && f in p ==> Convert(ColumnOf(f), p[f]).Ok?
    ensures r.Ok? ==> forall f :: f in r.value <==> f in order && f in p
    ensures r.Ok? ==> forall f :: f in r.value ==> r.value[f] == Convert(ColumnOf(f), p[f]).value
  {
    if order == [] then Ok(map[])
    else
      var f := order[0];
      if f in p && Convert(ColumnOf(f), p[f]).Err? then
        Err(Convert(ColumnOf(f), p[f]).error)
      else
        var rest := StoreAll(order[1..], p);
        if rest.Err? then Err(rest.error)
        else if f in p then Ok(rest.value[f := Convert(ColumnOf(f), p[f]).value])
        else rest
  }

  /** A failed store reports the first refused column. */
  lemma {:induction false} StoreAllFirstRefusal(order: seq<Field>, p: map<Field, Value>)
    requires StoreAll(order, p).Err?
    ensures exists k :: 0 <= k < |order| && RefusedFirst(order, p, k, StoreAll(order, p).error)
  {
    var f := order[0];
    if f in p && Convert(ColumnOf(f), p[f]).Err? {
      assert RefusedFirst(order, p, 0, StoreAll(order, p).error);
    } else {
      StoreAllFirstRefusal(order[1..], p);
      var k :| 0 <= k < |order[1..]| && RefusedFirst(order[1..], p, k, StoreAll(order[1..], p).error);
      assert order[1..][k] == order[k + 1];
      assert RefusedFirst(order, p, k + 1, StoreAll(order, p).error);
    }
  }

  /** `order[k]` is the first column in `order` whose argument is refused. */
  predicate FirstRefusal(order: seq<Field>, p: map<Field, Value>, k: int)
    requires 0 <= k < |order|
  {
    && order[k] in p && Convert(ColumnOf(order[k]), p[order[k]]).Err?
    && forall j :: 0 <= j < k && order[j] in p ==> Convert(ColumnOf(order[j]), p[order[j]]).Ok?
  }

  /** `order[k]` is the first column whose argument is refused, and it is
      refused with `e`. */
  predicate RefusedFirst(order: seq<Field>, p: map<Field, Value>, k: int, e: Error)
    requires 0 <= k < |order|
  {
    FirstRefusal(order, p, k) && Convert(ColumnOf(order[k]), p[order[k]]) == Err(e)
  }

  /** Every stored value reads back with its column's type. */
  ghost predicate WellTyped(cells: map<Field, Value>) {
    forall f :: f in cells ==> HasType(ColumnOf(f), cells[f])
  }

  /** What column `f` of the structure built from `cells` reads back as. */
  function CellOrZero(cells: map<Field, Value>, f: Field): Value {
    if f in cells then cells[f] else ZeroOf(ColumnOf(f))
  }

  function IntCell(cells: map<Field, Value>, f: Field): int {
    if f in cells && cells[f].Int? then cells[f].i else 0
  }

  function FloatCell(cells: map<Field, Value>, f: Field): real {
    if f in cells && cells[f].Float? then cells[f].r else 0.0
  }

  function TextCell(cells: map<Field, Value>, f: Field): string {
    if f in cells && cells[f].Text? then cells[f].s else ""
  }

  function FloatsCell(cells: map<Field, Value>, f: Field): seq<real> {
    if f in cells && cells[f].Floats? then cells[f].floats else seq(MAX_CONSTITUENTS, _ => 0.0)
  }

  /** The structure holding `cells`, every other column zero. */
  function Assemble(cells: map<Field, Value>): TideRecord {
    TideRecord(
      IntCell(cells, RecordNumber), IntCell(cells, RecordSize), IntCell(cells, RecordType),
      FloatCell(cells, Latitude), FloatCell(cells, Longitude), IntCell(cells, ReferenceStation),
      IntCell(cells, Tzfile), TextCell(cells, Name),
      IntCell(cells, Country), TextCell(cells, Source), IntCell(cells, Restriction),
      TextCell(cells, Comments), TextCell(cells, Notes),
      IntCell(cells, Legalese), TextCell(cells, StationIdContext), TextCell(cells, StationId),
      IntCell(cells, DateImported),
      TextCell(cells, Xfields), IntCell(cells, DirectionUnits), IntCell(cells, MinDirection),
      IntCell(cells, MaxDirection), IntCell(cells, LevelUnits),
      FloatCell(cells, DatumOffset), IntCell(cells, Datum), IntCell(cells, ZoneOffset),
      IntCell(cells, ExpirationDate), IntCell(cells, MonthsOnStation),
      IntCell(cells, LastDateOnStation), IntCell(cells, Confidence),
      FloatsCell(cells, Amplitude), FloatsCell(cells, Epoch),
      IntCell(cells, MinTimeAdd), FloatCell(cells, MinLevelAdd), FloatCell(cells, MinLevelMultiply),
      IntCell(cells, MaxTimeAdd), FloatCell(cells, MaxLevelAdd), FloatCell(cells, MaxLevelMultiply),
      IntCell(cells, FloodBegins), IntCell(cells, EbbBegins))
  }

  /** What column `f` of the assembled structure holds, read as its
      column's type. */
  function TypedCell(cells: map<Field, Value>, f: Field): Value {
    match ColumnOf(f)
    case Signed(_) => Int(IntCell(cells, f))
    case Unsigned(_) => Int(IntCell(cells, f))
    case Double => Float(FloatCell(cells, f))
    case Single => Float(FloatCell(cells, f))
    case Chars(_) => Text(TextCell(cells, f))
    case Singles(_) => Floats(FloatsCell(cells, f))
  }

  /** Each column of the assembled structure is its cell, read as the
      column's type. */
  lemma AssembleTyped(cells: map<Field, Value>, f: Field)
    ensures Get(Assemble(cells), f) == TypedCell(cells, f)
  {
    match f
    case RecordNumber =>
    case RecordSize =>
    case RecordType =>
    case Latitude =>
    case Longitude =>
    case ReferenceStation =>
    case Tzfile =>
    case Name =>
    case Country =>
    case Source =>
    case Restriction =>
    case Comments =>
    case Notes =>
    case Legalese =>
    case StationIdContext =>
    case StationId =>
    case DateImported =>
    case Xfields =>
    case DirectionUnits =>
    case MinDirection =>
    case MaxDirection =>
    case LevelUnits =>
    case DatumOffset =>
    case Datum =>
    case ZoneOffset =>
    case ExpirationDate =>
    case MonthsOnStation =>
    case LastDateOnStation =>
    case Confidence =>
    case Amplitude =>
    case Epoch =>
    case MinTimeAdd =>
    case MinLevelAdd =>
    case MinLevelMultiply =>
    case MaxTimeAdd =>
    case MaxLevelAdd =>
    case MaxLevelMultiply =>
    case FloodBegins =>
    case EbbBegins =>
  }

  lemma TypedCellOfType(cells: map<Field, Value>, f: Field)
    requires HasType(ColumnOf(f), CellOrZero(cells, f))
    ensures TypedCell(cells, f) == CellOrZero(cells, f)
  {
  }

  lemma AssembleGet(cells: map<Field, Value>, f: Field)
    requires HasType(ColumnOf(f), CellOrZero(cells, f))
    ensures Get(Assemble(cells), f) == CellOrZero(cells, f)
  {
    AssembleTyped(cells, f);
    TypedCellOfType(cells, f);
  }

  /** What column `f` reads back as when the keyword arguments `p` are
      all accepted. */
  function GivenOrZero(p: map<Field, Value>, f: Field): Value
    requires f in p ==> Convert(ColumnOf(f), p[f]).Ok?
  {
    if f in p then Convert(ColumnOf(f), p[f]).value else ZeroOf(ColumnOf(f))
  }


  /** `TIDE_RECORD(**packed)`: a zeroed structure with each keyword
      argument stored into its column. It fails exactly when some argument
      is refused, with the exception of the first refused one in
      `ConversionOrder`; otherwise every column reads back its stored
      argument, and the columns not given read back as zero. */
  function Build(p: map<Field, Value>): (r: Result<TideRecord>)
    ensures r.Ok? <==> forall f :: f in p ==> Convert(ColumnOf(f), p[f]).Ok?
    ensures r.Ok? ==> forall f :: Get(r.value, f) == GivenOrZero(p, f)
    ensures r.Err? ==> exists k :: 0 <= k < |ConversionOrder| && RefusedFirst(ConversionOrder, p, k, r.error)
  {
    var order := ConversionOrder;
    var stored := StoreAll(order, p);
    AllColumnsStored(p);
    if stored.Err? then
      StoreAllFirstRefusal(ConversionOrder, p);
      Err(stored.error)
    else
      var rec := Assemble(stored.value);
      AssembleStored(p, stored.value);
      Ok(rec)
  }

  lemma AllColumnsStored(p: map<Field, Value>)
    ensures StoreAll(ConversionOrder, p).Ok? <==> forall f :: f in p ==> Convert(ColumnOf(f), p[f]).Ok?
  {
    forall f | f in p ensures f in ConversionOrder { ConversionOrderComplete(f); }
  }

  lemma AssembleStored(p: map<Field, Value>, cells: map<Field, Value>)
    requires StoreAll(ConversionOrder, p) == Ok(cells)
    requires forall f :: f in p ==> Convert(ColumnOf(f), p[f]).Ok?
    ensures forall f :: Get(Assemble(cells), f) == GivenOrZero(p, f)
  {
    assert WellTyped(cells);
    forall f ensures Get(Assemble(cells), f) == GivenOrZero(p, f) {
      ConversionOrderComplete(f);
      assert HasType(ColumnOf(f), CellOrZero(cells, f));
      AssembleGet(cells, f);
    }
  }

  /** The name column reads the record's name. */
  lemma GetName(rec: TideRecord)
    ensures Get(rec, Name) == Text(rec.name)
  {
  }

  /** An integer argument that fits its column reads back unchanged. */
  lemma BuiltNoReference(p: map<Field, Value>)
    requires ReferenceStation in p && p[ReferenceStation] == Int(-1)
    ensures Build(p).Ok? ==> Build(p).value.referenceStation == -1
  {
    BuiltInt(p, ReferenceStation, -1);
  }

  /** An integer argument of a signed column reads back wrapped to the
      column's width. */
  lemma BuiltSigned(p: map<Field, Value>, f: Field, i: int)
    requires f in p && p[f] == Int(i) && ColumnOf(f).Signed?
    ensures Build(p).Ok? ==> Get(Build(p).value, f) == Int(WrapSigned(i, ColumnOf(f).width))
  {
    if Build(p).Ok? {
      assert Get(Build(p).value, f) == GivenOrZero(p, f);
    }
  }

  /** The slack offsets are the structure's last two columns. */
  lemma SlackColumns(rec: TideRecord)
    ensures Get(rec, FloodBegins) == Int(rec.floodBegins)
    ensures Get(rec, EbbBegins) == Int(rec.ebbBegins)
  {
  }

  lemma BuiltFloodBegins(p: map<Field, Value>, v: int)
    requires FloodBegins in p && p[FloodBegins] == Int(v) && InRange(Signed(W32), v)
    ensures Build(p).Ok? ==> Build(p).value.floodBegins == v
  {
    BuiltInt(p, FloodBegins, v);
    if Build(p).Ok? {
      SlackColumns(Build(p).value);
    }
  }

  lemma BuiltEbbBegins(p: map<Field, Value>, v: int)
    requires EbbBegins in p && p[EbbBegins] == Int(v) && InRange(Signed(W32), v)
    ensures Build(p).Ok? ==> Build(p).value.ebbBegins == v
  {
    BuiltInt(p, EbbBegins, v);
    if Build(p).Ok? {
      SlackColumns(Build(p).value);
    }
  }

  lemma BuiltRecordType(p: map<Field, Value>, code: int)
    requires code == REFERENCE_STATION || code == SUBORDINATE_STATION
    requires RecordType in p && p[RecordType] == Int(code)
    ensures Build(p).Ok? ==> Build(p).value.recordType == code
  {
    BuiltInt(p, RecordType, code);
  }

  lemma BuiltRecordNumber(p: map<Field, Value>)
    requires RecordNumber !in p
    ensures Build(p).Ok? ==> Build(p).value.recordNumber == 0
  {
    BuiltAbsent(p, RecordNumber);
  }

  lemma BuiltInt(p: map<Field, Value>, f: Field, i: int)
    requires f in p && p[f] == Int(i) && InRange(ColumnOf(f), i)
    ensures Build(p).Ok? ==> Get(Build(p).value, f) == Int(i)
  {
    if Build(p).Ok? {
      assert Get(Build(p).value, f) == GivenOrZero(p, f);
      var c := ColumnOf(f);
      if c.Signed? {
        assert WrapSigned(i, c.width) == i;
      } else {
        assert WrapUnsigned(i, c.width) == i;
      }
    }
  }

  /** A column given no argument reads back as zero. */
  lemma BuiltAbsent(p: map<Field, Value>, f: Field)
    requires f !in p
    ensures Build(p).Ok? ==> Get(Build(p).value, f) == ZeroOf(ColumnOf(f))
  {
    if Build(p).Ok? {
      assert Get(Build(p).value, f) == GivenOrZero(p, f);
    }
  }

  /** Storing a byte string in a char array and reading it back is the
      identity when it fits and holds no NUL. */
  lemma TextStoredIntact(f: Field, s: string)
    requires ColumnOf(f).Chars? && |s| <= ColumnOf(f).size && '\0' !in s
    ensures Convert(ColumnOf(f), Text(s)) == Ok(Text(s))
  {
  }

  /** An integer stored in a too narrow column wraps: 256 in an unsigned
      byte reads back as 0, 2^31 in a signed 32-bit column as -2^31. */
  lemma IntegersWrap()
    ensures Convert(ColumnOf(Confidence), Int(256)) == Ok(Int(0))
    ensures Convert(ColumnOf(ZoneOffset), Int(0x8000_0000)) == Ok(Int(-0x8000_0000))
    ensures Convert(ColumnOf(Tzfile), Int(-1)) == Ok(Int(-1))
  {
    assert ColumnOf(Confidence) == Unsigned(W8) && WrapUnsigned(256, W8) == 0;
    assert ColumnOf(ZoneOffset) == Signed(W32) && WrapSigned(0x8000_0000, W32) == -0x8000_0000;
    assert ColumnOf(Tzfile) == Signed(W16) && WrapSigned(-1, W16) == -1;
  }
}
