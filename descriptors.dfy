/** The field descriptors of the codec: for each attribute of a station,
    the column it is packed into, the packed value that stands for an absent
    attribute, and the transform between the attribute's value and the
    column's (the `_attr_descriptor` family and the attribute lists in
    libtcd/api.py). */
module Descriptors {
  import opened Results
  import opened Util
  import opened Values
  import opened Records
  import opened StringTables
  import opened Scalars
  import opened XFields

  /** The value transform of a plain descriptor: `_attr_descriptor`,
      `_string`, `_date`, `_time_offset`, `_direction`, `_xfields`,
      `_string_table` (find-or-add) and `_string_enum` (find only). */
  datatype Transform =
    | Plain
    | Str
    | DateT
    | TimeOffsetT
    | DirectionT
    | XFieldsT
    | StringTable(id: TableId)
    | StringEnum(id: TableId)

  /** `null_value`: either none, or the packed value that stands for `None`. */
  datatype NullRule = NoNull | NullAs(packed: Value)

  /** A descriptor. `Attr` packs one attribute into the column of the same
      name; the others are the special descriptors `_record_number`,
      `_record_type`, `_coordinates`, `_coefficients` and
      `_reference_station`. */
  datatype Descriptor =
    | RecordNumberD
    | RecordTypeD
    | CoordinatesD
    | CoefficientsD
    | ReferenceStationD
    | Attr(field: Field, nullValue: NullRule, transform: Transform)

  /** `_COMMON_ATTRS` */
  const COMMON_ATTRS: seq<Descriptor> := [
    RecordNumberD,
    RecordTypeD,
    Attr(Name, NoNull, Str),
    CoordinatesD,
    Attr(Source, NullAs(Text("")), Str),
    Attr(Comments, NullAs(Text("")), Str),
    Attr(Notes, NoNull, Str),
    Attr(StationIdContext, NullAs(Text("")), Str),
    Attr(StationId, NullAs(Text("")), Str),
    Attr(Xfields, NoNull, XFieldsT),
    Attr(DateImported, NullAs(Int(0)), DateT),
    Attr(Tzfile, NoNull, StringTable(Tzfiles)),
    Attr(Country, NoNull, StringTable(Countries)),
    Attr(Restriction, NoNull, StringTable(Restrictions)),
    Attr(Legalese, NullAs(Int(0)), StringTable(Legaleses)),
    Attr(LevelUnits, NoNull, StringEnum(LevelUnitTypes)),
    Attr(DirectionUnits, NoNull, StringEnum(DirUnitTypes)),
    Attr(MinDirection, NullAs(Int(361)), DirectionT),
    Attr(MaxDirection, NullAs(Int(361)), DirectionT)]

  /** What `_REFSTATION_ATTRS` adds to the common list. */
  const REFERENCE_EXTRA: seq<Descriptor> := [
    Attr(DatumOffset, NoNull, Plain),
    Attr(Datum, NoNull, StringTable(Datums)),
    Attr(ZoneOffset, NoNull, TimeOffsetT),
    Attr(ExpirationDate, NullAs(Int(0)), DateT),
    Attr(MonthsOnStation, NoNull, Plain),
    Attr(LastDateOnStation, NullAs(Int(0)), DateT),
    Attr(Confidence, NoNull, Plain),
    CoefficientsD]

  /** What `_SUBSTATION_ATTRS` adds to the common list. */
  const SUBORDINATE_EXTRA: seq<Descriptor> := [
    ReferenceStationD,
    Attr(MinTimeAdd, NoNull, TimeOffsetT),
    Attr(MinLevelAdd, NoNull, Plain),
    Attr(MinLevelMultiply, NullAs(Float(0.0)), Plain),
    Attr(MaxTimeAdd, NoNull, TimeOffsetT),
    Attr(MaxLevelAdd, NoNull, Plain),
    Attr(MaxLevelMultiply, NullAs(Float(0.0)), Plain),
    Attr(FloodBegins, NullAs(Int(NULLSLACKOFFSET)), TimeOffsetT),
    Attr(EbbBegins, NullAs(Int(NULLSLACKOFFSET)), TimeOffsetT)]

  /** The columns a descriptor's `pack` can yield. */
  function Emits(d: Descriptor): set<Field> {
    match d
    case RecordNumberD => {}
    case RecordTypeD => {RecordType}
    case CoordinatesD => {Latitude, Longitude}
    case CoefficientsD => {Amplitude, Epoch}
    case ReferenceStationD => {ReferenceStation}
    case Attr(f, _, _) => {f}
  }

  /** The attribute list of a station class. No two of its descriptors
      yield the same column, so the packed dict takes each column from one
      descriptor only. */
  function AttrsFor(kind: Kind): (ds: seq<Descriptor>)
    ensures forall i, j :: 0 <= i < j < |ds| ==> Emits(ds[i]) !! Emits(ds[j])
  {
    EmittedAtSlot(kind);
    match kind
    case Reference => COMMON_ATTRS + REFERENCE_EXTRA
    case Subordinate => COMMON_ATTRS + SUBORDINATE_EXTRA
  }

  /** The position in the attribute list of `kind` of the descriptor that
      yields the column `f`, or -1 when none does. */
  function Slot(kind: Kind, f: Field): int {
    match f
    case RecordType => 1
    case Name => 2
    case Latitude => 3
    case Longitude => 3
    case Source => 4
    case Comments => 5
    case Notes => 6
    case StationIdContext => 7
    case StationId => 8
    case Xfields => 9
    case DateImported => 10
    case Tzfile => 11
    case Country => 12
    case Restriction => 13
    case Legalese => 14
    case LevelUnits => 15
    case DirectionUnits => 16
    case MinDirection => 17
    case MaxDirection => 18
    case DatumOffset => if kind == Reference then 19 else -1
    case Datum => if kind == Reference then 20 else -1
    case ZoneOffset => if kind == Reference then 21 else -1
    case ExpirationDate => if kind == Reference then 22 else -1
    case MonthsOnStation => if kind == Reference then 23 else -1
    case LastDateOnStation => if kind == Reference then 24 else -1
    case Confidence => if kind == Reference then 25 else -1
    case Amplitude => if kind == Reference then 26 else -1
    case Epoch => if kind == Reference then 26 else -1
    case ReferenceStation => if kind == Subordinate then 19 else -1
    case MinTimeAdd => if kind == Subordinate then 20 else -1
    case MinLevelAdd => if kind == Subordinate then 21 else -1
    case MinLevelMultiply => if kind == Subordinate then 22 else -1
    case MaxTimeAdd => if kind == Subordinate then 23 else -1
    case MaxLevelAdd => if kind == Subordinate then 24 else -1
    case MaxLevelMultiply => if kind == Subordinate then 25 else -1
    case FloodBegins => if kind == Subordinate then 26 else -1
    case EbbBegins => if kind == Subordinate then 27 else -1
    case _ => -1
  }

  /** Every column a descriptor of the list yields is yielded at its slot. */
  lemma EmittedAtSlot(kind: Kind)
    ensures var ds := if kind == Reference then COMMON_ATTRS + REFERENCE_EXTRA else COMMON_ATTRS + SUBORDINATE_EXTRA;
      forall i, f :: 0 <= i < |ds| && f in Emits(ds[i]) ==> i == Slot(kind, f)
  {
    var ds := if kind == Reference then COMMON_ATTRS + REFERENCE_EXTRA else COMMON_ATTRS + SUBORDINATE_EXTRA;
    var extra := if kind == Reference then REFERENCE_EXTRA else SUBORDINATE_EXTRA;
    CommonAtSlot(kind);
    ReferenceExtraAtSlot();
    SubordinateExtraAtSlot();
    forall i, f | 0 <= i < |ds| && f in Emits(ds[i]) ensures i == Slot(kind, f) {
      if i < |COMMON_ATTRS| {
        assert ds[i] == COMMON_ATTRS[i];
      } else {
        assert ds[i] == extra[i - |COMMON_ATTRS|];
      }
    }
  }

  lemma CommonAtSlot(kind: Kind)
    ensures forall i, f :: 0 <= i < |COMMON_ATTRS| && f in Emits(COMMON_ATTRS[i]) ==> i == Slot(kind, f)
  {
  }

  lemma ReferenceExtraAtSlot()
    ensures forall i, f :: 0 <= i < |REFERENCE_EXTRA| && f in Emits(REFERENCE_EXTRA[i]) ==>
      i + |COMMON_ATTRS| == Slot(Reference, f)
  {
  }

  lemma SubordinateExtraAtSlot()
    ensures forall i, f :: 0 <= i < |SUBORDINATE_EXTRA| && f in Emits(SUBORDINATE_EXTRA[i]) ==>
      i + |COMMON_ATTRS| == Slot(Subordinate, f)
  {
  }

  /** Only the subordinate list resolves reference stations, so unpacking
      and packing recurse at most one level deep. */
  lemma ReferenceOnlyInSubordinate(kind: Kind, i: int)
    requires 0 <= i < |AttrsFor(kind)| && AttrsFor(kind)[i] == ReferenceStationD
    ensures kind == Subordinate && i == |COMMON_ATTRS|
  {
  }

  // ------------------------------------------------------------ transforms

  /** `pack_value` of a plain descriptor, over the string tables, which
      `_string_table` may extend. A value of the wrong Python type fails
      as the source's attribute access, comparison or foreign call does. */
  function PackValue(t: Transform, v: Value, tables: Tables): (r: (Result<Value>, Tables))
    ensures tables.GrowsTo(r.1)
    ensures !t.StringTable? ==> r.1 == tables
    ensures t.StringTable? && v.Text? ==>
      r.0.Ok? && r.0.value.Int? && Lookup(r.1.Table(t.id), r.0.value.i) == v.s
    ensures t.StringEnum? && v.Text? ==>
      (r.0.Ok? <==> v.s in tables.Table(t.id))
      && (r.0.Ok? ==> r.0.value.Int? && Lookup(tables.Table(t.id), r.0.value.i) == v.s)
      && (r.0.Err? ==> r.0.error == ValueError)
  {
    match t
    case Plain => (Ok(v), tables)
    case Str => (Ok(v), tables)
    case DateT =>
      (if v.Date? then Ok(Int(PackDate(v.date))) else Err(AttributeError), tables)
    case TimeOffsetT =>
      (if v.None? then Ok(Int(0))
       else if v.Offset? then Ok(Int(PackOffset(v.delta)))
       else Err(AttributeError), tables)
    case DirectionT =>
      (match v
       case Int(d) => (match PackDirection(d) case Ok(p) => Ok(Int(p)) case Err(e) => Err(e))
       case Float(d) => if 0.0 <= d < 360.0 then Ok(Int(d.Floor)) else Err(ValueError)
       case _ => Err(TypeError), tables)
    case XFieldsT =>
      (if v.Fields? then Ok(Text(Fold(v.entries))) else Err(AttributeError), tables)
    case StringTable(id) =>
      if v.None? then (Ok(Int(0)), tables)
      else if v.Text? then
        var (i, t1) := FindOrAdd(tables.Table(id), v.s);
        LookupAfterFindOrAdd(tables.Table(id), v.s);
        (if i < 0 then Err(ValueError) else Ok(Int(i)), tables.WithTable(id, t1))
      else (Err(ArgumentError), tables)
    case StringEnum(id) =>
      if v.None? then (Ok(Int(0)), tables)
      else if v.Text? then
        var i := Find(tables.Table(id), v.s);
        (if i < 0 then Err(ValueError) else Ok(Int(i)), tables)
      else (Err(ArgumentError), tables)
  }

  /** `unpack_value` of a plain descriptor. The columns these transforms
      read always hold integers (dates, offsets, directions, table indices)
      or byte strings (xfields); any other value fails as `int()`,
      the comparison or the foreign call would. */
  function UnpackValue(t: Transform, p: Value, tables: Tables): (r: Result<Value>)
    ensures (t.Plain? || t.Str?) ==> r == Ok(p)
    ensures t.DateT? && p.Int? ==>
      (r.Ok? <==> UnpackDate(p.i).Ok?) && (r.Ok? ==> r.value.Date? && PackDate(r.value.date) == p.i)
    ensures t.TimeOffsetT? && p.Int? ==>
      (r.Ok? <==> Abs(p.i) % 100 < 60) && (r.Ok? ==> r.value.Offset? && PackOffset(r.value.delta) == p.i)
    ensures t.DirectionT? && p.Int? ==> r.Ok? && (r.value == None <==> !IsDirection(p.i))
    ensures (t.StringTable? || t.StringEnum?) && p.Int? ==>
      r == Ok(Text(Lookup(tables.Table(t.id), p.i)))
    ensures r.Err? ==> r.error in {ValueError, AssertionError, TypeError}
  {
    match t
    case Plain => Ok(p)
    case Str => Ok(p)
    case DateT =>
      if !p.Int? then Err(TypeError)
      else (match UnpackDate(p.i) case Ok(d) => Ok(Date(d)) case Err(e) => Err(e))
    case TimeOffsetT =>
      if !p.Int? then Err(TypeError)
      else
        var r := UnpackOffset(p.i);
        if r.Err? then Err(r.error)
        else
          PackedOffsetRoundTrip(p.i);
          Ok(Offset(r.value))
    case DirectionT =>
      if !p.Int? then Err(TypeError) else Ok(UnpackDirection(p.i))
    case XFieldsT =>
      if !p.Text? then Err(TypeError) else Ok(Fields(Parse(p.s)))
    case StringTable(id) =>
      if !p.Int? then Err(TypeError) else Ok(Text(Lookup(tables.Table(id), p.i)))
    case StringEnum(id) =>
      if !p.Int? then Err(TypeError) else Ok(Text(Lookup(tables.Table(id), p.i)))
  }

  // ------------------------------------------------------- the null rule

  /** `_attr_descriptor.pack` after the attribute is read: `None` becomes
      the null value when there is one, anything else goes through the
      transform. */
  function PackAttrValue(d: Descriptor, v: Value, tables: Tables): (r: (Result<Value>, Tables))
    requires d.Attr?
    ensures tables.GrowsTo(r.1)
    ensures d.nullValue.NullAs? && v == None ==> r == (Ok(d.nullValue.packed), tables)
    ensures !(d.nullValue.NullAs? && v == None) ==> r == PackValue(d.transform, v, tables)
  {
    if d.nullValue.NullAs? && v == None then (Ok(d.nullValue.packed), tables)
    else PackValue(d.transform, v, tables)
  }

  /** A transform that reads no string table packs the same value
      whatever the tables hold. */
  lemma PackAttrValueIgnoresTables(d: Descriptor, v: Value, t1: Tables, t2: Tables)
    requires d.Attr? && !d.transform.StringTable? && !d.transform.StringEnum?
    ensures PackAttrValue(d, v, t1).0 == PackAttrValue(d, v, t2).0
  {
  }

  /** `_attr_descriptor.pack`: the attribute of the descriptor's name, or an
      AttributeError when the station has none. */
  function PackAttr(d: Descriptor, attrs: map<string, Value>, tables: Tables): (r: (Result<Value>, Tables))
    requires d.Attr?
    ensures tables.GrowsTo(r.1)
    ensures FieldName(d.field) !in attrs ==> r == (Err(AttributeError), tables)
    ensures FieldName(d.field) in attrs ==> r == PackAttrValue(d, attrs[FieldName(d.field)], tables)
  {
    var name := FieldName(d.field);
    if name !in attrs then (Err(AttributeError), tables)
    else PackAttrValue(d, attrs[name], tables)
  }

  /** `_attr_descriptor.unpack` of the column's value `p`: `None` when it
      equals the null value, the transform's result otherwise. */
  function UnpackAttr(d: Descriptor, p: Value, tables: Tables): (r: Result<Value>)
    requires d.Attr?
    ensures d.nullValue.NullAs? && p == d.nullValue.packed ==> r == Ok(None)
    ensures !(d.nullValue.NullAs? && p == d.nullValue.packed) ==> r == UnpackValue(d.transform, p, tables)
  {
    if d.nullValue.NullAs? && p == d.nullValue.packed then Ok(None)
    else UnpackValue(d.transform, p, tables)
  }

  // ---------------------------------------------------------- round trips

  /** The attribute value `v` survives packing, storing into the column
      and unpacking. */
  predicate RoundTrips(d: Descriptor, v: Value, tables: Tables)
    requires d.Attr?
  {
    var (p, t1) := PackAttrValue(d, v, tables);
    && p.Ok?
    && Convert(ColumnOf(d.field), p.value).Ok?
    && UnpackAttr(d, Convert(ColumnOf(d.field), p.value).value, t1) == Ok(v)
  }

  /** An absent attribute round-trips when the column holds the null value
      unchanged. */
  lemma NullRoundTrips(d: Descriptor, tables: Tables)
    requires d.Attr? && d.nullValue.NullAs?
    requires Convert(ColumnOf(d.field), d.nullValue.packed) == Ok(d.nullValue.packed)
    ensures RoundTrips(d, None, tables)
  {
  }

  /** The column of `d` holds its null value unchanged. */
  predicate NullStored(d: Descriptor) {
    d.Attr? && d.nullValue.NullAs? ==> Convert(ColumnOf(d.field), d.nullValue.packed) == Ok(d.nullValue.packed)
  }

  lemma CommonNullsStored()
    ensures forall i :: 0 <= i < |COMMON_ATTRS| ==> NullStored(COMMON_ATTRS[i])
  {
    CommonNullsStoredFrom(0, 10);
    CommonNullsStoredFrom(10, |COMMON_ATTRS|);
  }

  lemma CommonNullsStoredFrom(lo: int, hi: int)
    requires 0 <= lo <= hi <= |COMMON_ATTRS| && hi - lo <= 10
    ensures forall i :: lo <= i < hi ==> NullStored(COMMON_ATTRS[i])
  {
  }

  lemma ReferenceNullsStored()
    ensures forall i :: 0 <= i < |REFERENCE_EXTRA| ==> NullStored(REFERENCE_EXTRA[i])
  {
  }

  lemma SubordinateNullsStored()
    ensures forall i :: 0 <= i < |SUBORDINATE_EXTRA| ==> NullStored(SUBORDINATE_EXTRA[i])
  {
  }

  /** Every null value of the attribute lists is stored unchanged, so every
      absent attribute with a null value round-trips. */
  lemma NullValuesStored(kind: Kind, i: int, tables: Tables)
    requires 0 <= i < |AttrsFor(kind)| && AttrsFor(kind)[i].Attr? && AttrsFor(kind)[i].nullValue.NullAs?
    ensures RoundTrips(AttrsFor(kind)[i], None, tables)
  {
    var d := AttrsFor(kind)[i];
    if i < |COMMON_ATTRS| {
      CommonNullsStored();
      assert d == COMMON_ATTRS[i];
    } else if kind == Reference {
      ReferenceNullsStored();
      assert d == REFERENCE_EXTRA[i - |COMMON_ATTRS|];
    } else {
      SubordinateNullsStored();
      assert d == SUBORDINATE_EXTRA[i - |COMMON_ATTRS|];
    }
    NullRoundTrips(d, tables);
  }

  /** A byte string round-trips when it fits its char array, holds no NUL
      and is not the null value. */
  lemma StrRoundTrips(d: Descriptor, s: string, tables: Tables)
    requires d.Attr? && d.transform == Str && ColumnOf(d.field).Chars?
    requires |s| <= ColumnOf(d.field).size && '\0' !in s
    requires d.nullValue != NullAs(Text(s))
    ensures RoundTrips(d, Text(s), tables)
  {
  }

  /** The empty string is lost where it is the null value: it packs to the
      empty string and comes back `None`. */
  lemma EmptyStringLossy(tables: Tables)
    ensures PackAttrValue(Attr(Source, NullAs(Text("")), Str), Text(""), tables) == (Ok(Text("")), tables)
    ensures UnpackAttr(Attr(Source, NullAs(Text("")), Str), Text(""), tables) == Ok(None)
  {
  }

  /** A date round-trips in any date column. */
  lemma DateRoundTrips(d: Descriptor, date: CalendarDate, tables: Tables)
    requires d.Attr? && d.transform == DateT && ColumnOf(d.field) == Unsigned(W32)
    requires d.nullValue.NullAs? ==> d.nullValue.packed == Int(0)
    ensures RoundTrips(d, Date(date), tables)
  {
    DateRoundTrip(date);
  }

  /** A whole number of minutes round-trips when its `±HHMM` fits the
      column; the null value of the slack offsets is never produced. */
  lemma OffsetRoundTrips(d: Descriptor, td: TimeDelta, tables: Tables)
    requires d.Attr? && d.transform == TimeOffsetT && ColumnOf(d.field) == Signed(W32)
    requires d.nullValue.NullAs? ==> d.nullValue.packed == Int(NULLSLACKOFFSET)
    requires Micros(td) % MICROS_PER_MINUTE == 0
    requires InRange(Signed(W32), PackOffset(td))
    ensures RoundTrips(d, Offset(td), tables)
  {
    WholeOffsetRoundTrip(td);
    PackOffsetNeverNull(td);
  }

  /** An offset without a null value packs `None` as zero, which comes back
      as a zero offset, not `None`. */
  lemma AbsentOffsetIsZero(d: Descriptor, tables: Tables)
    requires d.Attr? && d.transform == TimeOffsetT && d.nullValue == NoNull
    ensures PackAttrValue(d, None, tables) == (Ok(Int(0)), tables)
    ensures UnpackAttr(d, Int(0), tables) == Ok(Offset(FromMicros(0)))
  {
    assert UnpackOffset(0) == Ok(FromMicros(0));
  }

  /** The slack offsets: `None` packs to 0xA00 and 0xA00 comes back `None`,
      while a packed 0 is a real zero offset. */
  lemma SlackOffsets(tables: Tables)
    ensures var d := Attr(FloodBegins, NullAs(Int(NULLSLACKOFFSET)), TimeOffsetT);
      && PackAttrValue(d, None, tables) == (Ok(Int(0xA00)), tables)
      && UnpackAttr(d, Int(0xA00), tables) == Ok(None)
      && UnpackAttr(d, Int(0), tables) == Ok(Offset(FromMicros(0)))
  {
    assert UnpackOffset(0) == Ok(FromMicros(0));
  }

  /** A direction in `[0, 360)` round-trips; one outside is refused when
      packing and read as absent when unpacking. */
  lemma DirectionRoundTrips(d: Descriptor, dir: int, tables: Tables)
    requires d.Attr? && d.transform == DirectionT && ColumnOf(d.field) == Signed(W32)
    requires d.nullValue == NullAs(Int(361))
    ensures IsDirection(dir) ==> RoundTrips(d, Int(dir), tables)
    ensures !IsDirection(dir) ==> PackAttrValue(d, Int(dir), tables).0 == Err(ValueError)
    ensures !IsDirection(dir) ==> UnpackAttr(d, Int(dir), tables) == Ok(None)
  {
  }

  /** A fractional direction is truncated to its whole degrees. */
  lemma FractionalDirectionTruncated(tables: Tables)
    ensures PackAttrValue(Attr(MinDirection, NullAs(Int(361)), DirectionT), Float(42.5), tables).0 == Ok(Int(42))
  {
  }

  /** Extra fields round-trip when their keys and first value lines cannot
      be misread by the unpacking pattern and the folded text fits the
      column without a NUL. */
  lemma XFieldsRoundTrips(d: Descriptor, e: seq<(string, string)>, tables: Tables)
    requires d.Attr? && d.transform == XFieldsT && d.nullValue == NoNull && ColumnOf(d.field).Chars?
    requires Foldable(e) && |Fold(e)| <= ColumnOf(d.field).size && '\0' !in Fold(e)
    ensures RoundTrips(d, Fields(e), tables)
  {
    ParseFold(e, "");
    assert Fold(e) + "" == Fold(e);
  }

  /** A string packed into an open table comes back as itself, provided its
      index fits the column and is not the null index. */
  lemma TableRoundTrips(d: Descriptor, s: string, tables: Tables)
    requires d.Attr? && d.transform.StringTable?
    requires ColumnOf(d.field).Signed? || ColumnOf(d.field).Unsigned?
    requires var i := FindOrAdd(tables.Table(d.transform.id), s).0;
      InRange(ColumnOf(d.field), i) && d.nullValue != NullAs(Int(i))
    ensures RoundTrips(d, Text(s), tables)
  {
  }

  /** A string found in a closed table comes back as itself when its index
      fits the column; a string not in the table is refused and the table
      stays as it was. */
  lemma EnumRoundTrips(d: Descriptor, s: string, tables: Tables)
    requires d.Attr? && d.transform.StringEnum? && d.nullValue == NoNull
    requires ColumnOf(d.field).Signed? || ColumnOf(d.field).Unsigned?
    requires s in tables.Table(d.transform.id) ==> InRange(ColumnOf(d.field), Find(tables.Table(d.transform.id), s))
    ensures s in tables.Table(d.transform.id) ==> RoundTrips(d, Text(s), tables)
    ensures s !in tables.Table(d.transform.id) ==> PackAttrValue(d, Text(s), tables) == (Err(ValueError), tables)
  {
  }

  /** An absent table string packs to index 0; where 0 is not the null
      value it comes back as the table's first entry, or `Unknown`. */
  lemma AbsentTableString(d: Descriptor, tables: Tables)
    requires d.Attr? && (d.transform.StringTable? || d.transform.StringEnum?) && d.nullValue == NoNull
    ensures PackAttrValue(d, None, tables) == (Ok(Int(0)), tables)
    ensures UnpackAttr(d, Int(0), tables) == Ok(Text(Lookup(tables.Table(d.transform.id), 0)))
  {
  }

  /** A zero level multiplier is lost: it packs as 0.0, the null value, and
      comes back `None`. */
  lemma ZeroMultiplyLossy(tables: Tables)
    ensures var d := Attr(MinLevelMultiply, NullAs(Float(0.0)), Plain);
      && PackAttrValue(d, Float(0.0), tables) == (Ok(Float(0.0)), tables)
      && UnpackAttr(d, Float(0.0), tables) == Ok(None)
  {
  }

  /** A nonzero number round-trips in a plain floating point column. */
  lemma FloatRoundTrips(d: Descriptor, x: real, tables: Tables)
    requires d.Attr? && d.transform == Plain && (ColumnOf(d.field) == Single || ColumnOf(d.field) == Double)
    requires d.nullValue != NullAs(Float(x))
    ensures RoundTrips(d, Float(x), tables)
  {
  }

  /** Dates pack as `YYYYMMDD` and unpack back; 0 is the absent date. */
  lemma DateDescriptorVectors(tables: Tables)
    ensures var d := Attr(DateImported, NullAs(Int(0)), DateT);
      && PackAttrValue(d, Date(Ymd(2001, 2, 3)), tables) == (Ok(Int(20010203)), tables)
      && UnpackAttr(d, Int(20010203), tables) == Ok(Date(Ymd(2001, 2, 3)))
      && UnpackAttr(d, Int(0), tables) == Ok(None)
      && PackAttrValue(d, None, tables) == (Ok(Int(0)), tables)
  {
    DateVector();
  }
}
