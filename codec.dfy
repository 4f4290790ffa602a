/** The record assembler: `_pack_tide_record` and `_unpack_tide_record`
    over all the descriptors of a station class, the special descriptors,
    and the resolution of a subordinate station's reference station
    against the records of the database (libtcd/api.py). */
module Codec {
  import opened Results
  import opened Values
  import opened Records
  import opened StringTables
  import opened Constituents
  import Coeffs = Coefficients
  import opened Descriptors
  import Stations

  /** What the codec reads and changes of a database: its records in
      order of record number, its string tables, and its constituent
      table. */
  datatype Db = Db(records: seq<TideRecord>, tables: Tables, constituents: seq<Constituent>)

  /** The keyword arguments a record is built from. */
  type Packed = map<Field, Value>

  /** What one descriptor's `pack` yields, in order. */
  type Pairs = seq<(Field, Value)>

  /** `_TIDE_RECORD_DEFAULTS`: the columns whose absent value is not zero. */
  const TIDE_RECORD_DEFAULTS: Packed := map[
    ReferenceStation := Int(-1),
    MinDirection := Int(361),
    MaxDirection := Int(361),
    FloodBegins := Int(NULLSLACKOFFSET),
    EbbBegins := Int(NULLSLACKOFFSET)]

  /** `dict.update` with a sequence of pairs, one pair at a time. */
  function Update(p: Packed, pairs: Pairs): Packed
    decreases |pairs|
  {
    if pairs == [] then p else Update(p[pairs[0].0 := pairs[0].1], pairs[1..])
  }

  /** `dict.update`: the keys of the pairs are added, each with the value
      of its last pair, and the other keys keep their values. */
  lemma {:induction false} UpdateMeaning(p: Packed, pairs: Pairs)
    ensures Update(p, pairs).Keys == p.Keys + KeysOf(pairs)
    ensures forall k :: 0 <= k < |pairs| && LastWithKey(pairs, k) ==> Update(p, pairs)[pairs[k].0] == pairs[k].1
    ensures forall f :: f in p && f !in KeysOf(pairs) ==> Update(p, pairs)[f] == p[f]
    decreases |pairs|
  {
    if pairs != [] {
      var rest := pairs[1..];
      UpdateMeaning(p[pairs[0].0 := pairs[0].1], rest);
      assert forall k :: 0 <= k < |rest| ==> rest[k] == pairs[k + 1];
      assert KeysOf(pairs) == {pairs[0].0} + KeysOf(rest) by {
        forall f | f in KeysOf(pairs) ensures f in {pairs[0].0} + KeysOf(rest) {
          var k :| 0 <= k < |pairs| && pairs[k].0 == f;
          if k > 0 { assert rest[k - 1].0 == f; }
        }
      }
      assert forall k :: 0 < k < |pairs| && LastWithKey(pairs, k) ==> LastWithKey(rest, k - 1);
      assert LastWithKey(pairs, 0) ==> pairs[0].0 !in KeysOf(rest);
    }
  }

  /** The keys of a sequence of pairs. */
  function KeysOf<K(==), V>(pairs: seq<(K, V)>): set<K> {
    set k | 0 <= k < |pairs| :: pairs[k].0
  }

  /** No pair after `pairs[i]` has its key. */
  predicate LastWithKey<K(==), V>(pairs: seq<(K, V)>, i: int)
    requires 0 <= i < |pairs|
  {
    forall j :: i < j < |pairs| ==> pairs[j].0 != pairs[i].0
  }

  /** Packing recurses from a subordinate station into its reference
      station, and no further. */
  function Rank(kind: Kind): nat {
    match kind
    case Reference => 1
    case Subordinate => 2
  }

  // ------------------------------------------------------------ packing

  /** `_coordinates.pack`: both coordinates, or `(0, 0)` when either is
      `None`. */
  function PackCoordinates(attrs: map<string, Value>): (r: Result<Pairs>)
    ensures "latitude" !in attrs || "longitude" !in attrs <==> r == Err(AttributeError)
    ensures r.Ok? && (attrs["latitude"] == None || attrs["longitude"] == None) ==>
      r.value == [(Latitude, Int(0)), (Longitude, Int(0))]
    ensures r.Ok? && attrs["latitude"] != None && attrs["longitude"] != None ==>
      r.value == [(Latitude, attrs["latitude"]), (Longitude, attrs["longitude"])]
  {
    if "latitude" !in attrs || "longitude" !in attrs then Err(AttributeError)
    else
      var latitude, longitude := attrs["latitude"], attrs["longitude"];
      if latitude == None || longitude == None then Ok([(Latitude, Int(0)), (Longitude, Int(0))])
      else Ok([(Latitude, latitude), (Longitude, longitude)])
  }

  /** `_coefficients.pack`: the station's coefficients laid out in the
      255 slots of the constituent table. */
  function PackCoefficientSlots(table: seq<Constituent>, attrs: map<string, Value>): (r: Result<Pairs>)
    ensures r.Ok? ==> "coefficients" in attrs && attrs["coefficients"].Coefficients?
    ensures r.Ok? ==>
      var slots := Coeffs.Packed(table, attrs["coefficients"].coefficients);
      slots.Ok? && r.value == [(Amplitude, Floats(slots.value.0)), (Epoch, Floats(slots.value.1))]
  {
    if "coefficients" !in attrs then Err(AttributeError)
    else match attrs["coefficients"]
      case Coefficients(cs) =>
        var (amplitudes, epochs) :- Coeffs.Packed(table, cs);
        Ok([(Amplitude, Floats(amplitudes)), (Epoch, Floats(epochs))])
      case _ => Err(TypeError)
  }

  /** `_pack_tide_record`: the defaults, updated with what every
      descriptor of the station's class yields, stored into a record.
      Packing can add strings to the tables and, for a subordinate station
      whose reference station is not yet stored, append that station; the
      second component is the database afterwards, also when packing
      fails part way. */
  function PackRecord(db: Db, st: Station): (r: (Result<TideRecord>, Db))
    decreases Rank(st.kind), 3, 0
  {
    ReferenceDescriptorPlace(st.kind);
    var (p, db1) := PackAll(db, st, AttrsFor(st.kind), TIDE_RECORD_DEFAULTS);
    if p.Err? then (Err(p.error), db1) else (Build(p.value), db1)
  }

  /** Where the reference-station descriptor may stand in a list. */
  predicate ResolvesOnlyIfSubordinate(st: Station, ds: seq<Descriptor>) {
    forall i :: 0 <= i < |ds| && ds[i].ReferenceStationD? ==> st.kind == Subordinate
  }

  lemma ReferenceDescriptorPlace(kind: Kind)
    ensures forall st: Station :: st.kind == kind ==> ResolvesOnlyIfSubordinate(st, AttrsFor(kind))
  {
    forall i | 0 <= i < |AttrsFor(kind)| && AttrsFor(kind)[i].ReferenceStationD? ensures kind == Subordinate {
      ReferenceOnlyInSubordinate(kind, i);
    }
  }

  /** `packed.update(chain.from_iterable(map(pack, attrs)))`, one
      descriptor at a time; the first failure ends it. */
  function PackAll(db: Db, st: Station, ds: seq<Descriptor>, packed: Packed): (r: (Result<Packed>, Db))
    requires ResolvesOnlyIfSubordinate(st, ds)
    decreases Rank(st.kind), 2, |ds|
  {
    if ds == [] then (Ok(packed), db)
    else
      var (out, db1) := PackDescriptor(db, st, ds[0]);
      if out.Err? then (Err(out.error), db1)
      else PackAll(db1, st, ds[1..], Update(packed, out.value))
  }

  /** One descriptor's `pack`. */
  function PackDescriptor(db: Db, st: Station, d: Descriptor): (r: (Result<Pairs>, Db))
    requires d.ReferenceStationD? ==> st.kind == Subordinate
    ensures r.0.Ok? ==> forall k :: 0 <= k < |r.0.value| ==> r.0.value[k].0 in Emits(d)
    decreases Rank(st.kind), 1, 0
  {
    match d
    case RecordNumberD => (Ok([]), db)
    case RecordTypeD =>
      var code := if st.kind == Reference then REFERENCE_STATION else SUBORDINATE_STATION;
      (Ok([(RecordType, Int(code))]), db)
    case CoordinatesD => (PackCoordinates(st.attrs), db)
    case CoefficientsD => (PackCoefficientSlots(db.constituents, st.attrs), db)
    case Attr(f, _, _) =>
      var (v, tables) := PackAttr(d, st.attrs, db.tables);
      (if v.Err? then Err(v.error) else Ok([(f, v.value)]), db.(tables := tables))
    case ReferenceStationD =>
      if "reference_station" !in st.attrs then (Err(AttributeError), db)
      else match st.attrs["reference_station"]
        case None => (Ok([(ReferenceStation, Int(-1))]), db)
        case StationValue(rs) =>
          if rs.kind != Reference then (Err(AssertionError), db)
          else
            var (i, db1) := ResolveReference(db, rs);
            (if i.Err? then Err(i.error) else Ok([(ReferenceStation, Int(i.value))]), db1)
        case _ => (Err(AssertionError), db)
  }

  /** `records_match`: the same record type and the same name. */
  predicate RecordsMatch(a: TideRecord, b: TideRecord) {
    a.recordType == b.recordType && a.name == b.name
  }

  /** The first record matching `target`, or -1. */
  function FindMatch(records: seq<TideRecord>, target: TideRecord): (k: int)
    ensures -1 <= k < |records|
    ensures k == -1 <==> forall j :: 0 <= j < |records| ==> !RecordsMatch(records[j], target)
    ensures k >= 0 ==> RecordsMatch(records[k], target) && forall j :: 0 <= j < k ==> !RecordsMatch(records[j], target)
  {
    if records == [] then -1
    else
      var k := FindMatch(records[..|records| - 1], target);
      if k >= 0 then k
      else if RecordsMatch(records[|records| - 1], target) then |records| - 1
      else -1
  }

  /** `Tcd.index`: the record number of the first stored record with the
      station's record type and name, or a ValueError. */
  function Index(db: Db, st: Station): (r: (Result<int>, Db))
    ensures var (t, db1) := PackRecord(db, st);
      && r.1 == db1
      && (t.Err? ==> r.0 == Err(t.error))
      && (t.Ok? ==> (r.0 == Err(ValueError) <==> forall j :: 0 <= j < |db1.records| ==> !RecordsMatch(db1.records[j], t.value)))
      && (t.Ok? && r.0.Ok? ==>
        exists j :: 0 <= j < |db1.records| && RecordsMatch(db1.records[j], t.value) && r.0.value == db1.records[j].recordNumber)
    decreases Rank(st.kind), 4, 0
  {
    var (t, db1) := PackRecord(db, st);
    if t.Err? then (Err(t.error), db1)
    else
      var k := FindMatch(db1.records, t.value);
      if k < 0 then (Err(ValueError), db1) else (Ok(db1.records[k].recordNumber), db1)
  }

  /** `Tcd._append`: the packed station stored as the next record. */
  function Append(db: Db, st: Station): (r: (Result<()>, Db))
    decreases Rank(st.kind), 4, 0
  {
    var (t, db1) := PackRecord(db, st);
    if t.Err? then (Err(t.error), db1)
    else (Ok(()), db1.(records := db1.records + [WithRecordNumber(t.value, |db1.records|)]))
  }

  /** `_reference_station.pack_value`: the index of the reference station,
      appending it when `index` raises a ValueError. */
  function ResolveReference(db: Db, st: Station): (r: (Result<int>, Db))
    decreases Rank(st.kind), 5, 0
  {
    var (i, db1) := Index(db, st);
    if i.Ok? || i.error != ValueError then (i, db1)
    else
      var (a, db2) := Append(db1, st);
      if a.Err? then (Err(a.error), db2) else (Ok(|db2.records| - 1), db2)
  }

  // ------------------------------------------------- what packing keeps

  lemma {:induction false} UpdateKeeps(p: Packed, pairs: Pairs, f: Field)
    requires forall k :: 0 <= k < |pairs| ==> pairs[k].0 != f
    ensures f in Update(p, pairs) <==> f in p
    ensures f in p ==> Update(p, pairs)[f] == p[f]
    decreases |pairs|
  {
    if pairs != [] {
      UpdateKeeps(p[pairs[0].0 := pairs[0].1], pairs[1..], f);
    }
  }

  /** A column no descriptor of the list yields keeps the value it had
      before the list was packed. */
  lemma {:induction false} PackAllKeeps(db: Db, st: Station, ds: seq<Descriptor>, packed: Packed, f: Field)
    requires ResolvesOnlyIfSubordinate(st, ds)
    requires forall i :: 0 <= i < |ds| ==> f !in Emits(ds[i])
    ensures var r := PackAll(db, st, ds, packed).0;
      r.Ok? ==> (f in r.value <==> f in packed) && (f in packed ==> r.value[f] == packed[f])
    decreases |ds|
  {
    if ds != [] {
      var (out, db1) := PackDescriptor(db, st, ds[0]);
      if out.Ok? {
        UpdateKeeps(packed, out.value, f);
        PackAllKeeps(db1, st, ds[1..], Update(packed, out.value), f);
      }
    }
  }

  /** Packing a list in two parts is packing the first part, then the
      second from where the first left off. */
  lemma {:induction false} PackAllConcat(db: Db, st: Station, a: seq<Descriptor>, b: seq<Descriptor>, packed: Packed)
    requires ResolvesOnlyIfSubordinate(st, a + b)
    ensures ResolvesOnlyIfSubordinate(st, a) && ResolvesOnlyIfSubordinate(st, b)
    ensures var (r, db1) := PackAll(db, st, a, packed);
      PackAll(db, st, a + b, packed) == if r.Err? then (Err(r.error), db1) else PackAll(db1, st, b, r.value)
    decreases |a|
  {
    assert forall i :: 0 <= i < |a| ==> (a + b)[i] == a[i];
    assert forall i :: 0 <= i < |b| ==> (a + b)[|a| + i] == b[i];
    if a != [] {
      assert (a + b)[0] == a[0] && (a + b)[1..] == a[1..] + b;
      var (out, db1) := PackDescriptor(db, st, a[0]);
      if out.Ok? {
        PackAllConcat(db1, st, a[1..], b, Update(packed, out.value));
      }
    } else {
      assert a + b == b;
    }
  }

  /** The columns only the first two descriptors, record number and
      record type, could yield. */
  lemma HeaderColumnsOnce(kind: Kind)
    ensures AttrsFor(kind)[..2] == [RecordNumberD, RecordTypeD]
    ensures forall i :: 2 <= i < |AttrsFor(kind)| ==>
      RecordType !in Emits(AttrsFor(kind)[i]) && RecordNumber !in Emits(AttrsFor(kind)[i])
  {
  }

  /** Columns of the subordinate record a reference station never yields. */
  lemma ReferenceLeavesSubordinateColumns()
    ensures forall i :: 0 <= i < |AttrsFor(Reference)| ==>
      ReferenceStation !in Emits(AttrsFor(Reference)[i])
      && FloodBegins !in Emits(AttrsFor(Reference)[i])
      && EbbBegins !in Emits(AttrsFor(Reference)[i])
  {
  }

  /** Over any list that starts with the record-number and record-type
      descriptors and yields neither column again. */
  lemma {:induction false} PackedHeaderOf(db: Db, st: Station, ds: seq<Descriptor>)
    requires ResolvesOnlyIfSubordinate(st, ds)
    requires |ds| >= 2 && ds[0] == RecordNumberD && ds[1] == RecordTypeD
    requires forall i :: 2 <= i < |ds| ==> RecordType !in Emits(ds[i]) && RecordNumber !in Emits(ds[i])
    ensures var p := PackAll(db, st, ds, TIDE_RECORD_DEFAULTS).0;
      p.Ok? ==>
        && RecordType in p.value
        && p.value[RecordType] == Int(if st.kind == Reference then REFERENCE_STATION else SUBORDINATE_STATION)
        && RecordNumber !in p.value
  {
    var code := if st.kind == Reference then REFERENCE_STATION else SUBORDINATE_STATION;
    var d1, d2 := ds[1..], ds[2..];
    assert d1[0] == RecordTypeD && d1[1..] == d2;
    assert PackDescriptor(db, st, ds[0]) == (Ok([]), db);
    assert Update(TIDE_RECORD_DEFAULTS, []) == TIDE_RECORD_DEFAULTS;
    assert PackAll(db, st, ds, TIDE_RECORD_DEFAULTS) == PackAll(db, st, d1, TIDE_RECORD_DEFAULTS);
    var p1 := TIDE_RECORD_DEFAULTS[RecordType := Int(code)];
    assert PackDescriptor(db, st, d1[0]) == (Ok([(RecordType, Int(code))]), db);
    assert Update(TIDE_RECORD_DEFAULTS, [(RecordType, Int(code))]) == p1;
    assert PackAll(db, st, d1, TIDE_RECORD_DEFAULTS) == PackAll(db, st, d2, p1);
    forall i | 0 <= i < |d2| ensures RecordType !in Emits(d2[i]) && RecordNumber !in Emits(d2[i]) {
      assert d2[i] == ds[i + 2];
    }
    PackAllKeeps(db, st, d2, p1, RecordType);
    PackAllKeeps(db, st, d2, p1, RecordNumber);
  }

  /** `_record_type.pack` and `_record_number.pack`: a packed record has
      record type 1 for a reference station and 2 for a subordinate one,
      and the codec never sets its record number, which stays zero. */
  lemma PackedHeader(db: Db, st: Station)
    ensures var r := PackRecord(db, st).0;
      r.Ok? ==>
        && r.value.recordType == (if st.kind == Reference then REFERENCE_STATION else SUBORDINATE_STATION)
        && r.value.recordNumber == 0
  {
    ReferenceDescriptorPlace(st.kind);
    HeaderColumnsOnce(st.kind);
    var ds := AttrsFor(st.kind);
    PackedHeaderOf(db, st, ds);
    var p := PackAll(db, st, ds, TIDE_RECORD_DEFAULTS).0;
    if p.Ok? {
      BuiltRecordType(p.value, if st.kind == Reference then REFERENCE_STATION else SUBORDINATE_STATION);
      BuiltRecordNumber(p.value);
    }
  }

  /** When no later descriptor yields the column `f`, the packed dict
      holds for `f` what it held once the descriptor at `k` had been
      packed, from where the descriptors before it left off. */
  lemma {:induction false} PackAllAt(db: Db, st: Station, ds: seq<Descriptor>, packed: Packed, k: int, f: Field)
    requires ResolvesOnlyIfSubordinate(st, ds)
    requires 0 <= k < |ds|
    requires forall j :: k < j < |ds| ==> f !in Emits(ds[j])
    ensures ResolvesOnlyIfSubordinate(st, ds[..k])
    ensures var r, (p, dbk) := PackAll(db, st, ds, packed).0, PackAll(db, st, ds[..k], packed);
      r.Ok? ==>
        && p.Ok? && PackDescriptor(dbk, st, ds[k]).0.Ok?
        && var u := Update(p.value, PackDescriptor(dbk, st, ds[k]).0.value);
          (f in r.value <==> f in u) && (f in u ==> r.value[f] == u[f])
  {
    var a, b := ds[..k], ds[k..];
    assert a + b == ds;
    PackAllConcat(db, st, a, b, packed);
    var (p, dbk) := PackAll(db, st, a, packed);
    if p.Ok? {
      assert b[0] == ds[k] && b[1..] == ds[k + 1..];
      var (out, db1) := PackDescriptor(dbk, st, ds[k]);
      if out.Ok? {
        var c := ds[k + 1..];
        forall j | 0 <= j < |c| ensures f !in Emits(c[j]) {
          assert c[j] == ds[k + 1 + j];
        }
        PackAllKeeps(db1, st, c, Update(p.value, out.value), f);
      }
    }
  }

  /** `_attr_descriptor.pack` ends up in the record: the column of a plain
      descriptor holds the attribute's packed value, converted to the
      column's type. A string-table index is the one found or added in the
      tables as the descriptors before it left them. */
  lemma PackedColumn(db: Db, st: Station, k: int)
    requires 0 <= k < |AttrsFor(st.kind)| && AttrsFor(st.kind)[k].Attr?
    ensures ResolvesOnlyIfSubordinate(st, AttrsFor(st.kind)[..k])
    ensures var d, r := AttrsFor(st.kind)[k], PackRecord(db, st).0;
      var name, tables := FieldName(d.field), PackAll(db, st, AttrsFor(st.kind)[..k], TIDE_RECORD_DEFAULTS).1.tables;
      r.Ok? ==>
        && name in st.attrs
        && PackAttrValue(d, st.attrs[name], tables).0.Ok?
        && Convert(ColumnOf(d.field), PackAttrValue(d, st.attrs[name], tables).0.value).Ok?
        && Get(r.value, d.field) == Convert(ColumnOf(d.field), PackAttrValue(d, st.attrs[name], tables).0.value).value
  {
    ReferenceDescriptorPlace(st.kind);
    var ds := AttrsFor(st.kind);
    var d := ds[k];
    assert d.field in Emits(ds[k]);
    PackAllAt(db, st, ds, TIDE_RECORD_DEFAULTS, k, d.field);
  }

  /** A descriptor whose transform reads no string table packs the same
      value whatever the tables. */
  lemma PackedColumnOf(db: Db, st: Station, k: int)
    requires 0 <= k < |AttrsFor(st.kind)| && AttrsFor(st.kind)[k].Attr?
    requires !AttrsFor(st.kind)[k].transform.StringTable? && !AttrsFor(st.kind)[k].transform.StringEnum?
    ensures var d, r := AttrsFor(st.kind)[k], PackRecord(db, st).0;
      var name := FieldName(d.field);
      r.Ok? ==>
        && name in st.attrs
        && PackAttrValue(d, st.attrs[name], db.tables).0.Ok?
        && Convert(ColumnOf(d.field), PackAttrValue(d, st.attrs[name], db.tables).0.value).Ok?
        && Get(r.value, d.field) == Convert(ColumnOf(d.field), PackAttrValue(d, st.attrs[name], db.tables).0.value).value
  {
    PackedColumn(db, st, k);
    var d, r := AttrsFor(st.kind)[k], PackRecord(db, st).0;
    if r.Ok? {
      var name := FieldName(d.field);
      var tables := PackAll(db, st, AttrsFor(st.kind)[..k], TIDE_RECORD_DEFAULTS).1.tables;
      PackAttrValueIgnoresTables(d, st.attrs[name], tables, db.tables);
    }
  }

  /** `_string.pack` of the name: a packed record's name column is the
      station's name, stored into it. */
  lemma PackedName(db: Db, st: Station)
    ensures var r := PackRecord(db, st).0;
      r.Ok? ==>
        && "name" in st.attrs
        && Convert(ColumnOf(Name), st.attrs["name"]).Ok?
        && Get(r.value, Name) == Convert(ColumnOf(Name), st.attrs["name"]).value
  {
    var ds := AttrsFor(st.kind);
    assert ds[2] == COMMON_ATTRS[2] == Attr(Name, NoNull, Str);
    assert FieldName(Name) == "name";
    PackedColumnOf(db, st, 2);
    var d := Attr(Name, NoNull, Str);
    var r := PackRecord(db, st).0;
    if r.Ok? {
      assert "name" in st.attrs;
      assert PackAttrValue(d, st.attrs["name"], db.tables).0 == Ok(st.attrs["name"]);
    }
  }

  /** `_reference_station.pack` ends up in the record: a subordinate
      record's reference column is -1 for no reference station, and
      otherwise the index `_reference_station.pack_value` answered for it,
      wrapped to the column's 32 bits. */
  lemma PackedReference(db: Db, st: Station)
    requires st.kind == Subordinate
    ensures ResolvesOnlyIfSubordinate(st, AttrsFor(st.kind)[..|COMMON_ATTRS|])
    ensures var r, dbk := PackRecord(db, st).0, PackAll(db, st, AttrsFor(st.kind)[..|COMMON_ATTRS|], TIDE_RECORD_DEFAULTS).1;
      r.Ok? ==>
        && "reference_station" in st.attrs
        && (st.attrs["reference_station"] == None ==> r.value.referenceStation == -1)
        && (st.attrs["reference_station"] != None ==>
          && st.attrs["reference_station"].StationValue?
          && st.attrs["reference_station"].station.kind == Reference
          && ResolveReference(dbk, st.attrs["reference_station"].station).0.Ok?
          && r.value.referenceStation == WrapSigned(ResolveReference(dbk, st.attrs["reference_station"].station).0.value, W32))
  {
    ReferenceDescriptorPlace(st.kind);
    var ds := AttrsFor(st.kind);
    var k := |COMMON_ATTRS|;
    assert ds[k] == ReferenceStationD;
    PackAllAt(db, st, ds, TIDE_RECORD_DEFAULTS, k, ReferenceStation);
    var p := PackAll(db, st, ds, TIDE_RECORD_DEFAULTS).0;
    var (pk, dbk) := PackAll(db, st, ds[..k], TIDE_RECORD_DEFAULTS);
    if p.Ok? {
      var out := PackDescriptor(dbk, st, ReferenceStationD).0;
      var i := ReferencePacked(dbk, st);
      assert Update(pk.value, out.value) == pk.value[ReferenceStation := Int(i)];
      assert p.value[ReferenceStation] == Int(i);
      BuiltSigned(p.value, ReferenceStation, i);
    }
  }

  /** The pair `_reference_station.pack` yields: -1 for no reference
      station, otherwise the index `pack_value` answered. */
  lemma ReferencePacked(db: Db, st: Station) returns (i: int)
    requires st.kind == Subordinate
    ensures var out := PackDescriptor(db, st, ReferenceStationD).0;
      out.Ok? ==>
        && out.value == [(ReferenceStation, Int(i))]
        && "reference_station" in st.attrs
        && (st.attrs["reference_station"] == None ==> i == -1)
        && (st.attrs["reference_station"] != None ==>
          && st.attrs["reference_station"].StationValue?
          && st.attrs["reference_station"].station.kind == Reference
          && ResolveReference(db, st.attrs["reference_station"].station).0 == Ok(i))
  {
    var out := PackDescriptor(db, st, ReferenceStationD).0;
    i := -1;
    if out.Ok? {
      i := out.value[0].1.i;
    }
  }

  /** A reference station packs the defaults of the columns only a
      subordinate station fills: no reference station (-1) and no slack
      offsets (`NULLSLACKOFFSET`). */
  lemma ReferenceKeepsDefaults(db: Db, st: Station)
    requires st.kind == Reference
    ensures var r := PackRecord(db, st).0;
      r.Ok? ==>
        && r.value.referenceStation == -1
        && r.value.floodBegins == NULLSLACKOFFSET
        && r.value.ebbBegins == NULLSLACKOFFSET
  {
    ReferenceDescriptorPlace(Reference);
    ReferenceLeavesSubordinateColumns();
    KeepsDefaultsOf(db, st, AttrsFor(Reference));
    var p := PackAll(db, st, AttrsFor(Reference), TIDE_RECORD_DEFAULTS).0;
    if p.Ok? {
      BuiltDefaults(p.value);
    }
  }

  lemma KeepsDefaultsOf(db: Db, st: Station, ds: seq<Descriptor>)
    requires ResolvesOnlyIfSubordinate(st, ds)
    requires forall i :: 0 <= i < |ds| ==>
      ReferenceStation !in Emits(ds[i]) && FloodBegins !in Emits(ds[i]) && EbbBegins !in Emits(ds[i])
    ensures var p := PackAll(db, st, ds, TIDE_RECORD_DEFAULTS).0;
      p.Ok? ==> KeepsSubordinateDefaults(p.value)
  {
    PackAllKeeps(db, st, ds, TIDE_RECORD_DEFAULTS, ReferenceStation);
    PackAllKeeps(db, st, ds, TIDE_RECORD_DEFAULTS, FloodBegins);
    PackAllKeeps(db, st, ds, TIDE_RECORD_DEFAULTS, EbbBegins);
  }

  predicate KeepsSubordinateDefaults(p: Packed) {
    && ReferenceStation in p && p[ReferenceStation] == Int(-1)
    && FloodBegins in p && p[FloodBegins] == Int(NULLSLACKOFFSET)
    && EbbBegins in p && p[EbbBegins] == Int(NULLSLACKOFFSET)
  }

  lemma BuiltDefaults(p: Packed)
    requires KeepsSubordinateDefaults(p)
    ensures Build(p).Ok? ==>
      && Build(p).value.referenceStation == -1
      && Build(p).value.floodBegins == NULLSLACKOFFSET
      && Build(p).value.ebbBegins == NULLSLACKOFFSET
  {
    BuiltNoReference(p);
    BuiltFloodBegins(p, NULLSLACKOFFSET);
    BuiltEbbBegins(p, NULLSLACKOFFSET);
  }

  // ------------------------------------------- what packing does to the records

  /** The native store numbers the records by their position. */
  predicate Numbered(records: seq<TideRecord>) {
    forall i :: 0 <= i < |records| ==> records[i].recordNumber == i
  }

  /** `db1` is `db` with records appended, if any, and the same
      constituent table; numbering by position is kept. */
  predicate Extends(db: Db, db1: Db) {
    && db.records <= db1.records
    && db1.constituents == db.constituents
    && (Numbered(db.records) ==> Numbered(db1.records))
  }

  lemma ExtendsTransitive(db: Db, db1: Db, db2: Db)
    requires Extends(db, db1) && Extends(db1, db2)
    ensures Extends(db, db2)
  {
  }

  /** Packing a station only appends records, and only a subordinate
      station's reference station is appended. */
  lemma {:induction false} PackRecordExtends(db: Db, st: Station)
    ensures Extends(db, PackRecord(db, st).1)
    ensures st.kind == Reference ==> PackRecord(db, st).1.records == db.records
    decreases Rank(st.kind), 3, 0
  {
    ReferenceDescriptorPlace(st.kind);
    PackAllExtends(db, st, AttrsFor(st.kind), TIDE_RECORD_DEFAULTS);
  }

  lemma {:induction false} PackAllExtends(db: Db, st: Station, ds: seq<Descriptor>, packed: Packed)
    requires ResolvesOnlyIfSubordinate(st, ds)
    ensures Extends(db, PackAll(db, st, ds, packed).1)
    ensures st.kind == Reference ==> PackAll(db, st, ds, packed).1.records == db.records
    decreases Rank(st.kind), 2, |ds|
  {
    if ds != [] {
      var (out, db1) := PackDescriptor(db, st, ds[0]);
      PackDescriptorExtends(db, st, ds[0]);
      if out.Ok? {
        PackAllExtends(db1, st, ds[1..], Update(packed, out.value));
        ExtendsTransitive(db, db1, PackAll(db1, st, ds[1..], Update(packed, out.value)).1);
      }
    }
  }

  lemma {:induction false} PackDescriptorExtends(db: Db, st: Station, d: Descriptor)
    requires d.ReferenceStationD? ==> st.kind == Subordinate
    ensures Extends(db, PackDescriptor(db, st, d).1)
    ensures st.kind == Reference ==> PackDescriptor(db, st, d).1.records == db.records
    decreases Rank(st.kind), 1, 0
  {
    if d.ReferenceStationD? && "reference_station" in st.attrs {
      match st.attrs["reference_station"]
      case StationValue(rs) =>
        if rs.kind == Reference {
          ResolveReferenceExtends(db, rs);
        }
      case _ =>
    }
  }

  /** `index` answers the record number of a stored record that matches
      the packed station; in a numbered database that is its position. */
  lemma {:induction false} IndexExtends(db: Db, st: Station)
    ensures var (i, db1) := Index(db, st);
      && Extends(db, db1)
      && (Numbered(db.records) && i.Ok? ==>
        && 0 <= i.value < |db1.records|
        && RecordsMatch(db1.records[i.value], PackRecord(db, st).0.value))
    decreases Rank(st.kind), 4, 0
  {
    PackRecordExtends(db, st);
  }

  /** `_append` stores the packed station as the last record, numbered
      by its position. */
  lemma {:induction false} AppendExtends(db: Db, st: Station)
    ensures var (a, db2) := Append(db, st);
      && Extends(db, db2)
      && (a.Ok? ==>
        var (t, db1) := PackRecord(db, st);
        && t.Ok?
        && db2.records == db1.records + [WithRecordNumber(t.value, |db1.records|)])
    decreases Rank(st.kind), 4, 0
  {
    PackRecordExtends(db, st);
  }

  /** `_reference_station.pack_value`: the index it answers for a
      reference station names a reference record of the database
      afterwards, found or appended, that carries the station's name and
      matches the record the station packs to. */
  lemma {:induction false} ResolveReferenceExtends(db: Db, st: Station)
    ensures var (i, db2) := ResolveReference(db, st);
      && Extends(db, db2)
      && (Numbered(db.records) && st.kind == Reference && i.Ok? ==>
        && 0 <= i.value < |db2.records|
        && db2.records[i.value].recordType == REFERENCE_STATION
        && db2.records[i.value].recordNumber == i.value
        && "name" in st.attrs
        && Convert(ColumnOf(Name), st.attrs["name"]).Ok?
        && Get(db2.records[i.value], Name) == Convert(ColumnOf(Name), st.attrs["name"]).value
        && (PackRecord(db, st).0.Ok? ==> RecordsMatch(db2.records[i.value], PackRecord(db, st).0.value)))
    decreases Rank(st.kind), 5, 0
  {
    var (i, db1) := Index(db, st);
    IndexExtends(db, st);
    if i.Ok? {
      assert ResolveReference(db, st) == (i, db1);
    } else if i.error == ValueError {
      var (a, db2) := Append(db1, st);
      AppendExtends(db1, st);
      ExtendsTransitive(db, db1, db2);
    }
    if Numbered(db.records) && st.kind == Reference {
      ResolvedReference(db, st);
    }
  }

  /** The record `_reference_station.pack_value` answers for a reference
      station, found or appended. */
  lemma {:induction false} ResolvedReference(db: Db, st: Station)
    requires Numbered(db.records) && st.kind == Reference
    ensures var (i, db2) := ResolveReference(db, st);
      i.Ok? ==> HoldsReference(db2, i.value, st, PackRecord(db, st).0)
    decreases Rank(st.kind), 4, 2
  {
    var (i, db1) := Index(db, st);
    IndexExtends(db, st);
    if i.Ok? {
      assert ResolveReference(db, st) == (i, db1);
      FoundReference(db, st);
    } else if i.error == ValueError {
      var (a, db2) := Append(db1, st);
      if a.Ok? {
        assert ResolveReference(db, st) == (Ok(|db2.records| - 1), db2);
        AppendedReference(db1, st);
        PackedName(db, st);
        PackedHeader(db, st);
        var n := |db2.records| - 1;
        var t := PackRecord(db, st).0;
        if t.Ok? {
          GetName(db2.records[n]);
          GetName(t.value);
        }
      }
    }
  }

  /** The record at `n` is a reference record numbered `n` that carries
      the station's name and matches `t`, when `t` is a record. */
  predicate HoldsReference(db: Db, n: int, st: Station, t: Result<TideRecord>) {
    && 0 <= n < |db.records|
    && db.records[n].recordType == REFERENCE_STATION
    && db.records[n].recordNumber == n
    && "name" in st.attrs
    && Convert(ColumnOf(Name), st.attrs["name"]).Ok?
    && Get(db.records[n], Name) == Convert(ColumnOf(Name), st.attrs["name"]).value
    && (t.Ok? ==> RecordsMatch(db.records[n], t.value))
  }

  /** The record `index` finds for a reference station. */
  lemma {:induction false} FoundReference(db: Db, st: Station)
    requires Numbered(db.records) && st.kind == Reference
    ensures var (i, db1) := Index(db, st);
      i.Ok? ==> HoldsReference(db1, i.value, st, PackRecord(db, st).0)
    decreases Rank(st.kind), 4, 1
  {
    var (i, db1) := Index(db, st);
    if i.Ok? {
      IndexExtends(db, st);
      PackedName(db, st);
      PackedHeader(db, st);
      var t := PackRecord(db, st).0;
      var rec := db1.records[i.value];
      assert RecordsMatch(rec, t.value);
      GetName(rec);
      GetName(t.value);
    }
  }

  /** The record `_append` stores for a reference station. */
  lemma {:induction false} AppendedReference(db: Db, st: Station)
    requires Numbered(db.records) && st.kind == Reference
    ensures var (a, db2) := Append(db, st);
      a.Ok? ==> HoldsReference(db2, |db2.records| - 1, st, PackRecord(db, st).0)
    decreases Rank(st.kind), 4, 1
  {
    var (a, db2) := Append(db, st);
    AppendExtends(db, st);
    if a.Ok? {
      PackedHeader(db, st);
      PackedName(db, st);
      var n := |db2.records| - 1;
      var t := PackRecord(db, st).0.value;
      assert db2.records[n] == WithRecordNumber(t, n);
      assert db2.records[n].name == t.name && db2.records[n].recordType == t.recordType;
    }
  }

  // ---------------------------------------------------------- unpacking

  /** Unpacking recurses from a subordinate record into its reference
      record, and no further. */
  function URank(rec: TideRecord): nat {
    if rec.recordType == REFERENCE_STATION then 0 else 1
  }

  /** The keywords a descriptor's `unpack` can yield. */
  function Yields(d: Descriptor): set<string> {
    match d
    case RecordNumberD => {"record_number"}
    case RecordTypeD => {}
    case CoordinatesD => {"latitude", "longitude"}
    case CoefficientsD => {"coefficients"}
    case ReferenceStationD => {"reference_station"}
    case Attr(f, _, _) => {FieldName(f)}
  }

  /** The exceptions reading a record can raise. An IndexError comes
      from reading a reference record that is not stored. */
  predicate UnpackError(e: Error) {
    e == ValueError || e == AssertionError || e == TypeError || e == AttributeError || e == IndexError
  }

  /** `dict(pairs)`: later pairs win. */
  function ToKwargs(pairs: seq<(string, Value)>): (m: map<string, Value>)
    ensures m.Keys == set i | 0 <= i < |pairs| :: pairs[i].0
  {
    if pairs == [] then map[]
    else
      var init := pairs[..|pairs| - 1];
      var m := ToKwargs(init)[pairs[|pairs| - 1].0 := pairs[|pairs| - 1].1];
      assert forall i :: 0 <= i < |init| ==> init[i] == pairs[i];
      m
  }

  /** `dict(pairs)` holds for each key the value of its last pair. */
  lemma {:induction false} ToKwargsLast(pairs: seq<(string, Value)>)
    ensures forall i :: 0 <= i < |pairs| && LastWithKey(pairs, i) ==> ToKwargs(pairs)[pairs[i].0] == pairs[i].1
  {
    if pairs != [] {
      var init := pairs[..|pairs| - 1];
      var last := pairs[|pairs| - 1];
      ToKwargsLast(init);
      assert ToKwargs(pairs) == ToKwargs(init)[last.0 := last.1];
      forall i | 0 <= i < |pairs| && LastWithKey(pairs, i) ensures ToKwargs(pairs)[pairs[i].0] == pairs[i].1 {
        if i < |init| {
          LastInInit(pairs, i);
        }
      }
    }
  }

  /** The last pair with its key, other than the very last pair, is also
      the last with its key once the very last pair is dropped. */
  lemma LastInInit<K, V>(pairs: seq<(K, V)>, i: int)
    requires 0 <= i < |pairs| - 1 && LastWithKey(pairs, i)
    ensures pairs[i].0 != pairs[|pairs| - 1].0
    ensures pairs[..|pairs| - 1][i] == pairs[i]
    ensures LastWithKey(pairs[..|pairs| - 1], i)
  {
    var init := pairs[..|pairs| - 1];
    forall j | i < j < |init| ensures init[j].0 != init[i].0 {
      assert init[j] == pairs[j];
    }
  }

  /** `_unpack_tide_record`: dispatch on the record type, unpack every
      descriptor of that class, and call the class with the result as
      keyword arguments. */
  function UnpackRecord(db: Db, rec: TideRecord): (r: Result<Station>)
    ensures rec.recordType != REFERENCE_STATION && rec.recordType != SUBORDINATE_STATION ==> r == Err(AssertionError)
    ensures r.Ok? ==> r.value.kind == (if rec.recordType == REFERENCE_STATION then Reference else Subordinate)
    ensures r.Err? ==> UnpackError(r.error)
    decreases URank(rec), 2, 0
  {
    if rec.recordType != REFERENCE_STATION && rec.recordType != SUBORDINATE_STATION then Err(AssertionError)
    else
      var kind := if rec.recordType == REFERENCE_STATION then Reference else Subordinate;
      ReferenceDescriptorUnpackPlace(kind, rec);
      var pairs :- UnpackAll(db, rec, AttrsFor(kind));
      Stations.Construct(kind, ToKwargs(pairs))
  }

  predicate ResolvesOnlyIfNotReference(rec: TideRecord, ds: seq<Descriptor>) {
    forall i :: 0 <= i < |ds| && ds[i].ReferenceStationD? ==> rec.recordType != REFERENCE_STATION
  }

  lemma ReferenceDescriptorUnpackPlace(kind: Kind, rec: TideRecord)
    requires kind == Reference ==> rec.recordType == REFERENCE_STATION
    requires kind == Subordinate ==> rec.recordType == SUBORDINATE_STATION
    ensures ResolvesOnlyIfNotReference(rec, AttrsFor(kind))
  {
    forall i | 0 <= i < |AttrsFor(kind)| && AttrsFor(kind)[i].ReferenceStationD?
      ensures rec.recordType != REFERENCE_STATION
    {
      ReferenceOnlyInSubordinate(kind, i);
    }
  }

  /** `chain.from_iterable(map(unpack, attrs))`, stopping at the first
      failure. */
  function UnpackAll(db: Db, rec: TideRecord, ds: seq<Descriptor>): (r: Result<seq<(string, Value)>>)
    requires ResolvesOnlyIfNotReference(rec, ds)
    ensures r.Err? ==> UnpackError(r.error)
    decreases URank(rec), 1, |ds|
  {
    if ds == [] then Ok([])
    else
      var first :- UnpackDescriptor(db, rec, ds[0]);
      var rest :- UnpackAll(db, rec, ds[1..]);
      Ok(first + rest)
  }

  /** One descriptor's `unpack`. */
  function UnpackDescriptor(db: Db, rec: TideRecord, d: Descriptor): (r: Result<seq<(string, Value)>>)
    requires d.ReferenceStationD? ==> rec.recordType != REFERENCE_STATION
    ensures r.Err? ==> UnpackError(r.error)
    ensures r.Ok? ==> forall k :: 0 <= k < |r.value| ==> r.value[k].0 in Yields(d)
    ensures d.ReferenceStationD? && rec.referenceStation != -1 && !(0 <= rec.referenceStation < |db.records|) ==>
      r == Err(IndexError)
    decreases URank(rec), 0, 0
  {
    match d
    case RecordNumberD => Ok([("record_number", Int(rec.recordNumber))])
    case RecordTypeD => Ok([])
    case CoordinatesD =>
      if rec.latitude == 0.0 && rec.longitude == 0.0 then Ok([("latitude", None), ("longitude", None)])
      else Ok([("latitude", Float(rec.latitude)), ("longitude", Float(rec.longitude))])
    case CoefficientsD =>
      Ok([("coefficients", Coefficients(Coeffs.Unpacked(db.constituents, rec.amplitude, rec.epoch)))])
    case Attr(f, _, _) =>
      var v :- UnpackAttr(d, Get(rec, f), db.tables);
      Ok([(FieldName(f), v)])
    case ReferenceStationD =>
      var i := rec.referenceStation;
      if i == -1 then Ok([("reference_station", None)])
      else if !(0 <= i < |db.records|) then Err(IndexError)
      else
        var refrec := db.records[i];
        if refrec.recordType != REFERENCE_STATION then Err(AssertionError)
        else
          var rs :- UnpackRecord(db, refrec);
          Ok([("reference_station", StationValue(rs))])
  }

  /** `Tcd.__getitem__`: a negative index counts from the end; an index
      outside the records is an IndexError. A stored record can raise one
      too, when its reference station is not stored. */
  function GetItem(db: Db, i: int): (r: Result<Station>)
    ensures !(-|db.records| <= i < |db.records|) ==> r == Err(IndexError)
    ensures 0 <= i < |db.records| ==> r == UnpackRecord(db, db.records[i])
  {
    var j := if i < 0 then i + |db.records| else i;
    if 0 <= j < |db.records| then UnpackRecord(db, db.records[j]) else Err(IndexError)
  }

  /** A negative index names the same record as that index plus the
      number of records. */
  lemma NegativeIndex(db: Db, i: int)
    requires -|db.records| <= i < 0
    ensures GetItem(db, i) == GetItem(db, i + |db.records|)
    ensures GetItem(db, i) == UnpackRecord(db, db.records[|db.records| + i])
  {
  }

  /** A keyword no descriptor of the list yields is absent from what the
      list unpacks to. */
  lemma {:induction false} UnpackAllOmits(db: Db, rec: TideRecord, ds: seq<Descriptor>, key: string)
    requires ResolvesOnlyIfNotReference(rec, ds)
    requires forall i :: 0 <= i < |ds| ==> key !in Yields(ds[i])
    ensures var r := UnpackAll(db, rec, ds);
      r.Ok? ==> forall k :: 0 <= k < |r.value| ==> r.value[k].0 != key
    decreases |ds|
  {
    if ds != [] {
      UnpackAllOmits(db, rec, ds[1..], key);
    }
  }

  /** Unpacking a list in two parts: when the whole succeeds, so does
      each part, and the pairs are those of the first part followed by
      those of the second. */
  lemma {:induction false} UnpackAllConcat(db: Db, rec: TideRecord, a: seq<Descriptor>, b: seq<Descriptor>)
    requires ResolvesOnlyIfNotReference(rec, a + b)
    ensures ResolvesOnlyIfNotReference(rec, a) && ResolvesOnlyIfNotReference(rec, b)
    ensures UnpackAll(db, rec, a + b).Ok? ==>
      && UnpackAll(db, rec, a).Ok? && UnpackAll(db, rec, b).Ok?
      && UnpackAll(db, rec, a + b).value == UnpackAll(db, rec, a).value + UnpackAll(db, rec, b).value
    decreases |a|
  {
    assert forall i :: 0 <= i < |a| ==> (a + b)[i] == a[i];
    assert forall i :: 0 <= i < |b| ==> (a + b)[|a| + i] == b[i];
    if a != [] {
      assert (a + b)[0] == a[0] && (a + b)[1..] == a[1..] + b;
      UnpackAllConcat(db, rec, a[1..], b);
    } else {
      assert a + b == b;
    }
  }

  /** A keyword that names a column is yielded only by the descriptor that
      packs that column, the record number aside. */
  lemma YieldedNameEmitted(d: Descriptor, f: Field)
    requires d != RecordNumberD
    ensures FieldName(f) in Yields(d) ==> f in Emits(d)
  {
    match d
    case Attr(g, _, _) => YieldedByAttr(f, g);
    case CoordinatesD => YieldedByCoordinates(f);
    case ReferenceStationD => YieldedByReference(f);
    case CoefficientsD => YieldedByCoefficients(f);
    case RecordTypeD =>
  }

  lemma YieldedByAttr(f: Field, g: Field)
    ensures FieldName(f) in {FieldName(g)} ==> f in {g}
  {
    FieldNameInjective(f, g);
  }

  lemma YieldedByCoordinates(f: Field)
    ensures FieldName(f) in {"latitude", "longitude"} ==> f in {Latitude, Longitude}
  {
    NamedOnlyLatitude(f);
    NamedOnlyLongitude(f);
  }

  lemma YieldedByReference(f: Field)
    ensures FieldName(f) in {"reference_station"} ==> f in {ReferenceStation}
  {
    NamedOnlyReferenceStation(f);
  }

  lemma YieldedByCoefficients(f: Field)
    ensures FieldName(f) in {"coefficients"} ==> f in {Amplitude, Epoch}
  {
    NoColumnNamedCoefficients(f);
  }

  lemma RecordNumberFirst(kind: Kind)
    ensures forall i :: 0 < i < |AttrsFor(kind)| ==> AttrsFor(kind)[i] != RecordNumberD
  {
  }

  /** `_attr_descriptor.unpack` ends up in the station: a read station's
      attribute is the column's value unpacked by the attribute's
      descriptor. */
  lemma UnpackedAttr(db: Db, rec: TideRecord, kind: Kind, k: int)
    requires rec.recordType == if kind == Reference then REFERENCE_STATION else SUBORDINATE_STATION
    requires 0 <= k < |AttrsFor(kind)| && AttrsFor(kind)[k].Attr?
    ensures var d, r := AttrsFor(kind)[k], UnpackRecord(db, rec);
      r.Ok? ==>
        && UnpackAttr(d, Get(rec, d.field), db.tables).Ok?
        && FieldName(d.field) in r.value.attrs
        && r.value.attrs[FieldName(d.field)] == UnpackAttr(d, Get(rec, d.field), db.tables).value
  {
    ReferenceDescriptorUnpackPlace(kind, rec);
    UnpackedPairs(db, rec, kind, k);
  }

  /** The keyword arguments a record unpacks to hold, for the keyword of a
      plain descriptor, the value that descriptor unpacked. */
  lemma UnpackedPairs(db: Db, rec: TideRecord, kind: Kind, k: int)
    requires ResolvesOnlyIfNotReference(rec, AttrsFor(kind))
    requires 0 <= k < |AttrsFor(kind)| && AttrsFor(kind)[k].Attr?
    ensures var d, all := AttrsFor(kind)[k], UnpackAll(db, rec, AttrsFor(kind));
      all.Ok? ==>
        && UnpackAttr(d, Get(rec, d.field), db.tables).Ok?
        && FieldName(d.field) in ToKwargs(all.value)
        && ToKwargs(all.value)[FieldName(d.field)] == UnpackAttr(d, Get(rec, d.field), db.tables).value
  {
    var ds := AttrsFor(kind);
    var d := ds[k];
    var name := FieldName(d.field);
    var c := ds[k + 1..];
    UnpackedAround(db, rec, ds, k);
    LaterNeverYields(kind, k);
    forall j | 0 <= j < |c| ensures name !in Yields(c[j]) {
      assert c[j] == ds[k + 1 + j];
    }
    UnpackAllOmits(db, rec, c, name);
    var all := UnpackAll(db, rec, ds);
    if all.Ok? {
      var v := UnpackAttr(d, Get(rec, d.field), db.tables);
      KwargsAt(UnpackAll(db, rec, ds[..k]).value, name, v.value, UnpackAll(db, rec, c).value);
    }
  }

  /** What a list unpacks to, around its plain descriptor at `k`: the
      pairs before it, that descriptor's one pair, and the pairs after. */
  lemma UnpackedAround(db: Db, rec: TideRecord, ds: seq<Descriptor>, k: int)
    requires ResolvesOnlyIfNotReference(rec, ds)
    requires 0 <= k < |ds| && ds[k].Attr?
    ensures ResolvesOnlyIfNotReference(rec, ds[..k]) && ResolvesOnlyIfNotReference(rec, ds[k + 1..])
    ensures var d, all := ds[k], UnpackAll(db, rec, ds);
      all.Ok? ==>
        && UnpackAll(db, rec, ds[..k]).Ok? && UnpackAll(db, rec, ds[k + 1..]).Ok?
        && UnpackAttr(d, Get(rec, d.field), db.tables).Ok?
        && all.value == UnpackAll(db, rec, ds[..k]).value
          + [(FieldName(d.field), UnpackAttr(d, Get(rec, d.field), db.tables).value)]
          + UnpackAll(db, rec, ds[k + 1..]).value
  {
    var a, b := ds[..k], ds[k..];
    assert a + b == ds;
    UnpackAllConcat(db, rec, a, b);
    assert b[1..] == ds[k + 1..];
    UnpackedHead(db, rec, b);
  }

  /** A list that starts with a plain descriptor unpacks to that
      descriptor's one pair followed by what the rest unpacks to. */
  lemma UnpackedHead(db: Db, rec: TideRecord, ds: seq<Descriptor>)
    requires ResolvesOnlyIfNotReference(rec, ds)
    requires ds != [] && ds[0].Attr?
    ensures ResolvesOnlyIfNotReference(rec, ds[1..])
    ensures var d, all := ds[0], UnpackAll(db, rec, ds);
      all.Ok? ==>
        && UnpackAll(db, rec, ds[1..]).Ok?
        && UnpackAttr(d, Get(rec, d.field), db.tables).Ok?
        && all.value == [(FieldName(d.field), UnpackAttr(d, Get(rec, d.field), db.tables).value)]
          + UnpackAll(db, rec, ds[1..]).value
  {
    assert forall i :: 0 <= i < |ds[1..]| ==> ds[1..][i] == ds[i + 1];
  }

  /** No descriptor after a plain one yields its keyword. */
  lemma LaterNeverYields(kind: Kind, k: int)
    requires 0 <= k < |AttrsFor(kind)| && AttrsFor(kind)[k].Attr?
    ensures forall j :: k < j < |AttrsFor(kind)| ==> FieldName(AttrsFor(kind)[k].field) !in Yields(AttrsFor(kind)[j])
  {
    var ds := AttrsFor(kind);
    RecordNumberFirst(kind);
    forall j | k < j < |ds| ensures FieldName(ds[k].field) !in Yields(ds[j]) {
      YieldedNameEmitted(ds[j], ds[k].field);
      assert ds[k].field in Emits(ds[k]);
    }
  }

  /** A keyword whose one pair is followed by none with the same keyword
      keeps that pair's value in `dict(pairs)`. */
  lemma KwargsAt(pa: seq<(string, Value)>, name: string, v: Value, pc: seq<(string, Value)>)
    requires forall j :: 0 <= j < |pc| ==> pc[j].0 != name
    ensures name in ToKwargs(pa + [(name, v)] + pc)
    ensures ToKwargs(pa + [(name, v)] + pc)[name] == v
  {
    var pairs := pa + [(name, v)] + pc;
    LastPairAt(pa, name, v, pc);
    ToKwargsLast(pairs);
    assert LastWithKey(pairs, |pa|);
  }

  lemma LastPairAt(pa: seq<(string, Value)>, name: string, v: Value, pc: seq<(string, Value)>)
    requires forall j :: 0 <= j < |pc| ==> pc[j].0 != name
    ensures |pa| < |pa + [(name, v)] + pc|
    ensures (pa + [(name, v)] + pc)[|pa|] == (name, v)
    ensures LastWithKey(pa + [(name, v)] + pc, |pa|)
  {
    var pairs := pa + [(name, v)] + pc;
    var i := |pa|;
    forall j | i < j < |pairs| ensures pairs[j].0 != name {
      assert pairs[j] == pc[j - i - 1];
    }
  }

  /** `_record_type.unpack` yields nothing and no other descriptor yields
      `record_type`, so the class is never called with it. */
  lemma UnpackOmitsRecordType(db: Db, rec: TideRecord, kind: Kind)
    requires kind == Reference ==> rec.recordType == REFERENCE_STATION
    requires kind == Subordinate ==> rec.recordType == SUBORDINATE_STATION
    ensures ResolvesOnlyIfNotReference(rec, AttrsFor(kind))
    ensures var r := UnpackAll(db, rec, AttrsFor(kind));
      r.Ok? ==> forall k :: 0 <= k < |r.value| ==> r.value[k].0 != "record_type"
  {
    ReferenceDescriptorUnpackPlace(kind, rec);
    HeaderColumnsOnce(kind);
    var ds := AttrsFor(kind);
    forall i | 0 <= i < |ds| ensures "record_type" !in Yields(ds[i]) {
      if ds[i].Attr? {
        RecordTypeName(ds[i].field);
        assert i >= 2 ==> RecordType !in Emits(ds[i]);
      }
    }
    UnpackAllOmits(db, rec, ds, "record_type");
  }

  /** `_coordinates`: what packing yields, stored into the two columns
      and unpacked again. Both coordinates come back, except that a
      station missing either one, or at (0, 0), comes back with neither. */
  lemma CoordinatesRoundTrip(db: Db, attrs: map<string, Value>, rec: TideRecord)
    requires PackCoordinates(attrs).Ok?
    requires Convert(ColumnOf(Latitude), PackCoordinates(attrs).value[0].1) == Ok(Float(rec.latitude))
    requires Convert(ColumnOf(Longitude), PackCoordinates(attrs).value[1].1) == Ok(Float(rec.longitude))
    ensures var (latitude, longitude) := (attrs["latitude"], attrs["longitude"]);
      var u := UnpackDescriptor(db, rec, CoordinatesD);
      && (latitude == None || longitude == None ==> u == Ok([("latitude", None), ("longitude", None)]))
      && (latitude.Float? && longitude.Float? ==>
        u == if latitude.r == 0.0 && longitude.r == 0.0 then Ok([("latitude", None), ("longitude", None)])
             else Ok([("latitude", latitude), ("longitude", longitude)]))
      && (latitude.Int? && longitude.Int? && (latitude.i != 0 || longitude.i != 0) ==>
        u == Ok([("latitude", Float(latitude.i as real)), ("longitude", Float(longitude.i as real))]))
  {
  }
}
