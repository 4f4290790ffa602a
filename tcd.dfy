/** The `Tcd` object seen from the codec: a tide database whose records
    and string tables the codec reads and changes in place (libtcd/api.py).
    Each method here does step by step what the functions of `Codec`
    define; their contracts tie the two together. */
module TideDb {
  import opened Results
  import opened Values
  import opened Records
  import opened StringTables
  import opened Constituents
  import opened Descriptors
  import opened Codec

  class Tcd {
    /** The records in order of record number. */
    var records: seq<TideRecord>
    /** The string tables of the database. */
    var tables: Tables
    /** The constituent table, fixed when the database is created. */
    const constituents: seq<Constituent>

    /** The database as the functions of `Codec` see it. */
    function State(): Codec.Db
      reads this
    {
      Codec.Db(records, tables, constituents)
    }

    /** A new database: no records yet, the given tables and constituents. */
    constructor (table: seq<Constituent>, initial: Tables)
      ensures State() == Codec.Db([], initial, table)
    {
      records := [];
      tables := initial;
      constituents := table;
    }

    /** `len(tcd)`: the number of records. */
    method Len() returns (n: int)
      ensures n == |records|
    {
      n := |records|;
    }

    /** `tcd[i]`: the station stored at `i`, counting from the end for a
        negative `i`; an IndexError when there is no such record. */
    method GetItem(i: int) returns (r: Result<Station>)
      ensures r == Codec.GetItem(State(), i)
      ensures !(-|records| <= i < |records|) ==> r == Err(IndexError)
      ensures -|records| <= i < |records| ==>
        r == UnpackRecord(State(), records[if i < 0 then i + |records| else i])
    {
      var j := i;
      if j < 0 {
        j := j + |records|;
      }
      if 0 <= j < |records| {
        r := UnpackRecord(State(), records[j]);
      } else {
        r := Err(IndexError);
      }
    }

    /** One descriptor's `pack`, resolving a reference station against the
        records of this database. */
    method PackDescriptor(st: Station, d: Descriptor) returns (r: Result<Pairs>)
      requires d.ReferenceStationD? ==> st.kind == Subordinate
      modifies this
      ensures r == Codec.PackDescriptor(old(State()), st, d).0
      ensures State() == Codec.PackDescriptor(old(State()), st, d).1
      decreases Rank(st.kind), 1
    {
      match d
      case Attr(f, _, _) =>
        var (v, t) := PackAttr(d, st.attrs, tables);
        tables := t;
        r := if v.Err? then Err(v.error) else Ok([(f, v.value)]);
      case ReferenceStationD =>
        if "reference_station" !in st.attrs {
          r := Err(AttributeError);
        } else {
          match st.attrs["reference_station"]
          case None =>
            r := Ok([(ReferenceStation, Int(-1))]);
          case StationValue(rs) =>
            if rs.kind != Reference {
              r := Err(AssertionError);
            } else {
              var i := ResolveReference(rs);
              r := if i.Err? then Err(i.error) else Ok([(ReferenceStation, Int(i.value))]);
            }
          case _ =>
            r := Err(AssertionError);
        }
      case _ =>
        r := Codec.PackDescriptor(State(), st, d).0;
    }

    /** `_pack_tide_record`: a copy of the defaults, updated with what each
        descriptor of the station's class yields in turn, stored into a
        record. */
    method PackTideRecord(st: Station) returns (r: Result<TideRecord>)
      modifies this
      ensures r == PackRecord(old(State()), st).0
      ensures State() == PackRecord(old(State()), st).1
      ensures Extends(old(State()), State())
      decreases Rank(st.kind), 3
    {
      ghost var db0 := State();
      PackRecordExtends(db0, st);
      ReferenceDescriptorPlace(st.kind);
      var ds := AttrsFor(st.kind);
      var packed := TIDE_RECORD_DEFAULTS;
      var i := 0;
      while i < |ds|
        invariant 0 <= i <= |ds|
        invariant ResolvesOnlyIfSubordinate(st, ds[i..])
        invariant PackAll(State(), st, ds[i..], packed) == PackAll(db0, st, ds, TIDE_RECORD_DEFAULTS)
      {
        assert ds[i..][0] == ds[i] && ds[i..][1..] == ds[i + 1..];
        var out := PackDescriptor(st, ds[i]);
        if out.Err? {
          return Err(out.error);
        }
        packed := Update(packed, out.value);
        i := i + 1;
      }
      r := Build(packed);
    }

    /** The position of the first record that `records_match` the
        target, or -1 when none does. */
    method FindRecord(target: TideRecord) returns (k: int)
      ensures k == FindMatch(records, target)
      ensures k >= 0 ==> RecordsMatch(records[k], target)
    {
      k := 0;
      while k < |records|
        invariant 0 <= k <= |records|
        invariant forall j :: 0 <= j < k ==> !RecordsMatch(records[j], target)
      {
        if RecordsMatch(records[k], target) {
          return;
        }
        k := k + 1;
      }
      k := -1;
    }

    /** `index`: the record number of the first stored record with the
        station's record type and name, or a ValueError. */
    method Index(st: Station) returns (r: Result<int>)
      modifies this
      ensures r == Codec.Index(old(State()), st).0
      ensures State() == Codec.Index(old(State()), st).1
      decreases Rank(st.kind), 4
    {
      var t := PackTideRecord(st);
      if t.Err? {
        return Err(t.error);
      }
      var k := FindRecord(t.value);
      r := if k < 0 then Err(ValueError) else Ok(records[k].recordNumber);
    }

    /** `_append`: the packed station stored as the next record. */
    method Append(st: Station) returns (r: Result<()>)
      modifies this
      ensures r == Codec.Append(old(State()), st).0
      ensures State() == Codec.Append(old(State()), st).1
      decreases Rank(st.kind), 4
    {
      var t := PackTideRecord(st);
      if t.Err? {
        return Err(t.error);
      }
      records := records + [WithRecordNumber(t.value, |records|)];
      r := Ok(());
    }

    /** `_reference_station.pack_value`: the index of a stored record
        matching the station, appending the station when there is none. */
    method ResolveReference(st: Station) returns (r: Result<int>)
      modifies this
      ensures r == Codec.ResolveReference(old(State()), st).0
      ensures State() == Codec.ResolveReference(old(State()), st).1
      ensures Extends(old(State()), State())
      ensures Numbered(old(records)) && st.kind == Reference && r.Ok? ==>
        && 0 <= r.value < |records| && records[r.value].recordType == REFERENCE_STATION
        && "name" in st.attrs && Convert(ColumnOf(Name), st.attrs["name"]).Ok?
        && Get(records[r.value], Name) == Convert(ColumnOf(Name), st.attrs["name"]).value
        && (PackRecord(old(State()), st).0.Ok? ==> RecordsMatch(records[r.value], PackRecord(old(State()), st).0.value))
      decreases Rank(st.kind), 5
    {
      ghost var before := State();
      ResolveReferenceExtends(before, st);
      r := Index(st);
      if r.Err? && r.error == ValueError {
        var a := Append(st);
        r := if a.Err? then Err(a.error) else Ok(|records| - 1);
      }
      assert (r, State()) == Codec.ResolveReference(before, st);
    }
  }
}
