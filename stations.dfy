/** The station classes: `ReferenceStation` and `SubordinateStation`, their
    attributes with defaults along the class hierarchy, and the keyword
    handling of `StationHeader.__init__` (libtcd/api.py). */
module Stations {
  import opened Results
  import opened Util
  import opened Values

  /** An `_attributes` list: names with their defaults, in order. */
  type Attributes = seq<(string, Value)>

  /** `StationHeader._attributes` */
  const HEADER_ATTRIBUTES: Attributes := [
    ("record_number", None),
    ("latitude", None),
    ("longitude", None),
    ("tzfile", Text("Unknown"))]

  /** `Station._attributes`; the default of `xfields` is the `OrderedDict`
      class, called for a fresh empty dict. */
  const STATION_ATTRIBUTES: Attributes := [
    ("country", Text("Unknown")),
    ("source", None),
    ("restriction", Text("Non-commercial use only")),
    ("comments", None),
    ("notes", Text("")),
    ("legalese", None),
    ("station_id_context", None),
    ("station_id", None),
    ("date_imported", None),
    ("xfields", Fields([])),
    ("direction_units", None),
    ("min_direction", None),
    ("max_direction", None),
    ("level_units", Text("Unknown"))]

  /** `ReferenceStation._attributes` */
  const REFERENCE_ATTRIBUTES: Attributes := [
    ("datum_offset", Float(0.0)),
    ("datum", Text("Unknown")),
    ("zone_offset", Offset(FromMicros(0))),
    ("expiration_date", None),
    ("months_on_station", Int(0)),
    ("last_date_on_station", None),
    ("confidence", Int(9))]

  /** `SubordinateStation._attributes` */
  const SUBORDINATE_ATTRIBUTES: Attributes := [
    ("min_time_add", None),
    ("min_level_add", Float(0.0)),
    ("min_level_multiply", None),
    ("max_time_add", None),
    ("max_level_add", Float(0.0)),
    ("max_level_multiply", None),
    ("flood_begins", None),
    ("ebb_begins", None)]

  function OwnAttributes(kind: Kind): Attributes {
    match kind
    case Reference => REFERENCE_ATTRIBUTES
    case Subordinate => SUBORDINATE_ATTRIBUTES
  }

  /** `_attrs()`: the `_attributes` of the classes along the method
      resolution order, the station class first, then `Station`, then
      `StationHeader` (the two header classes in between declare none). */
  function AttributesOf(kind: Kind): Attributes {
    OwnAttributes(kind) + STATION_ATTRIBUTES + HEADER_ATTRIBUTES
  }

  /** The second required parameter of the class's constructor. */
  function ExtraParameter(kind: Kind): string {
    match kind
    case Reference => "coefficients"
    case Subordinate => "reference_station"
  }

  function Names(a: Attributes): set<string> {
    set i | 0 <= i < |a| :: a[i].0
  }

  predicate DistinctNames(a: Attributes) {
    forall i, j :: 0 <= i < j < |a| ==> a[i].0 != a[j].0
  }

  /** Every keyword the class's constructor accepts. */
  function ParameterNames(kind: Kind): set<string> {
    Names(AttributesOf(kind)) + {"name", ExtraParameter(kind)}
  }

  /** The attribute loop of `StationHeader.__init__`: each attribute takes
      the keyword argument of its name, which is popped, or else its
      default. The result is the keyword arguments left over and the
      attributes set. */
  function Assign(a: Attributes, kwargs: map<string, Value>, attrs: map<string, Value>)
    : (map<string, Value>, map<string, Value>)
  {
    if a == [] then (kwargs, attrs)
    else
      var key := a[0].0;
      var value := if key in kwargs then kwargs[key] else a[0].1;
      Assign(a[1..], kwargs - {key}, attrs[key := value])
  }

  /** The attributes `StationHeader.__init__` sets, or the TypeError for a
      keyword argument that names no attribute. */
  function Initialised(a: Attributes, kwargs: map<string, Value>): Result<map<string, Value>> {
    var (left, attrs) := Assign(a, kwargs, map[]);
    if |left| != 0 then Err(TypeError) else Ok(attrs)
  }

  /** `StationHeader.__init__`'s loop, popping from the keyword arguments
      and setting attributes one at a time. */
  method InitAttributes(a: Attributes, kwargs: map<string, Value>) returns (r: Result<map<string, Value>>)
    ensures r == Initialised(a, kwargs)
  {
    var left := kwargs;
    var attrs: map<string, Value> := map[];
    var i := 0;
    while i < |a|
      invariant 0 <= i <= |a|
      invariant Assign(a[i..], left, attrs) == Assign(a, kwargs, map[])
    {
      assert a[i..][0] == a[i] && a[i..][1..] == a[i + 1..];
      var (key, default) := a[i];
      var value;
      if key in left {
        value := left[key];
        left := left - {key};
      } else {
        assert left - {key} == left;
        value := default;
      }
      attrs := attrs[key := value];
      i := i + 1;
    }
    if |left| != 0 {
      return Err(TypeError);
    }
    return Ok(attrs);
  }

  /** With distinct attribute names, the loop sets every attribute to its
      keyword argument if there is one and to its default otherwise, keeps
      the attributes set before, and leaves over exactly the keyword
      arguments that name no attribute. */
  lemma {:induction false} AssignMeaning(a: Attributes, kwargs: map<string, Value>, attrs: map<string, Value>)
    requires DistinctNames(a)
    ensures var (left, out) := Assign(a, kwargs, attrs);
      && left.Keys == kwargs.Keys - Names(a)
      && out.Keys == attrs.Keys + Names(a)
      && (forall i :: 0 <= i < |a| ==> out[a[i].0] == if a[i].0 in kwargs then kwargs[a[i].0] else a[i].1)
      && (forall k :: k in attrs && k !in Names(a) ==> out[k] == attrs[k])
  {
    if a != [] {
      var key := a[0].0;
      var value := if key in kwargs then kwargs[key] else a[0].1;
      var tail := a[1..];
      assert DistinctNames(tail) by {
        forall i, j | 0 <= i < j < |tail| ensures tail[i].0 != tail[j].0 {
          assert tail[i] == a[i + 1] && tail[j] == a[j + 1];
        }
      }
      AssignMeaning(tail, kwargs - {key}, attrs[key := value]);
      assert Names(a) == {key} + Names(tail) by {
        forall k | k in Names(a) ensures k in {key} + Names(tail) {
          var i :| 0 <= i < |a| && a[i].0 == k;
          if i > 0 { assert tail[i - 1] == a[i]; }
        }
        forall k | k in Names(tail) ensures k in Names(a) {
          var i :| 0 <= i < |tail| && tail[i].0 == k;
          assert a[i + 1] == tail[i];
        }
      }
      assert key !in Names(tail) by {
        forall i | 0 <= i < |tail| ensures tail[i].0 != key {
          assert tail[i] == a[i + 1];
        }
      }
      var out := Assign(a, kwargs, attrs).1;
      forall i | 0 <= i < |a|
        ensures out[a[i].0] == if a[i].0 in kwargs then kwargs[a[i].0] else a[i].1
      {
        if i > 0 {
          assert tail[i - 1] == a[i];
          assert a[i].0 != key;
        }
      }
    }
  }

  /** `StationHeader.__init__` succeeds exactly when every keyword argument
      names an attribute; each attribute is then its argument or its
      default. */
  lemma InitialisedMeaning(a: Attributes, kwargs: map<string, Value>)
    requires DistinctNames(a)
    ensures Initialised(a, kwargs).Ok? <==> kwargs.Keys <= Names(a)
    ensures Initialised(a, kwargs).Err? ==> Initialised(a, kwargs).error == TypeError
    ensures Initialised(a, kwargs).Ok? ==>
      && Initialised(a, kwargs).value.Keys == Names(a)
      && forall i :: 0 <= i < |a| ==>
           Initialised(a, kwargs).value[a[i].0] == if a[i].0 in kwargs then kwargs[a[i].0] else a[i].1
  {
    AssignMeaning(a, kwargs, map[]);
    var left := Assign(a, kwargs, map[]).0;
    if kwargs.Keys <= Names(a) {
      assert left.Keys == {};
    } else {
      var k :| k in kwargs && k !in Names(a);
      assert k in left;
    }
  }

  predicate Disjoint(a: Attributes, b: Attributes) {
    forall i, j :: 0 <= i < |a| && 0 <= j < |b| ==> a[i].0 != b[j].0
  }

  lemma {:induction false} DistinctConcat(a: Attributes, b: Attributes)
    requires DistinctNames(a) && DistinctNames(b) && Disjoint(a, b)
    ensures DistinctNames(a + b)
  {
    forall i, j | 0 <= i < j < |a + b| ensures (a + b)[i].0 != (a + b)[j].0 {
      if j < |a| {
      } else if i >= |a| {
        assert (a + b)[i] == b[i - |a|] && (a + b)[j] == b[j - |a|];
      } else {
        assert (a + b)[j] == b[j - |a|];
      }
    }
  }

  lemma {:induction false} DisjointConcat(a: Attributes, b: Attributes, c: Attributes)
    requires Disjoint(a, b) && Disjoint(a, c)
    ensures Disjoint(a, b + c)
  {
    forall i, j | 0 <= i < |a| && 0 <= j < |b + c| ensures a[i].0 != (b + c)[j].0 {
      if j >= |b| {
        assert (b + c)[j] == c[j - |b|];
      }
    }
  }

  lemma HeaderDistinct()
    ensures DistinctNames(HEADER_ATTRIBUTES)
  {
  }

  lemma StationDistinct()
    ensures DistinctNames(STATION_ATTRIBUTES)
  {
  }

  lemma ReferenceDistinct()
    ensures DistinctNames(REFERENCE_ATTRIBUTES)
  {
  }

  lemma SubordinateDistinct()
    ensures DistinctNames(SUBORDINATE_ATTRIBUTES)
  {
  }

  lemma StationHeaderDisjoint()
    ensures Disjoint(STATION_ATTRIBUTES, HEADER_ATTRIBUTES)
  {
  }

  lemma ReferenceDisjoint()
    ensures Disjoint(REFERENCE_ATTRIBUTES, STATION_ATTRIBUTES) && Disjoint(REFERENCE_ATTRIBUTES, HEADER_ATTRIBUTES)
  {
  }

  lemma SubordinateDisjoint()
    ensures Disjoint(SUBORDINATE_ATTRIBUTES, STATION_ATTRIBUTES) && Disjoint(SUBORDINATE_ATTRIBUTES, HEADER_ATTRIBUTES)
  {
  }

  /** No name is declared twice along the class hierarchy, and neither
      required parameter names an attribute. */
  lemma AttributesDistinct(kind: Kind)
    ensures DistinctNames(AttributesOf(kind))
    ensures "name" !in Names(AttributesOf(kind)) && ExtraParameter(kind) !in Names(AttributesOf(kind))
  {
    var own := OwnAttributes(kind);
    HeaderDistinct();
    StationDistinct();
    StationHeaderDisjoint();
    if kind == Reference {
      ReferenceDistinct();
      ReferenceDisjoint();
    } else {
      SubordinateDistinct();
      SubordinateDisjoint();
    }
    DistinctConcat(STATION_ATTRIBUTES, HEADER_ATTRIBUTES);
    DisjointConcat(own, STATION_ATTRIBUTES, HEADER_ATTRIBUTES);
    DistinctConcat(own, STATION_ATTRIBUTES + HEADER_ATTRIBUTES);
    assert AttributesOf(kind) == own + (STATION_ATTRIBUTES + HEADER_ATTRIBUTES);
    var parameters := [("name", None), (ExtraParameter(kind), None)];
    if kind == Reference {
      ReferenceParameters();
    } else {
      SubordinateParameters();
    }
    DisjointConcat(parameters, own, STATION_ATTRIBUTES);
    DisjointConcat(parameters, own + STATION_ATTRIBUTES, HEADER_ATTRIBUTES);
    assert AttributesOf(kind) == own + STATION_ATTRIBUTES + HEADER_ATTRIBUTES;
    assert parameters[0].0 == "name" && parameters[1].0 == ExtraParameter(kind);
  }

  lemma ReferenceParameters()
    ensures var parameters := [("name", None), ("coefficients", None)];
      && Disjoint(parameters, REFERENCE_ATTRIBUTES)
      && Disjoint(parameters, STATION_ATTRIBUTES)
      && Disjoint(parameters, HEADER_ATTRIBUTES)
  {
  }

  lemma SubordinateParameters()
    ensures var parameters := [("name", None), ("reference_station", None)];
      && Disjoint(parameters, SUBORDINATE_ATTRIBUTES)
      && Disjoint(parameters, STATION_ATTRIBUTES)
      && Disjoint(parameters, HEADER_ATTRIBUTES)
  {
  }

  /** `StationHeader.__init__` for a class with attributes `a` and a
      second required parameter `extra`: the required parameters are
      taken out of the keyword arguments and set, the rest go through the
      attribute loop. */
  function Build(kind: Kind, a: Attributes, extra: string, kwargs: map<string, Value>): (r: Result<Station>)
    requires DistinctNames(a) && "name" !in Names(a) && extra !in Names(a)
    ensures r.Ok? <==> "name" in kwargs && extra in kwargs && kwargs.Keys <= Names(a) + {"name", extra}
    ensures r.Err? ==> r.error == TypeError
    ensures r.Ok? ==> r.value.kind == kind && r.value.attrs.Keys == Names(a) + {"name", extra}
    ensures r.Ok? ==> forall k :: k in kwargs ==> r.value.attrs[k] == kwargs[k]
    ensures r.Ok? ==> forall i :: 0 <= i < |a| && a[i].0 !in kwargs ==> r.value.attrs[a[i].0] == a[i].1
  {
    if "name" !in kwargs || extra !in kwargs then Err(TypeError)
    else
      var rest := kwargs - {"name", extra};
      InitialisedMeaning(a, rest);
      var attrs :- Initialised(a, rest);
      Ok(Station(kind, attrs["name" := kwargs["name"]][extra := kwargs[extra]]))
  }

  /** `ReferenceStation(name, coefficients, **kw)` and
      `SubordinateStation(name, reference_station, **kw)` called with
      keyword arguments only: a TypeError when a required argument is
      missing or an argument names no parameter; otherwise a station whose
      attributes are the arguments given and the defaults for the rest. */
  function Construct(kind: Kind, kwargs: map<string, Value>): (r: Result<Station>)
    ensures r.Ok? <==> "name" in kwargs && ExtraParameter(kind) in kwargs && kwargs.Keys <= ParameterNames(kind)
    ensures r.Err? ==> r.error == TypeError
    ensures r.Ok? ==> r.value.kind == kind && r.value.attrs.Keys == ParameterNames(kind)
    ensures r.Ok? ==> forall k :: k in kwargs ==> r.value.attrs[k] == kwargs[k]
    ensures r.Ok? ==> forall i :: 0 <= i < |AttributesOf(kind)| && AttributesOf(kind)[i].0 !in kwargs ==>
      r.value.attrs[AttributesOf(kind)[i].0] == AttributesOf(kind)[i].1
  {
    AttributesDistinct(kind);
    Build(kind, AttributesOf(kind), ExtraParameter(kind), kwargs)
  }

  /** A station given only its required arguments gets every attribute's
      default; one missing its second required argument is a TypeError. */
  lemma RequiredOnly(kind: Kind, a: Attributes, extra: string, name: Value, x: Value)
    requires DistinctNames(a) && "name" !in Names(a) && extra !in Names(a) && extra != "name"
    ensures var r := Build(kind, a, extra, map["name" := name, extra := x]);
      && r.Ok?
      && r.value.attrs["name"] == name
      && r.value.attrs[extra] == x
      && forall i :: 0 <= i < |a| ==> r.value.attrs[a[i].0] == a[i].1
    ensures Build(kind, a, extra, map["name" := name]) == Err(TypeError)
  {
    var kwargs := map["name" := name, extra := x];
    forall i | 0 <= i < |a| ensures a[i].0 !in kwargs {
      assert a[i].0 in Names(a);
    }
  }

  /** Some of the documented defaults, at their places along the class
      hierarchy. */
  lemma DefaultVectors()
    ensures AttributesOf(Reference)[6] == ("confidence", Int(9))
    ensures AttributesOf(Reference)[16] == ("xfields", Fields([]))
    ensures AttributesOf(Subordinate)[25] == ("tzfile", Text("Unknown"))
  {
  }
}
