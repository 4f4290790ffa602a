/** The string tables of a tide database (time zones, countries,
    restrictions, legal notices, datums, level and direction units), as
    abstract lists behaving like the native lookups: `get_*`, `find_*` and
    `find_or_add_*`. */
module StringTables {

  /** The string `get_*` returns for an index outside the table. */
  const UNKNOWN: string := "Unknown"

  /** `get_*(i)`: the entry at `i`, or "Unknown" outside the table. */
  function Lookup(t: seq<string>, i: int): (s: string)
    ensures 0 <= i < |t| ==> s == t[i]
    ensures !(0 <= i < |t|) ==> s == UNKNOWN
  {
    if 0 <= i < |t| then t[i] else UNKNOWN
  }

  /** `find_*(s)`: the first index holding `s`, or -1. */
  function Find(t: seq<string>, s: string): (i: int)
    ensures -1 <= i < |t|
    ensures i == -1 <==> s !in t
    ensures i >= 0 ==> t[i] == s && forall j :: 0 <= j < i ==> t[j] != s
  {
    if t == [] then -1
    else if t[0] == s then 0
    else
      var k := Find(t[1..], s);
      if k < 0 then -1 else k + 1
  }

  /** `find_or_add_*(s)`: the index of `s`, appending it first when it is
      missing; the second component is the table afterwards. */
  function FindOrAdd(t: seq<string>, s: string): (r: (int, seq<string>))
    ensures 0 <= r.0 < |r.1| && r.1[r.0] == s
    ensures t <= r.1
    ensures s in t ==> r == (Find(t, s), t)
    ensures s !in t ==> r == (|t|, t + [s])
  {
    var i := Find(t, s);
    if i < 0 then (|t|, t + [s]) else (i, t)
  }

  /** Looking up what `find_or_add_*` returned gives the string back. */
  lemma LookupAfterFindOrAdd(t: seq<string>, s: string)
    ensures Lookup(FindOrAdd(t, s).1, FindOrAdd(t, s).0) == s
  {
  }

  /** A second `find_or_add_*` of the same string returns the same index
      and leaves the table as it is. */
  lemma FindOrAddIdempotent(t: seq<string>, s: string)
    ensures var (i, t1) := FindOrAdd(t, s); FindOrAdd(t1, s) == (i, t1)
  {
    var (i, t1) := FindOrAdd(t, s);
    if s !in t {
      assert t1[|t|] == s;
      FindPastPrefix(t, s);
    }
  }

  /** A string missing from `t` is first found where it was appended. */
  lemma {:induction false} FindPastPrefix(t: seq<string>, s: string)
    requires s !in t
    ensures Find(t + [s], s) == |t|
  {
    if t != [] {
      assert (t + [s])[1..] == t[1..] + [s];
      FindPastPrefix(t[1..], s);
    }
  }

  /** Adding strings to a table never moves the existing entries, so every
      index handed out earlier still looks up the same string. */
  lemma FindOrAddKeepsEntries(t: seq<string>, s: string, i: int)
    requires 0 <= i < |t|
    ensures Lookup(FindOrAdd(t, s).1, i) == Lookup(t, i)
  {
  }

  /** The vectors of the table tests: "Unknown" at 0 and "fü" at 1; index
      2 and -1 read as "Unknown"; "missing" is appended at 2 and read back;
      a closed table reports it absent. */
  lemma TableVectors()
    ensures var t := [UNKNOWN, "fü"];
      && Lookup(t, 1) == "fü" && Lookup(t, 2) == UNKNOWN && Lookup(t, -1) == UNKNOWN
      && FindOrAdd(t, UNKNOWN) == (0, t)
      && FindOrAdd(t, "missing") == (2, t + ["missing"])
      && Lookup(t + ["missing"], 2) == "missing"
      && Find(t, "missing") == -1
  {
  }

  /** The tables of a database. */
  datatype TableId = Tzfiles | Countries | Restrictions | Legaleses | Datums | LevelUnitTypes | DirUnitTypes

  datatype Tables = Tables(
    tzfiles: seq<string>, countries: seq<string>, restrictions: seq<string>,
    legaleses: seq<string>, datums: seq<string>, levelUnits: seq<string>, dirUnits: seq<string>)
  {
    function Table(id: TableId): seq<string> {
      match id
      case Tzfiles => tzfiles
      case Countries => countries
      case Restrictions => restrictions
      case Legaleses => legaleses
      case Datums => datums
      case LevelUnitTypes => levelUnits
      case DirUnitTypes => dirUnits
    }

    function WithTable(id: TableId, t: seq<string>): (r: Tables)
      ensures r.Table(id) == t
      ensures forall other :: other != id ==> r.Table(other) == Table(other)
    {
      match id
      case Tzfiles => this.(tzfiles := t)
      case Countries => this.(countries := t)
      case Restrictions => this.(restrictions := t)
      case Legaleses => this.(legaleses := t)
      case Datums => this.(datums := t)
      case LevelUnitTypes => this.(levelUnits := t)
      case DirUnitTypes => this.(dirUnits := t)
    }

    /** Every table of `this` is a prefix of the same table of `later`. */
    predicate GrowsTo(later: Tables) {
      forall id :: Table(id) <= later.Table(id)
    }
  }

  lemma GrowsToTransitive(a: Tables, b: Tables, c: Tables)
    requires a.GrowsTo(b) && b.GrowsTo(c)
    ensures a.GrowsTo(c)
  {
    forall id ensures a.Table(id) <= c.Table(id) {
      assert a.Table(id) <= b.Table(id) && b.Table(id) <= c.Table(id);
    }
  }
}
