/** Tidal constituents, their per-year node factors, and the packing of a
    constituent table into the parallel arrays the native library takes
    (`Constituent`, `NodeFactor`, `NodeFactors` and `Tcd._pack_constituents`
    in libtcd/api.py). */
module Constituents {
  import opened Results

  datatype NodeFactor = NodeFactor(equilibrium: real, nodeFactor: real)

  /** `NodeFactors`: one entry per year, for the years
      `startYear .. startYear + |factors| - 1`. */
  datatype NodeFactors = NodeFactors(startYear: int, factors: seq<NodeFactor>) {

    /** One past the last year covered. */
    function EndYear(): int {
      startYear + |factors|
    }

    /** The years the mapping iterates over. */
    predicate HasYear(year: int) {
      startYear <= year < EndYear()
    }
  }

  datatype Constituent = Constituent(name: string, speed: real, nodeFactors: NodeFactors)

  /** `NodeFactors.__getitem__` as the source writes it: a Python list index
      of `year - start_year`, so a negative offset counts from the end of
      the list and an offset past the end raises IndexError. */
  function FactorAtAsWritten(nf: NodeFactors, year: int): (r: Result<NodeFactor>)
    ensures nf.HasYear(year) ==> r == Ok(nf.factors[year - nf.startYear])
    ensures r.Err? <==> !(nf.startYear - |nf.factors| <= year < nf.EndYear())
    ensures r.Err? ==> r.error == IndexError
  {
    var k := year - nf.startYear;
    if 0 <= k < |nf.factors| then Ok(nf.factors[k])
    else if -|nf.factors| <= k < 0 then Ok(nf.factors[|nf.factors| + k])
    else Err(IndexError)
  }

  /** `year in node_factors` as written: the `Mapping` mix-in's membership
      test calls `__getitem__` and treats only KeyError as absence. */
  function ContainsAsWritten(nf: NodeFactors, year: int): Result<bool> {
    match FactorAtAsWritten(nf, year)
    case Ok(_) => Ok(true)
    case Err(KeyError) => Ok(false)
    case Err(e) => Err(e)
  }

  /** The year before the range reads the last year's entry, the year
      after it raises IndexError, and neither is reported as absent. */
  lemma FactorAtAsWrittenOutOfRange()
    ensures var nf := NodeFactors(1970, [NodeFactor(0.0, 1.0), NodeFactor(1.0, 1.0), NodeFactor(2.0, 1.0)]);
      && !nf.HasYear(1969) && !nf.HasYear(1973)
      && FactorAtAsWritten(nf, 1969) == Ok(NodeFactor(2.0, 1.0))
      && ContainsAsWritten(nf, 1969) == Ok(true)
      && ContainsAsWritten(nf, 1973) == Err(IndexError)
  {
  }

  /** The mapping with its key set being exactly the years it iterates
      over: any other year is a KeyError. */
  function FactorAt(nf: NodeFactors, year: int): (r: Result<NodeFactor>)
    ensures r.Ok? <==> nf.HasYear(year)
    ensures r.Ok? ==> r.value == nf.factors[year - nf.startYear]
    ensures r.Err? ==> r.error == KeyError
  {
    if nf.HasYear(year) then Ok(nf.factors[year - nf.startYear]) else Err(KeyError)
  }

  /** Membership under the corrected lookup. */
  function Contains(nf: NodeFactors, year: int): (b: bool)
    ensures b <==> nf.HasYear(year)
  {
    FactorAt(nf, year).Ok?
  }

  /** On the years the mapping covers, the source's lookup and the
      corrected one agree. */
  lemma FactorAtAgrees(nf: NodeFactors, year: int)
    requires nf.HasYear(year)
    ensures FactorAtAsWritten(nf, year) == FactorAt(nf, year)
  {
  }

  /** The latest start year over a non-empty table (`max` of the start years). */
  function MaxStart(cs: seq<Constituent>): int
    requires |cs| > 0
  {
    if |cs| == 1 then cs[0].nodeFactors.startYear
    else
      var rest := MaxStart(cs[1..]);
      if cs[0].nodeFactors.startYear >= rest then cs[0].nodeFactors.startYear else rest
  }

  /** The earliest end year over a non-empty table (`min` of the end years). */
  function MinEnd(cs: seq<Constituent>): int
    requires |cs| > 0
  {
    if |cs| == 1 then cs[0].nodeFactors.EndYear()
    else
      var rest := MinEnd(cs[1..]);
      if cs[0].nodeFactors.EndYear() <= rest then cs[0].nodeFactors.EndYear() else rest
  }

  lemma {:induction false} MaxStartIsMaximum(cs: seq<Constituent>)
    requires |cs| > 0
    ensures forall i :: 0 <= i < |cs| ==> cs[i].nodeFactors.startYear <= MaxStart(cs)
    ensures exists i :: 0 <= i < |cs| && cs[i].nodeFactors.startYear == MaxStart(cs)
  {
    if |cs| > 1 {
      MaxStartIsMaximum(cs[1..]);
      forall i | 1 <= i < |cs|
        ensures cs[i].nodeFactors.startYear <= MaxStart(cs)
      {
        assert cs[i] == cs[1..][i - 1];
      }
      var k :| 0 <= k < |cs[1..]| && cs[1..][k].nodeFactors.startYear == MaxStart(cs[1..]);
      assert cs[k + 1] == cs[1..][k];
      assert MaxStart(cs) == if cs[0].nodeFactors.startYear >= MaxStart(cs[1..]) then cs[0].nodeFactors.startYear else MaxStart(cs[1..]);
      if cs[0].nodeFactors.startYear < MaxStart(cs[1..]) {
        assert cs[k + 1].nodeFactors.startYear == MaxStart(cs);
      } else {
        assert cs[0].nodeFactors.startYear == MaxStart(cs);
      }
    } else {
      assert cs[0].nodeFactors.startYear == MaxStart(cs);
    }
  }

  lemma {:induction false} MinEndIsMinimum(cs: seq<Constituent>)
    requires |cs| > 0
    ensures forall i :: 0 <= i < |cs| ==> MinEnd(cs) <= cs[i].nodeFactors.EndYear()
    ensures exists i :: 0 <= i < |cs| && cs[i].nodeFactors.EndYear() == MinEnd(cs)
  {
    if |cs| > 1 {
      MinEndIsMinimum(cs[1..]);
      forall i | 1 <= i < |cs|
        ensures MinEnd(cs) <= cs[i].nodeFactors.EndYear()
      {
        assert cs[i] == cs[1..][i - 1];
      }
      var k :| 0 <= k < |cs[1..]| && cs[1..][k].nodeFactors.EndYear() == MinEnd(cs[1..]);
      assert cs[k + 1] == cs[1..][k];
      assert MinEnd(cs) == if cs[0].nodeFactors.EndYear() <= MinEnd(cs[1..]) then cs[0].nodeFactors.EndYear() else MinEnd(cs[1..]);
      if cs[0].nodeFactors.EndYear() > MinEnd(cs[1..]) {
        assert cs[k + 1].nodeFactors.EndYear() == MinEnd(cs);
      } else {
        assert cs[0].nodeFactors.EndYear() == MinEnd(cs);
      }
    } else {
      assert cs[0].nodeFactors.EndYear() == MinEnd(cs);
    }
  }

  /** Every year of the common range is covered by every constituent. */
  lemma CommonYearsCovered(cs: seq<Constituent>, i: int, year: int)
    requires |cs| > 0 && 0 <= i < |cs|
    requires MaxStart(cs) <= year < MinEnd(cs)
    ensures cs[i].nodeFactors.HasYear(year)
  {
    MaxStartIsMaximum(cs);
    MinEndIsMinimum(cs);
  }

  /** What `_pack_constituents` hands to the native library: the count, the
      names and speeds, the common year range, and for each constituent one
      row of equilibrium arguments and one of node factors over that range. */
  datatype PackedConstituents = PackedConstituents(
    count: nat,
    names: seq<string>,
    speeds: seq<real>,
    startYear: int,
    numYears: int,
    equilibriums: seq<seq<real>>,
    nodeFactors: seq<seq<real>>)

  /** The first `n` rows hold, for constituent `i` and the `j`-th year from
      `startYear`, that constituent's entry for year `startYear + j`. */
  ghost predicate RowsUpTo(cs: seq<Constituent>, n: int, startYear: int, numYears: int,
                           equilibriums: seq<seq<real>>, nodeFactors: seq<seq<real>>)
    requires 0 <= n <= |cs| && |equilibriums| == n && |nodeFactors| == n
  {
    && (forall i :: 0 <= i < n ==> |equilibriums[i]| == numYears && |nodeFactors[i]| == numYears)
    && (forall i, j :: 0 <= i < n && 0 <= j < numYears ==>
          FactorAt(cs[i].nodeFactors, startYear + j) == Ok(NodeFactor(equilibriums[i][j], nodeFactors[i][j])))
  }

  /** The rows of `p` hold every constituent's entries over the common range. */
  ghost predicate RowsMatch(cs: seq<Constituent>, p: PackedConstituents) {
    && |p.equilibriums| == |cs| && |p.nodeFactors| == |cs|
    && RowsUpTo(cs, |cs|, p.startYear, p.numYears, p.equilibriums, p.nodeFactors)
  }

  lemma AppendRow(cs: seq<Constituent>, n: int, startYear: int, numYears: int,
                  equilibriums: seq<seq<real>>, nodeFactors: seq<seq<real>>, eqs: seq<real>, nfs: seq<real>)
    requires 0 <= n < |cs| && |equilibriums| == n && |nodeFactors| == n
    requires RowsUpTo(cs, n, startYear, numYears, equilibriums, nodeFactors)
    requires |eqs| == numYears && |nfs| == numYears
    requires forall m :: 0 <= m < numYears ==> FactorAt(cs[n].nodeFactors, startYear + m) == Ok(NodeFactor(eqs[m], nfs[m]))
    ensures RowsUpTo(cs, n + 1, startYear, numYears, equilibriums + [eqs], nodeFactors + [nfs])
  {
    var es, ns := equilibriums + [eqs], nodeFactors + [nfs];
    assert forall i :: 0 <= i < n ==> es[i] == equilibriums[i] && ns[i] == nodeFactors[i];
    assert es[n] == eqs && ns[n] == nfs;
  }

  /** `Tcd._pack_constituents(constituents)`, over the table's values in
      insertion order. An empty table is a ValueError from `max`, and so is
      a common range of fewer than one year. */
  method PackConstituents(cs: seq<Constituent>) returns (r: Result<PackedConstituents>)
    ensures r.Err? ==> r.error == ValueError
    ensures r.Ok? <==> |cs| > 0 && MinEnd(cs) - MaxStart(cs) >= 1
    ensures r.Ok? ==>
      && r.value.count == |cs|
      && r.value.names == seq(|cs|, i requires 0 <= i < |cs| => cs[i].name)
      && r.value.speeds == seq(|cs|, i requires 0 <= i < |cs| => cs[i].speed)
      && r.value.startYear == MaxStart(cs)
      && r.value.numYears == MinEnd(cs) - MaxStart(cs)
      && RowsMatch(cs, r.value)
  {
    if |cs| == 0 {
      return Err(ValueError);
    }
    var startYear := MaxStart(cs);
    var endYear := MinEnd(cs);
    var numYears := endYear - startYear;
    if numYears < 1 {
      return Err(ValueError);
    }
    MaxStartIsMaximum(cs);
    MinEndIsMinimum(cs);
    var n := |cs|;
    var names := new string[n];
    var speeds := new real[n];
    var equilibriums: seq<seq<real>> := [];
    var nodeFactors: seq<seq<real>> := [];
    for i := 0 to n
      invariant |equilibriums| == i && |nodeFactors| == i
      invariant forall k :: 0 <= k < i ==> names[k] == cs[k].name && speeds[k] == cs[k].speed
      invariant RowsUpTo(cs, i, startYear, numYears, equilibriums, nodeFactors)
    {
      names[i] := cs[i].name;
      speeds[i] := cs[i].speed;
      var eqs, nfs := FactorRows(cs[i].nodeFactors, startYear, numYears);
      AppendRow(cs, i, startYear, numYears, equilibriums, nodeFactors, eqs, nfs);
      equilibriums := equilibriums + [eqs];
      nodeFactors := nodeFactors + [nfs];
    }
    r := Ok(PackedConstituents(n, names[..], speeds[..], startYear, numYears, equilibriums, nodeFactors));
  }

  /** The inner loop of `_pack_constituents`: one constituent's equilibrium
      arguments and node factors for the `numYears` years from `startYear`,
      all of which it covers. */
  method FactorRows(nf: NodeFactors, startYear: int, numYears: nat) returns (eqs: seq<real>, nfs: seq<real>)
    requires nf.startYear <= startYear && startYear + numYears <= nf.EndYear()
    ensures |eqs| == numYears && |nfs| == numYears
    ensures forall m :: 0 <= m < numYears ==>
      FactorAt(nf, startYear + m) == Ok(NodeFactor(eqs[m], nfs[m]))
  {
    var es := new real[numYears];
    var ns := new real[numYears];
    for j := 0 to numYears
      invariant forall m :: 0 <= m < j ==>
        FactorAt(nf, startYear + m) == Ok(NodeFactor(es[m], ns[m]))
    {
      var f := FactorAt(nf, startYear + j).value;
      es[j], ns[j] := f.equilibrium, f.nodeFactor;
    }
    eqs, nfs := es[..], ns[..];
  }

  /** Two constituents covering 1970-1974 and 1972-1979 share the three
      years 1972-1974. */
  lemma CommonRangeExample()
    ensures var cs := [
        Constituent("M2", 28.984104, NodeFactors(1970, seq(5, _ => NodeFactor(0.0, 1.0)))),
        Constituent("S2", 30.0, NodeFactors(1972, seq(8, _ => NodeFactor(0.0, 1.0))))];
      MaxStart(cs) == 1972 && MinEnd(cs) == 1975
  {
  }
}
