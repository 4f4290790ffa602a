/** A reference station's harmonic coefficients and the two 255-slot
    arrays of amplitudes and epochs they are packed into, one slot per
    position of the database's constituent table (`_coefficients` in
    libtcd/api.py). */
module Coefficients {
  import opened Results
  import opened Values
  import opened Constituents
  import opened Records

  /** The constituent table is keyed by constituent name, so no two of its
      entries share a name. */
  predicate DistinctNames(table: seq<Constituent>) {
    forall i, j :: 0 <= i < j < |table| ==> table[i].name != table[j].name
  }

  /** `dict((coeff.constituent.name, coeff) for coeff in cs)`: every name
      maps to the last coefficient carrying it. */
  function ByName(cs: seq<Coefficient>): map<string, Coefficient> {
    if cs == [] then map[]
    else
      var last := cs[|cs| - 1];
      ByName(cs[..|cs| - 1])[last.constituent.name := last]
  }

  /** The names keyed are exactly the coefficients' constituent names. */
  lemma {:induction false} ByNameKeys(cs: seq<Coefficient>)
    ensures forall k :: k in ByName(cs) <==> exists i :: 0 <= i < |cs| && cs[i].constituent.name == k
  {
    if cs != [] {
      var init := cs[..|cs| - 1];
      ByNameKeys(init);
      forall k | k in ByName(cs) ensures exists i :: 0 <= i < |cs| && cs[i].constituent.name == k {
        if k != cs[|cs| - 1].constituent.name {
          assert k in ByName(init);
          var i :| 0 <= i < |init| && init[i].constituent.name == k;
          assert cs[i] == init[i];
        }
      }
      forall k | exists i :: 0 <= i < |cs| && cs[i].constituent.name == k ensures k in ByName(cs) {
        var i :| 0 <= i < |cs| && cs[i].constituent.name == k;
        if i < |cs| - 1 {
          assert init[i] == cs[i];
        }
      }
    }
  }

  /** The coefficient kept for a name is the last one carrying it. */
  lemma {:induction false} ByNameLast(cs: seq<Coefficient>, i: int)
    requires 0 <= i < |cs| && LastOfName(cs, i)
    ensures cs[i].constituent.name in ByName(cs) && ByName(cs)[cs[i].constituent.name] == cs[i]
  {
    if i < |cs| - 1 {
      var init := cs[..|cs| - 1];
      assert init[i] == cs[i];
      assert LastOfName(init, i);
      ByNameLast(init, i);
    }
  }

  /** No later coefficient has the same constituent name as `cs[i]`. */
  predicate LastOfName(cs: seq<Coefficient>, i: int)
    requires 0 <= i < |cs|
  {
    forall j :: i < j < |cs| ==> cs[j].constituent.name != cs[i].constituent.name
  }

  /** Some entry of the table has this name. */
  predicate InTable(table: seq<Constituent>, name: string) {
    exists i :: 0 <= i < |table| && table[i].name == name
  }

  /** The amplitude and epoch a table entry receives from the keyed
      coefficients: those of its coefficient, or zero. */
  function AmplitudeFor(m: map<string, Coefficient>, c: Constituent): real {
    if c.name in m then m[c.name].amplitude else 0.0
  }

  function EpochFor(m: map<string, Coefficient>, c: Constituent): real {
    if c.name in m then m[c.name].epoch else 0.0
  }

  /** Slot `i` of a 255-slot array: the table entry's value, or zero past
      the end of the table. */
  function AmplitudeSlot(table: seq<Constituent>, m: map<string, Coefficient>, i: int): real {
    if 0 <= i < |table| then AmplitudeFor(m, table[i]) else 0.0
  }

  function EpochSlot(table: seq<Constituent>, m: map<string, Coefficient>, i: int): real {
    if 0 <= i < |table| then EpochFor(m, table[i]) else 0.0
  }

  /** What packing the coefficients `cs` against `table` produces: an
      IndexError when a coefficient belongs to a table entry beyond the
      255th slot, an AssertionError when a coefficient names a constituent
      not in the table, and otherwise the amplitude and epoch arrays. */
  function Packed(table: seq<Constituent>, cs: seq<Coefficient>): Result<(seq<real>, seq<real>)> {
    var m := ByName(cs);
    if exists i :: MAX_CONSTITUENTS <= i < |table| && table[i].name in m then Err(IndexError)
    else if exists k :: k in m && !InTable(table, k) then Err(AssertionError)
    else Ok((seq(MAX_CONSTITUENTS, i => AmplitudeSlot(table, m, i)),
             seq(MAX_CONSTITUENTS, i => EpochSlot(table, m, i))))
  }

  /** `_coefficients.pack`: key the coefficients by name, then walk the
      table, moving each entry's coefficient out of the dict into its slot;
      whatever is left names no constituent of the table. */
  method PackCoefficients(table: seq<Constituent>, cs: seq<Coefficient>)
      returns (r: Result<(seq<real>, seq<real>)>)
    requires DistinctNames(table)
    ensures r == Packed(table, cs)
  {
    var coeffs := ByName(cs);
    var amplitudes := new real[MAX_CONSTITUENTS](_ => 0.0);
    var epochs := new real[MAX_CONSTITUENTS](_ => 0.0);
    var n := 0;
    while n < |table|
      invariant 0 <= n <= |table|
      invariant Walked(amplitudes[..], epochs[..], coeffs, table, cs, n)
    {
      var name := table[n].name;
      WalkStep(amplitudes[..], epochs[..], coeffs, table, cs, n);
      if name in coeffs {
        var coeff := coeffs[name];
        coeffs := coeffs - {name};
        if n >= MAX_CONSTITUENTS {
          return Err(IndexError);
        }
        ghost var before := (amplitudes[..], epochs[..]);
        amplitudes[n] := coeff.amplitude;
        epochs[n] := coeff.epoch;
        assert amplitudes[..] == before.0[n := coeff.amplitude];
        assert epochs[..] == before.1[n := coeff.epoch];
      }
      n := n + 1;
    }
    if |coeffs| != 0 {
      var k :| k in coeffs;
      PackedUnknown(table, cs, k);
      return Err(AssertionError);
    }
    WalkedAll(amplitudes[..], epochs[..], coeffs, table, cs);
    return Ok((amplitudes[..], epochs[..]));
  }

  /** The state of `PackCoefficients` after `n` table entries: their slots
      filled in, every other slot still zero, their coefficients moved out
      of the dict, and none of them beyond the arrays' end. */
  ghost predicate Walked(amplitudes: seq<real>, epochs: seq<real>, coeffs: map<string, Coefficient>,
                         table: seq<Constituent>, cs: seq<Coefficient>, n: int) {
    var m := ByName(cs);
    && |amplitudes| == MAX_CONSTITUENTS && |epochs| == MAX_CONSTITUENTS
    && 0 <= n <= |table|
    && (forall i :: 0 <= i < MAX_CONSTITUENTS ==>
         && amplitudes[i] == (if i < n then AmplitudeFor(m, table[i]) else 0.0)
         && epochs[i] == (if i < n then EpochFor(m, table[i]) else 0.0))
    && coeffs == Remaining(m, table, n)
    && (forall i :: MAX_CONSTITUENTS <= i < n ==> table[i].name !in m)
  }

  /** The coefficients not yet moved into a slot after `n` table entries. */
  ghost function Remaining(m: map<string, Coefficient>, table: seq<Constituent>, n: int): map<string, Coefficient> {
    map k | k in m && (forall i :: 0 <= i < n && i < |table| ==> table[i].name != k) :: m[k]
  }

  /** One step of the walk: the entry's coefficient is still in the dict
      exactly when it has one; it then goes into its slot, unless the slot
      is past the arrays' end, which is the IndexError. */
  lemma WalkStep(amplitudes: seq<real>, epochs: seq<real>, coeffs: map<string, Coefficient>,
                 table: seq<Constituent>, cs: seq<Coefficient>, n: int)
    requires DistinctNames(table) && Walked(amplitudes, epochs, coeffs, table, cs, n) && n < |table|
    ensures var name := table[n].name;
      && (name in coeffs ==> coeffs[name] == ByName(cs)[name])
      && (name in coeffs && n < MAX_CONSTITUENTS ==>
            Walked(amplitudes[n := coeffs[name].amplitude], epochs[n := coeffs[name].epoch],
                   coeffs - {name}, table, cs, n + 1))
      && (name in coeffs && n >= MAX_CONSTITUENTS ==> Packed(table, cs) == Err(IndexError))
      && (name !in coeffs ==> Walked(amplitudes, epochs, coeffs, table, cs, n + 1))
  {
    var m := ByName(cs);
    var name := table[n].name;
    assert name in coeffs <==> name in m;
    assert Remaining(m, table, n + 1) == Remaining(m, table, n) - {name};
  }

  /** At the end of the walk with nothing left over, the arrays are the
      packed coefficients. */
  lemma WalkedAll(amplitudes: seq<real>, epochs: seq<real>, coeffs: map<string, Coefficient>,
                  table: seq<Constituent>, cs: seq<Coefficient>)
    requires Walked(amplitudes, epochs, coeffs, table, cs, |table|) && |coeffs| == 0
    ensures Packed(table, cs) == Ok((amplitudes, epochs))
  {
    var m := ByName(cs);
    forall k | k in m ensures InTable(table, k) {
      assert k !in Remaining(m, table, |table|);
    }
    assert amplitudes == seq(MAX_CONSTITUENTS, i => AmplitudeSlot(table, m, i));
    assert epochs == seq(MAX_CONSTITUENTS, i => EpochSlot(table, m, i));
  }

  lemma PackedUnknown(table: seq<Constituent>, cs: seq<Coefficient>, k: string)
    requires forall i :: MAX_CONSTITUENTS <= i < |table| ==> table[i].name !in ByName(cs)
    requires k in ByName(cs) && !InTable(table, k)
    ensures Packed(table, cs) == Err(AssertionError)
  {
  }

  /** `_coefficients.unpack`: the table, the amplitudes and the epochs
      zipped together (the shortest decides the length), keeping the slots
      whose amplitude is not zero. */
  function Unpacked(table: seq<Constituent>, amplitudes: seq<real>, epochs: seq<real>): (r: seq<Coefficient>)
    ensures |r| <= |table|
    ensures forall c :: c in r ==> c.amplitude != 0.0 && c.constituent in table
  {
    if table == [] || amplitudes == [] || epochs == [] then []
    else
      var rest := Unpacked(table[1..], amplitudes[1..], epochs[1..]);
      if amplitudes[0] != 0.0 then [Coefficient(amplitudes[0], epochs[0], table[0])] + rest else rest
  }

  /** The number of slots `zip` pairs up: the length of the shortest. */
  function Zipped(table: seq<Constituent>, amplitudes: seq<real>, epochs: seq<real>): (n: nat)
    ensures n <= |table| && n <= |amplitudes| && n <= |epochs|
    ensures n == |table| || n == |amplitudes| || n == |epochs|
  {
    if |table| <= |amplitudes| && |table| <= |epochs| then |table|
    else if |amplitudes| <= |epochs| then |amplitudes| else |epochs|
  }

  /** `slots` lists, in increasing order, exactly the zipped slots whose
      amplitude is not zero, and `r` holds one coefficient per listed
      slot, carrying that slot's amplitude, epoch and constituent. */
  predicate NonzeroSlots(table: seq<Constituent>, amplitudes: seq<real>, epochs: seq<real>,
                         slots: seq<int>, r: seq<Coefficient>)
  {
    && SlotsRead(table, amplitudes, epochs, slots, r, 0)
    && Increasing(slots)
    && Covers(amplitudes, 0, Zipped(table, amplitudes, epochs), slots)
  }

  /** `r` holds one coefficient per slot of `slots`, each a zipped slot
      from `lo` on whose amplitude is not zero. */
  predicate SlotsRead(table: seq<Constituent>, amplitudes: seq<real>, epochs: seq<real>,
                      slots: seq<int>, r: seq<Coefficient>, lo: nat)
  {
    && |slots| == |r|
    && forall k :: 0 <= k < |slots| ==>
      && lo <= slots[k] < Zipped(table, amplitudes, epochs) && amplitudes[slots[k]] != 0.0
      && r[k] == Coefficient(amplitudes[slots[k]], epochs[slots[k]], table[slots[k]])
  }

  predicate Increasing(slots: seq<int>) {
    forall k, l :: 0 <= k < l < |slots| ==> slots[k] < slots[l]
  }

  /** Every slot from `lo` up to `n` whose amplitude is not zero is listed. */
  predicate Covers(amplitudes: seq<real>, lo: nat, n: int, slots: seq<int>)
    requires n <= |amplitudes|
  {
    forall i :: lo <= i < n && amplitudes[i] != 0.0 ==> i in slots
  }

  /** What `unpack` reads back is, in table order, exactly the zipped
      slots whose amplitude is not zero, each with that slot's amplitude,
      epoch and constituent. */
  lemma {:induction false} UnpackedSlots(table: seq<Constituent>, amplitudes: seq<real>, epochs: seq<real>)
    returns (slots: seq<int>)
    ensures NonzeroSlots(table, amplitudes, epochs, slots, Unpacked(table, amplitudes, epochs))
    decreases |table|
  {
    if table == [] || amplitudes == [] || epochs == [] {
      slots := [];
    } else {
      var t, a, e := table[1..], amplitudes[1..], epochs[1..];
      var rest := UnpackedSlots(t, a, e);
      var shifted := seq(|rest|, k requires 0 <= k < |rest| => rest[k] + 1);
      var tail := Unpacked(t, a, e);
      ShiftedRead(table, amplitudes, epochs, rest, shifted, tail);
      ShiftedIncreasing(rest, shifted);
      ShiftedCovers(amplitudes, Zipped(table, amplitudes, epochs), rest, shifted);
      var r := Unpacked(table, amplitudes, epochs);
      if amplitudes[0] != 0.0 {
        slots := [0] + shifted;
        assert r == [Coefficient(amplitudes[0], epochs[0], table[0])] + tail;
        FirstRead(table, amplitudes, epochs, shifted, tail);
        FirstIncreasing(table, amplitudes, epochs, shifted, tail);
        FirstCovers(amplitudes, Zipped(table, amplitudes, epochs), shifted);
      } else {
        slots := shifted;
        assert r == tail;
        assert Covers(amplitudes, 0, Zipped(table, amplitudes, epochs), slots);
      }
    }
  }

  /** The slots of the tails, moved one place on, are slots of the whole
      from 1 on. */
  lemma ShiftedRead(table: seq<Constituent>, amplitudes: seq<real>, epochs: seq<real>,
                    rest: seq<int>, shifted: seq<int>, tail: seq<Coefficient>)
    requires table != [] && amplitudes != [] && epochs != []
    requires SlotsRead(table[1..], amplitudes[1..], epochs[1..], rest, tail, 0)
    requires |shifted| == |rest| && forall k :: 0 <= k < |rest| ==> shifted[k] == rest[k] + 1
    ensures SlotsRead(table, amplitudes, epochs, shifted, tail, 1)
  {
    assert Zipped(table[1..], amplitudes[1..], epochs[1..]) == Zipped(table, amplitudes, epochs) - 1;
  }

  lemma ShiftedIncreasing(rest: seq<int>, shifted: seq<int>)
    requires Increasing(rest)
    requires |shifted| == |rest| && forall k :: 0 <= k < |rest| ==> shifted[k] == rest[k] + 1
    ensures Increasing(shifted)
  {
  }

  lemma ShiftedCovers(amplitudes: seq<real>, n: int, rest: seq<int>, shifted: seq<int>)
    requires 1 <= n <= |amplitudes|
    requires Covers(amplitudes[1..], 0, n - 1, rest)
    requires |shifted| == |rest| && forall k :: 0 <= k < |rest| ==> shifted[k] == rest[k] + 1
    ensures Covers(amplitudes, 1, n, shifted)
  {
    forall i | 1 <= i < n && amplitudes[i] != 0.0 ensures i in shifted {
      assert amplitudes[1..][i - 1] == amplitudes[i];
      var k :| 0 <= k < |rest| && rest[k] == i - 1;
      assert shifted[k] == i;
    }
  }

  /** A nonzero first slot joins the list in front. */
  lemma FirstRead(table: seq<Constituent>, amplitudes: seq<real>, epochs: seq<real>,
                  shifted: seq<int>, tail: seq<Coefficient>)
    requires table != [] && amplitudes != [] && epochs != [] && amplitudes[0] != 0.0
    requires SlotsRead(table, amplitudes, epochs, shifted, tail, 1)
    ensures SlotsRead(table, amplitudes, epochs, [0] + shifted, [Coefficient(amplitudes[0], epochs[0], table[0])] + tail, 0)
  {
    var slots, r := [0] + shifted, [Coefficient(amplitudes[0], epochs[0], table[0])] + tail;
    forall k | 0 <= k < |slots|
      ensures && 0 <= slots[k] < Zipped(table, amplitudes, epochs) && amplitudes[slots[k]] != 0.0
              && r[k] == Coefficient(amplitudes[slots[k]], epochs[slots[k]], table[slots[k]])
    {
      if k > 0 { assert slots[k] == shifted[k - 1] && r[k] == tail[k - 1]; }
    }
  }

  lemma FirstIncreasing(table: seq<Constituent>, amplitudes: seq<real>, epochs: seq<real>,
                        shifted: seq<int>, tail: seq<Coefficient>)
    requires Increasing(shifted)
    requires SlotsRead(table, amplitudes, epochs, shifted, tail, 1)
    ensures Increasing([0] + shifted)
  {
    var slots := [0] + shifted;
    forall k, l | 0 <= k < l < |slots| ensures slots[k] < slots[l] {
      assert slots[l] == shifted[l - 1];
      if k > 0 { assert slots[k] == shifted[k - 1]; }
    }
  }

  lemma FirstCovers(amplitudes: seq<real>, n: int, shifted: seq<int>)
    requires 1 <= n <= |amplitudes|
    requires Covers(amplitudes, 1, n, shifted)
    ensures Covers(amplitudes, 0, n, [0] + shifted)
  {
    forall i | 0 <= i < n && amplitudes[i] != 0.0 ensures i in [0] + shifted {
      if i > 0 {
        assert i in shifted;
      }
    }
  }

  /** The coefficients a station reads back after its coefficients `m`
      (keyed by name) are packed: in table order, one per table entry that
      has a coefficient of nonzero amplitude, carrying the table's own
      constituent. */
  function Normalized(table: seq<Constituent>, m: map<string, Coefficient>): seq<Coefficient> {
    if table == [] then []
    else
      var rest := Normalized(table[1..], m);
      var c := table[0];
      if AmplitudeFor(m, c) != 0.0 then [Coefficient(AmplitudeFor(m, c), EpochFor(m, c), c)] + rest
      else rest
  }

  lemma {:induction false} NormalizedOfAbsent(table: seq<Constituent>, m: map<string, Coefficient>)
    requires forall i :: 0 <= i < |table| ==> table[i].name !in m
    ensures Normalized(table, m) == []
  {
    if table != [] {
      NormalizedOfAbsent(table[1..], m);
    }
  }

  /** Unpacking arrays that hold, slot by slot, the table entries'
      amplitudes and epochs, and nothing for entries past the arrays' end,
      gives the normalized coefficients. */
  lemma {:induction false} UnpackedOfSlots(table: seq<Constituent>, m: map<string, Coefficient>,
                                           amplitudes: seq<real>, epochs: seq<real>)
    requires |amplitudes| == |epochs|
    requires forall i :: 0 <= i < |table| && i < |amplitudes| ==>
      amplitudes[i] == AmplitudeFor(m, table[i]) && epochs[i] == EpochFor(m, table[i])
    requires forall i :: |amplitudes| <= i < |table| ==> table[i].name !in m
    ensures Unpacked(table, amplitudes, epochs) == Normalized(table, m)
  {
    if table == [] {
    } else if amplitudes == [] {
      NormalizedOfAbsent(table, m);
    } else {
      UnpackedOfSlots(table[1..], m, amplitudes[1..], epochs[1..]);
    }
  }

  /** Coefficients that pack come back normalized: duplicates collapsed to
      the last one, zero amplitudes dropped, table order, the table's
      constituents. */
  lemma CoefficientsRoundTrip(table: seq<Constituent>, cs: seq<Coefficient>)
    requires Packed(table, cs).Ok?
    ensures var p := Packed(table, cs).value;
      Unpacked(table, p.0, p.1) == Normalized(table, ByName(cs))
  {
    var m := ByName(cs);
    var p := Packed(table, cs).value;
    UnpackedOfSlots(table, m, p.0, p.1);
  }

  /** A packed coefficient sits in the slot of its constituent's table
      position, when it is the last one given for that constituent; the
      slots of table entries without a coefficient, and those past the end
      of the table, hold zero. */
  lemma PackedPlacesEach(table: seq<Constituent>, cs: seq<Coefficient>, i: int)
    requires Packed(table, cs).Ok? && 0 <= i < MAX_CONSTITUENTS
    ensures var p := Packed(table, cs).value;
      && (forall j :: 0 <= j < |cs| && LastOfName(cs, j) && i < |table| && table[i].name == cs[j].constituent.name ==>
            p.0[i] == cs[j].amplitude && p.1[i] == cs[j].epoch)
      && ((i >= |table| || forall j :: 0 <= j < |cs| ==> cs[j].constituent.name != table[i].name) ==>
            p.0[i] == 0.0 && p.1[i] == 0.0)
  {
    ByNameKeys(cs);
    forall j | 0 <= j < |cs| && LastOfName(cs, j) {
      ByNameLast(cs, j);
    }
  }

  /** Packing fails with an AssertionError exactly when the table has at
      most 255 entries and some coefficient's constituent is not in it. */
  lemma UnknownConstituentRefused(table: seq<Constituent>, cs: seq<Coefficient>)
    requires |table| <= MAX_CONSTITUENTS
    ensures Packed(table, cs).Err? <==> exists i :: 0 <= i < |cs| && !InTable(table, cs[i].constituent.name)
    ensures Packed(table, cs).Err? ==> Packed(table, cs).error == AssertionError
  {
    ByNameKeys(cs);
  }

  /** A later coefficient for the same constituent replaces an earlier one. */
  lemma DuplicatesCollapse(table: seq<Constituent>, c1: Coefficient, c2: Coefficient)
    requires c1.constituent.name == c2.constituent.name
    ensures Packed(table, [c1, c2]) == Packed(table, [c2])
  {
    assert ByName([c1, c2]) == ByName([c2]) by {
      assert [c1, c2][..1] == [c1];
      assert [c2][..0] == [];
    }
  }

  /** A station with the amplitude 1.5 and epoch 2.5 for the only
      constituent of the table packs to 1.5 and 2.5 in slot 0 and zeros
      elsewhere, and unpacks to the same coefficient. */
  lemma CoefficientVector(c: Constituent)
    ensures var p := Packed([c], [Coefficient(1.5, 2.5, c)]);
      && p.Ok?
      && p.value.0 == [1.5] + seq(MAX_CONSTITUENTS - 1, _ => 0.0)
      && p.value.1 == [2.5] + seq(MAX_CONSTITUENTS - 1, _ => 0.0)
      && Unpacked([c], p.value.0, p.value.1) == [Coefficient(1.5, 2.5, c)]
  {
    var cs := [Coefficient(1.5, 2.5, c)];
    var m := ByName(cs);
    assert m == map[c.name := cs[0]] by { assert cs[..0] == []; }
    assert [c][0].name == c.name;
    assert InTable([c], c.name);
    var p := Packed([c], cs);
    assert p.value.0 == [1.5] + seq(MAX_CONSTITUENTS - 1, _ => 0.0);
    assert p.value.1 == [2.5] + seq(MAX_CONSTITUENTS - 1, _ => 0.0);
    CoefficientsRoundTrip([c], cs);
    assert Normalized([c], m) == [Coefficient(1.5, 2.5, c)] by {
      assert [c][1..] == [];
    }
  }
}
