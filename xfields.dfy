/** The extra-fields text block (`_xfields` in libtcd/api.py): an ordered
    dictionary of string keys and values stored as `key:value` lines, each
    newline inside a value continued by a line starting with a space. */
module XFields {

  /** An `OrderedDict` of strings: its items in insertion order. */
  type Entries = seq<(string, string)>

  function Keys(e: Entries): seq<string> {
    seq(|e|, i requires 0 <= i < |e| => e[i].0)
  }

  predicate DistinctKeys(e: Entries) {
    forall i, j :: 0 <= i < j < |e| ==> e[i].0 != e[j].0
  }

  // ------------------------------------------------------------- packing

  /** A value with each newline followed by a space. */
  function FoldValue(v: string): (r: string)
    ensures |r| >= |v|
  {
    if v == [] then []
    else if v[0] == '\n' then "\n " + FoldValue(v[1..])
    else [v[0]] + FoldValue(v[1..])
  }

  /** One item of the block: `key:value` and a final newline. */
  function Entry(k: string, v: string): string {
    k + ":" + FoldValue(v) + "\n"
  }

  /** The block of all items, in order. */
  function Fold(e: Entries): string {
    if e == [] then [] else Fold(e[..|e| - 1]) + Entry(e[|e| - 1].0, e[|e| - 1].1)
  }

  /** `v.split('\n')` */
  function Split(v: string): (lines: seq<string>)
    ensures |lines| >= 1
  {
    if v == [] then [""]
    else if v[0] == '\n' then [""] + Split(v[1..])
    else
      var rest := Split(v[1..]);
      [[v[0]] + rest[0]] + rest[1..]
  }

  /** `b''.join(pieces)` */
  function Concat(pieces: seq<string>): string {
    if pieces == [] then [] else Concat(pieces[..|pieces| - 1]) + pieces[|pieces| - 1]
  }

  /** The lines, each followed by a newline and a space. */
  function Continued(lines: seq<string>): string {
    if lines == [] then [] else Continued(lines[..|lines| - 1]) + lines[|lines| - 1] + "\n "
  }

  lemma {:induction false} ContinuedAppend(a: seq<string>, b: seq<string>)
    ensures Continued(a + b) == Continued(a) + Continued(b)
    decreases |b|
  {
    if b != [] {
      assert (a + b)[..|a + b| - 1] == a + b[..|b| - 1];
      ContinuedAppend(a, b[..|b| - 1]);
    } else {
      assert a + b == a;
    }
  }

  lemma ContinuedCons(line: string, rest: seq<string>)
    ensures Continued([line] + rest) == line + "\n " + Continued(rest)
  {
    ContinuedAppend([line], rest);
    assert Continued([line]) == line + "\n " by { assert [line][..0] == []; }
  }

  /** The lines joined by a newline and a space. */
  function Joined(lines: seq<string>): string
    requires |lines| >= 1
  {
    Continued(lines[..|lines| - 1]) + lines[|lines| - 1]
  }

  lemma JoinedCons(line: string, rest: seq<string>)
    requires |rest| >= 1
    ensures Joined([line] + rest) == line + "\n " + Joined(rest)
  {
    assert ([line] + rest)[..|rest|] == [line] + rest[..|rest| - 1];
    ContinuedCons(line, rest[..|rest| - 1]);
  }

  lemma JoinedPrefixChar(c: char, line: string, rest: seq<string>)
    ensures Joined([[c] + line] + rest) == [c] + Joined([line] + rest)
  {
    if rest == [] {
      assert [[c] + line][..0] == [] && [line][..0] == [];
    } else {
      JoinedCons([c] + line, rest);
      JoinedCons(line, rest);
    }
  }

  /** Folding a value is joining its lines with a newline and a space. */
  lemma {:induction false} FoldValueBySplit(v: string)
    ensures FoldValue(v) == Joined(Split(v))
  {
    if v == [] {
      assert [""][..0] == [];
    } else {
      var rest := Split(v[1..]);
      FoldValueBySplit(v[1..]);
      if v[0] == '\n' {
        JoinedCons("", rest);
        assert "" + "\n " + Joined(rest) == "\n " + Joined(rest);
      } else {
        assert rest == [rest[0]] + rest[1..];
        JoinedPrefixChar(v[0], rest[0], rest[1..]);
      }
    }
  }

  lemma {:induction false} ConcatAppend(a: seq<string>, b: seq<string>)
    ensures Concat(a + b) == Concat(a) + Concat(b)
    decreases |b|
  {
    if b != [] {
      assert (a + b)[..|a + b| - 1] == a + b[..|b| - 1];
      ConcatAppend(a, b[..|b| - 1]);
    } else {
      assert a + b == a;
    }
  }

  lemma ConcatPair(a: seq<string>, x: string, y: string)
    ensures Concat(a + [x, y]) == Concat(a) + x + y
  {
    ConcatAppend(a, [x, y]);
    assert Concat([x, y]) == x + y by {
      assert [x, y][..1] == [x];
      assert Concat([x]) == x by { assert [x][..0] == []; }
    }
  }

  /** Regrouping a concatenation. */
  lemma Assoc(a: string, b: string, c: string, d: string)
    ensures a + b + c + d == a + (b + c + d)
  {
  }

  lemma EntryAssoc(a: string, k: string, c: string, l: string, fv: string)
    requires fv == c + l
    ensures a + k + ":" + c + l + "\n" == a + (k + ":" + fv + "\n")
  {
    Assoc(a + k, ":", c, l);
    Assoc(a, k, ":", fv);
    Assoc(a, k + ":", fv, "\n");
  }

  /** `_xfields.pack_value`: for each item the key and a colon, then each
      line of the value but the last followed by a newline and a space,
      then the last line and a newline, all joined. */
  method PackFields(e: Entries) returns (s: string)
    ensures s == Fold(e)
  {
    var pieces: seq<string> := [];
    for i := 0 to |e|
      invariant Concat(pieces) == Fold(e[..i])
    {
      var (k, v) := e[i];
      ConcatPair(pieces, k, ":");
      pieces := pieces + [k, ":"];
      var lines := Split(v);
      for j := 0 to |lines| - 1
        invariant Concat(pieces) == Fold(e[..i]) + k + ":" + Continued(lines[..j])
      {
        ConcatPair(pieces, lines[j], "\n ");
        pieces := pieces + [lines[j], "\n "];
        assert lines[..j + 1][..j] == lines[..j];
        Assoc(Fold(e[..i]) + k + ":", Continued(lines[..j]), lines[j], "\n ");
      }
      var n := |lines|;
      ConcatPair(pieces, lines[n - 1], "\n");
      pieces := pieces + [lines[n - 1], "\n"];
      FoldValueBySplit(v);
      EntryAssoc(Fold(e[..i]), k, Continued(lines[..n - 1]), lines[n - 1], FoldValue(v));
      assert e[..i + 1][..i] == e[..i];
    }
    assert e[..|e|] == e;
    s := Concat(pieces);
  }

  // ----------------------------------------------------------- unpacking

  /** The end of the line running from index `i`: the first newline at or
      after `i`, or the end of the text. */
  function LineEnd(s: string, i: nat): (j: nat)
    requires i <= |s|
    ensures i <= j <= |s|
    decreases |s| - i
  {
    if i == |s| || s[i] == '\n' then i else LineEnd(s, i + 1)
  }

  /** The last index `c` with `1 <= c < n` holding a colon, or -1. */
  function LastColon(s: string, n: nat): (c: int)
    requires n <= |s|
    ensures c == -1 || (1 <= c < n && s[c] == ':')
  {
    if n <= 1 then -1
    else if s[n - 1] == ':' then n - 1
    else LastColon(s, n - 1)
  }

  /** The end of the longest run from index `i` matching
      `[^\n]*(?:\n [^\n]*)*`. */
  function BlockEnd(s: string, i: nat): (j: nat)
    requires i <= |s|
    ensures i <= j <= |s|
    decreases |s| - i
  {
    if i == |s| then i
    else if s[i] != '\n' then BlockEnd(s, i + 1)
    else if i + 1 < |s| && s[i + 1] == ' ' then BlockEnd(s, i + 2)
    else i
  }

  /** `re.finditer(r'([^\n]+):([^\n]*(?:\n [^\n]*)*)', s)`, as the pairs of
      groups of the successive matches. A match starts at the first
      position of a line whose last colon lies after it; the key runs up to
      that last colon, the greedy `[^\n]+` giving back only what it must;
      the value runs to the end of the line and over every following
      line that starts with a space. */
  function Matches(s: string): Entries
    decreases |s|
  {
    if s == [] then []
    else if s[0] == '\n' then Matches(s[1..])
    else
      var n := LineEnd(s, 0);
      var c := LastColon(s, n);
      if c < 1 then Matches(s[n..])
      else
        var e := BlockEnd(s, c + 1);
        [(s[..c], s[c + 1..e])] + Matches(s[e..])
  }

  /** `'\n'.join(v.split('\n '))`: each newline-space becomes a newline. */
  function Unfold(v: string): string {
    if v == [] then []
    else if |v| >= 2 && v[0] == '\n' && v[1] == ' ' then "\n" + Unfold(v[2..])
    else [v[0]] + Unfold(v[1..])
  }

  /** `d[k] = v` on an `OrderedDict`: a new key goes last, an existing key
      keeps its place and takes the new value. */
  function Put(d: Entries, k: string, v: string): (r: Entries)
    ensures k in Keys(d) ==> |r| == |d|
    ensures k in Keys(d) ==> exists i :: 0 <= i < |d| && FirstWithKey(d, k, i) && r == d[i := (k, v)]
    ensures k !in Keys(d) ==> r == d + [(k, v)]
  {
    if d == [] then [(k, v)]
    else if d[0].0 == k then
      assert Keys(d)[0] == k;
      assert FirstWithKey(d, k, 0) && [(k, v)] + d[1..] == d[0 := (k, v)];
      [(k, v)] + d[1..]
    else
      assert k in Keys(d) <==> k in Keys(d[1..]) by {
        assert Keys(d) == [d[0].0] + Keys(d[1..]);
      }
      assert d == [d[0]] + d[1..];
      var r := [d[0]] + Put(d[1..], k, v);
      assert k in Keys(d) ==> exists i :: 0 <= i < |d| && FirstWithKey(d, k, i) && r == d[i := (k, v)] by {
        if k in Keys(d[1..]) {
          var i :| 0 <= i < |d[1..]| && FirstWithKey(d[1..], k, i) && Put(d[1..], k, v) == d[1..][i := (k, v)];
          assert FirstWithKey(d, k, i + 1) && r == d[i + 1 := (k, v)];
        }
      }
      r
  }

  /** `d[i]` is the first entry of `d` under the key `k`. */
  predicate FirstWithKey(d: Entries, k: string, i: int)
    requires 0 <= i < |d|
  {
    d[i].0 == k && forall j :: 0 <= j < i ==> d[j].0 != k
  }

  /** The dictionary built by storing `ms` in order. */
  function Collect(ms: Entries): Entries {
    if ms == [] then [] else Put(Collect(ms[..|ms| - 1]), ms[|ms| - 1].0, ms[|ms| - 1].1)
  }

  /** The matches with their continuation lines unfolded. */
  function Unfolded(ms: Entries): (r: Entries)
    ensures |r| == |ms|
    ensures forall i :: 0 <= i < |ms| ==> r[i] == (ms[i].0, Unfold(ms[i].1))
  {
    seq(|ms|, i requires 0 <= i < |ms| => (ms[i].0, Unfold(ms[i].1)))
  }

  /** What `_xfields.unpack_value` makes of the text `s`. */
  function Parse(s: string): Entries {
    Collect(Unfolded(Matches(s)))
  }

  /** `_xfields.unpack_value`: every match stored in a fresh `OrderedDict`,
      its value unfolded. */
  method UnpackFields(s: string) returns (d: Entries)
    ensures d == Parse(s)
  {
    var ms := Matches(s);
    d := [];
    for i := 0 to |ms|
      invariant d == Collect(Unfolded(ms)[..i])
    {
      var (k, v) := ms[i];
      d := Put(d, k, Unfold(v));
      assert Unfolded(ms)[..i + 1][..i] == Unfolded(ms)[..i];
    }
    assert Unfolded(ms)[..|ms|] == Unfolded(ms);
  }

  // ---------------------------------------------------------- round trip

  /** The first line of a value, the rest of which goes onto continuation
      lines. */
  function FirstLine(v: string): string {
    v[..LineLength(v)]
  }

  /** The items the block format carries through: keys non-empty, without
      newlines and not starting with a space (which would read as a
      continuation of the item before), and no colon on the first line of
      a value (the key would run up to it); keys distinct, as in a
      dictionary. */
  predicate Foldable(e: Entries) {
    && DistinctKeys(e)
    && forall i :: 0 <= i < |e| ==>
      && |e[i].0| > 0 && '\n' !in e[i].0 && e[i].0[0] != ' '
      && ':' !in FirstLine(e[i].1)
  }

  /** Text after the block that adds no item and continues none: it does
      not start with a space and holds no colon. */
  predicate Inert(t: string) {
    (t == [] || t[0] != ' ') && ':' !in t
  }

  lemma {:induction false} UnfoldFoldValue(v: string)
    ensures Unfold(FoldValue(v)) == v
  {
    if v != [] {
      UnfoldFoldValue(v[1..]);
      if v[0] == '\n' {
        assert FoldValue(v) == "\n " + FoldValue(v[1..]);
        assert FoldValue(v)[2..] == FoldValue(v[1..]);
      } else {
        assert FoldValue(v) == [v[0]] + FoldValue(v[1..]);
        assert FoldValue(v)[1..] == FoldValue(v[1..]);
      }
    }
  }

  /** The length of the first line of `v`. */
  function LineLength(v: string): (n: nat)
    ensures n <= |v|
  {
    if v == [] || v[0] == '\n' then 0 else 1 + LineLength(v[1..])
  }

  /** Folding leaves the first line of a value as it is and ends it with
      the same newline. */
  lemma {:induction false} FoldValueFirstLine(v: string)
    ensures var n := LineLength(v);
      && (forall m :: 0 <= m < n ==> FoldValue(v)[m] == v[m] && v[m] != '\n')
      && (n < |FoldValue(v)| ==> FoldValue(v)[n] == '\n')
  {
    if v != [] && v[0] != '\n' {
      FoldValueFirstLine(v[1..]);
      assert FoldValue(v) == [v[0]] + FoldValue(v[1..]);
    }
  }

  lemma {:induction false} LineEndIs(s: string, i: nat, j: nat)
    requires i <= j <= |s|
    requires forall m :: i <= m < j ==> s[m] != '\n'
    requires j == |s| || s[j] == '\n'
    ensures LineEnd(s, i) == j
    decreases j - i
  {
    if i < j {
      LineEndIs(s, i + 1, j);
    }
  }

  lemma {:induction false} LastColonIs(s: string, n: nat, c: nat)
    requires 1 <= c < n <= |s| && s[c] == ':'
    requires forall i :: c < i < n ==> s[i] != ':'
    ensures LastColon(s, n) == c
    decreases n
  {
    if n - 1 > c {
      LastColonIs(s, n - 1, c);
    }
  }

  lemma {:induction false} LastColonNone(s: string, n: nat)
    requires n <= |s|
    requires forall i :: 1 <= i < n ==> s[i] != ':'
    ensures LastColon(s, n) == -1
    decreases n
  {
    if n > 1 {
      LastColonNone(s, n - 1);
    }
  }

  /** A folded value followed by a newline is one block, and the block
      stops there when what follows does not start with a space. */
  lemma {:induction false} FoldValueBlock(v: string, s: string, i: nat)
    requires var fv := FoldValue(v);
      && i + |fv| < |s| && s[i..i + |fv|] == fv && s[i + |fv|] == '\n'
      && (i + |fv| + 1 == |s| || s[i + |fv| + 1] != ' ')
    ensures BlockEnd(s, i) == i + |FoldValue(v)|
    decreases |v|
  {
    var fv := FoldValue(v);
    if v == [] {
    } else if v[0] == '\n' {
      var fv' := FoldValue(v[1..]);
      assert fv == "\n " + fv';
      assert s[i] == fv[0] && s[i + 1] == fv[1];
      assert s[i + 2..i + 2 + |fv'|] == s[i..i + |fv|][2..];
      FoldValueBlock(v[1..], s, i + 2);
    } else {
      var fv' := FoldValue(v[1..]);
      assert fv == [v[0]] + fv';
      assert s[i] == fv[0];
      assert s[i + 1..i + 1 + |fv'|] == s[i..i + |fv|][1..];
      FoldValueBlock(v[1..], s, i + 1);
    }
  }

  /** Text without a colon has no match. */
  lemma {:induction false} NoColonNoMatch(t: string)
    requires ':' !in t
    ensures Matches(t) == []
    decreases |t|
  {
    if t != [] {
      if t[0] == '\n' {
        NoColonNoMatch(t[1..]);
      } else {
        var n := LineEnd(t, 0);
        forall i | 1 <= i < n ensures t[i] != ':' {
          assert t[i] in t;
        }
        LastColonNone(t, n);
        NoColonNoMatch(t[n..]);
      }
    }
  }

  /** Where the parts of one item and the text after it lie. */
  lemma EntryShape(k: string, fv: string, rest: string)
    ensures var s := Item(k, fv, rest);
      && s[..|k|] == k && s[|k|] == ':'
      && s[|k| + 1..|k| + 1 + |fv|] == fv
      && s[|k| + 1 + |fv|..] == "\n" + rest
  {
  }

  lemma EntryRegroup(k: string, fv: string, rest: string)
    ensures k + ":" + fv + "\n" + rest == Item(k, fv, rest)
  {
  }

  /** A text starting with a line whose last colon is at `c` starts with
      the match of the key before it and the block after it. */
  lemma MatchAt(s: string, c: nat, e: nat, key: string, value: string)
    requires s != [] && s[0] != '\n' && c < |s| && LastColon(s, LineEnd(s, 0)) == c >= 1
    requires e == BlockEnd(s, c + 1)
    requires key == s[..c] && value == s[c + 1..e]
    ensures Matches(s) == [(key, value)] + Matches(s[e..])
  {
  }

  lemma NewlineSkipped(rest: string)
    ensures Matches("\n" + rest) == Matches(rest)
  {
    assert ("\n" + rest)[1..] == rest;
  }

  /** The text of one folded item and what follows it. */
  function Item(k: string, fv: string, rest: string): string {
    (k + ":") + (fv + ("\n" + rest))
  }

  /** The first line of an item ends where the value's first line does,
      and its last colon is the one after the key. */
  lemma ItemLine(k: string, v: string, rest: string)
    requires |k| > 0 && '\n' !in k && ':' !in FirstLine(v)
    ensures var s := Item(k, FoldValue(v), rest); var n := |k| + 1 + LineLength(v);
      n <= |s| && LineEnd(s, 0) == n && LastColon(s, n) == |k|
  {
    var fv := FoldValue(v);
    var s := Item(k, fv, rest);
    EntryShape(k, fv, rest);
    var base := |k| + 1;
    var n := base + LineLength(v);
    FoldValueFirstLine(v);
    forall m | 0 <= m < n ensures s[m] != '\n' && (m > |k| ==> s[m] != ':') {
      if m < |k| {
        assert s[m] == k[m] && k[m] in k;
      } else if m > |k| {
        assert s[m] == fv[m - base] == v[m - base] == FirstLine(v)[m - base];
        assert FirstLine(v)[m - base] in FirstLine(v);
      }
    }
    assert s[n] == '\n' by {
      if n - base < |fv| {
        assert s[n] == fv[n - base];
      } else {
        assert s[n] == ("\n" + rest)[0];
      }
    }
    LineEndIs(s, 0, n);
    LastColonIs(s, n, |k|);
  }

  /** The value of an item runs to the end of its folded value. */
  lemma ItemBlock(k: string, v: string, rest: string)
    requires rest == [] || rest[0] != ' '
    ensures var fv := FoldValue(v); var s := Item(k, fv, rest);
      BlockEnd(s, |k| + 1) == |k| + 1 + |fv|
  {
    var fv := FoldValue(v);
    var s := Item(k, fv, rest);
    EntryShape(k, fv, rest);
    var e := |k| + 1 + |fv|;
    assert s[e..] == "\n" + rest;
    assert s[e] == '\n';
    assert e + 1 == |s| || s[e + 1] == rest[0];
    FoldValueBlock(v, s, |k| + 1);
  }

  lemma ItemMatches(k: string, v: string, rest: string)
    requires |k| > 0 && '\n' !in k && ':' !in FirstLine(v)
    requires rest == [] || rest[0] != ' '
    ensures Matches(Item(k, FoldValue(v), rest)) == [(k, FoldValue(v))] + Matches(rest)
  {
    var fv := FoldValue(v);
    ItemParts(k, v, rest);
    MatchThen(Item(k, fv, rest), |k|, |k| + 1 + |fv|, k, fv, rest);
  }

  /** An item has the shape `Matches` takes apart: its key before the last
      colon of the first line, its value up to the end of the block. */
  lemma ItemParts(k: string, v: string, rest: string)
    requires |k| > 0 && '\n' !in k && ':' !in FirstLine(v)
    requires rest == [] || rest[0] != ' '
    ensures var fv := FoldValue(v); var s := Item(k, fv, rest); var e := |k| + 1 + |fv|;
      && s != [] && s[0] != '\n' && |k| < |s|
      && LastColon(s, LineEnd(s, 0)) == |k|
      && e == BlockEnd(s, |k| + 1)
      && k == s[..|k|] && fv == s[|k| + 1..e] && s[e..] == "\n" + rest
  {
    var fv := FoldValue(v);
    var s := Item(k, fv, rest);
    EntryShape(k, fv, rest);
    ItemLine(k, v, rest);
    ItemBlock(k, v, rest);
    assert s[0] == k[0] && k[0] in k;
  }

  lemma MatchThen(s: string, c: nat, e: nat, key: string, value: string, rest: string)
    requires s != [] && s[0] != '\n' && c < |s| && LastColon(s, LineEnd(s, 0)) == c >= 1
    requires e == BlockEnd(s, c + 1)
    requires key == s[..c] && value == s[c + 1..e] && s[e..] == "\n" + rest
    ensures Matches(s) == [(key, value)] + Matches(rest)
  {
    MatchAt(s, c, e, key, value);
    NewlineSkipped(rest);
  }

  /** One folded item, read as the first match of the text it starts. */
  lemma EntryMatches(k: string, v: string, rest: string)
    requires |k| > 0 && '\n' !in k && ':' !in FirstLine(v)
    requires rest == [] || rest[0] != ' '
    ensures Matches(Entry(k, v) + rest) == [(k, FoldValue(v))] + Matches(rest)
  {
    EntryRegroup(k, FoldValue(v), rest);
    ItemMatches(k, v, rest);
  }

  lemma {:induction false} FoldCons(e: Entries)
    requires e != []
    ensures Fold(e) == Entry(e[0].0, e[0].1) + Fold(e[1..])
    decreases |e|
  {
    if |e| > 1 {
      FoldCons(e[..|e| - 1]);
      assert e[..|e| - 1][1..] == e[1..][..|e[1..]| - 1];
      assert e[..|e| - 1][0] == e[0];
    } else {
      assert e[..0] == [];
    }
  }

  /** The items with their values folded. */
  function FoldedValues(e: Entries): (r: Entries)
    ensures |r| == |e|
    ensures forall i :: 0 <= i < |e| ==> r[i] == (e[i].0, FoldValue(e[i].1))
  {
    seq(|e|, i requires 0 <= i < |e| => (e[i].0, FoldValue(e[i].1)))
  }

  lemma FoldedValuesCons(e: Entries)
    requires e != []
    ensures FoldedValues(e) == [(e[0].0, FoldValue(e[0].1))] + FoldedValues(e[1..])
  {
  }

  lemma FoldableTail(e: Entries)
    requires e != [] && Foldable(e)
    ensures Foldable(e[1..])
    ensures |e[0].0| > 0 && '\n' !in e[0].0 && ':' !in FirstLine(e[0].1)
  {
    assert forall i, j :: 0 <= i < j < |e[1..]| ==> e[1..][i] == e[i + 1] && e[1..][j] == e[j + 1];
  }

  /** A folded block followed by inert text does not start with a space. */
  lemma FoldStart(e: Entries, t: string)
    requires Foldable(e) && Inert(t)
    ensures Fold(e) + t == [] || (Fold(e) + t)[0] != ' '
  {
    if e != [] {
      FoldCons(e);
      assert (Fold(e) + t)[0] == e[0].0[0];
    } else {
      assert Fold(e) + t == t;
    }
  }

  lemma FoldThen(e: Entries, t: string)
    requires e != []
    ensures Fold(e) + t == Entry(e[0].0, e[0].1) + (Fold(e[1..]) + t)
  {
    FoldCons(e);
  }

  /** The matches of a folded block followed by inert text are its items,
      values still folded. */
  lemma {:induction false} MatchesFold(e: Entries, t: string)
    requires Foldable(e) && Inert(t)
    ensures Matches(Fold(e) + t) == FoldedValues(e)
    decreases |e|
  {
    if e == [] {
      assert Fold(e) + t == t;
      NoColonNoMatch(t);
    } else {
      FoldableTail(e);
      MatchesFold(e[1..], t);
      FoldStart(e[1..], t);
      FoldThen(e, t);
      EntryMatches(e[0].0, e[0].1, Fold(e[1..]) + t);
      FoldedValuesCons(e);
    }
  }

  lemma {:induction false} CollectDistinct(ms: Entries)
    requires DistinctKeys(ms)
    ensures Collect(ms) == ms
    decreases |ms|
  {
    if ms != [] {
      var init := ms[..|ms| - 1];
      assert DistinctKeys(init);
      CollectDistinct(init);
      assert ms[|ms| - 1].0 !in Keys(init);
      assert init + [ms[|ms| - 1]] == ms;
    }
  }

  /** Unpacking what packing wrote gives the dictionary back, whatever
      inert text follows it. */
  lemma ParseFold(e: Entries, t: string)
    requires Foldable(e) && Inert(t)
    ensures Parse(Fold(e) + t) == e
  {
    MatchesFold(e, t);
    var ms := Matches(Fold(e) + t);
    forall i | 0 <= i < |e| ensures Unfolded(ms)[i] == e[i] {
      UnfoldFoldValue(e[i].1);
    }
    assert Unfolded(ms) == e;
    CollectDistinct(e);
  }

  /** The items of the xfields tests. */
  const VectorItems: Entries := [("a", "b\nb2"), ("c", " d ")]

  lemma VectorFold()
    ensures Fold(VectorItems) == "a:b\n b2\nc: d \n"
  {
    var e := VectorItems;
    assert e[..1] == [("a", "b\nb2")];
    assert e[..1][..0] == [];
    assert FoldValue("b\nb2") == "b\n b2";
    assert FoldValue(" d ") == " d ";
  }

  lemma VectorFoldable()
    ensures Foldable(VectorItems)
  {
    assert LineLength("b\nb2") == 1;
    assert FirstLine("b\nb2") == "b";
    assert LineLength(" d ") == 3;
    assert FirstLine(" d ") == " d ";
  }

  /** The vector of the xfields tests: `{a: "b\nb2", c: " d "}` is
      `a:b\n b2\nc: d \n`, and reads back the same with `\nfoo\n` after it. */
  lemma FieldsVector()
    ensures Fold(VectorItems) == "a:b\n b2\nc: d \n"
    ensures Parse("a:b\n b2\nc: d \n" + "\nfoo\n") == VectorItems
  {
    VectorFold();
    VectorFoldable();
    ParseFold(VectorItems, "\nfoo\n");
  }
}
