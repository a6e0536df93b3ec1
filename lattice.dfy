/** One row of the lattice layout table and the table as a whole: reading a
    comma-separated line into an element record (`map_table_dict`) and the
    extent of the lattice along one coordinate (`lat_borders`). */
module Lattice {
  import opened Wrappers
  import opened Text

  /** The extra columns only a bending magnet row carries. */
  datatype Bend = Bend(angle: real, e1: real, e2: real)

  /** The record `map_table_dict` builds. `bend` stands for the three keys
      `angle`, `e1`, `e2`, which the dictionary holds only for `SBEND` rows. */
  datatype Element = Element(
    name: string,
    index: int,
    x: real, y: real, z: real,
    theta: real, phi: real, psi: real,
    key: string,
    L: real,
    bend: Option<Bend>,
    descrip: string)

  /** What Python raises while reading a row: `IndexError` when the line has
      too few fields, `ValueError` when `int()` or `float()` rejects one. */
  datatype RowError = MissingField(field: nat) | BadNumber(field: nat)

  /** Python's `int(text)` and `float(text)`; their grammar is not modelled,
      only whether they accept the text and what value they give. */
  type IntParser = string -> Option<int>
  type RealParser = string -> Option<real>

  const Columns: nat := 14
  const BendKey: string := "SBEND"

  /** `line.split(',')[0:14]`. */
  function Fields(line: string): (vals: seq<string>)
    ensures 1 <= |vals| <= Columns
  {
    var all := Split(line, ',');
    if |all| <= Columns then all else all[..Columns]
  }

  predicate IsBendRow(vals: seq<string>) {
    |vals| > 8 && Strip(vals[8]) == BendKey
  }

  /** The columns the row reader looks at, in the order it looks at them:
      0 to 9, then 10 to 12 for a bend, then 13. */
  predicate Reads(vals: seq<string>, i: nat) {
    i <= 9 || i == 13 || (10 <= i <= 12 && IsBendRow(vals))
  }

  predicate IsIntColumn(i: nat) { i == 1 }

  predicate IsRealColumn(i: nat) { 2 <= i <= 7 || 9 <= i <= 12 }

  /** Reading column `i` succeeds: it exists and, if numeric, parses. */
  predicate FieldOk(vals: seq<string>, i: nat, parseInt: IntParser, parseReal: RealParser) {
    i < |vals| &&
    (IsIntColumn(i) ==> parseInt(vals[i]).Some?) &&
    (IsRealColumn(i) ==> parseReal(vals[i]).Some?)
  }

  function IntAt(vals: seq<string>, i: nat, parseInt: IntParser): (r: Result<int, RowError>)
    ensures r.Success? <==> i < |vals| && parseInt(vals[i]).Some?
    ensures r.Success? ==> r.value == parseInt(vals[i]).value
    ensures r.Failure? ==> r.error == if i < |vals| then BadNumber(i) else MissingField(i)
  {
    if i >= |vals| then Failure(MissingField(i))
    else match parseInt(vals[i])
      case Some(n) => Success(n)
      case None => Failure(BadNumber(i))
  }

  function RealAt(vals: seq<string>, i: nat, parseReal: RealParser): (r: Result<real, RowError>)
    ensures r.Success? <==> i < |vals| && parseReal(vals[i]).Some?
    ensures r.Success? ==> r.value == parseReal(vals[i]).value
    ensures r.Failure? ==> r.error == if i < |vals| then BadNumber(i) else MissingField(i)
  {
    if i >= |vals| then Failure(MissingField(i))
    else match parseReal(vals[i])
      case Some(v) => Success(v)
      case None => Failure(BadNumber(i))
  }

  function TextAt(vals: seq<string>, i: nat): (r: Result<string, RowError>)
    ensures r.Success? <==> i < |vals|
    ensures r.Success? ==> r.value == vals[i]
    ensures r.Failure? ==> r.error == MissingField(i)
  {
    if i >= |vals| then Failure(MissingField(i)) else Success(vals[i])
  }

  /** Every column before `n` that the reader reads exists and parses. */
  predicate ReadsOk(vals: seq<string>, n: nat, parseInt: IntParser, parseReal: RealParser) {
    n == 0 ||
    (ReadsOk(vals, n - 1, parseInt, parseReal) &&
     (Reads(vals, n - 1) ==> FieldOk(vals, n - 1, parseInt, parseReal)))
  }

  lemma {:induction false} ReadsOkMeans(vals: seq<string>, n: nat, parseInt: IntParser, parseReal: RealParser)
    ensures ReadsOk(vals, n, parseInt, parseReal) <==>
            forall i: nat :: i < n && Reads(vals, i) ==> FieldOk(vals, i, parseInt, parseReal)
  {
    if n > 0 {
      ReadsOkMeans(vals, n - 1, parseInt, parseReal);
    }
  }

  /** What reading the fields `vals` of one row yields. When every column
      the reader reads exists and parses it succeeds; otherwise it fails at
      the first column (in reading order) that does not, with `MissingField`
      when the line is too short there. On success name and key are
      stripped, the description is taken as it is, the numeric columns are
      the parsed values, and the bend columns are present exactly for
      `SBEND` rows. */
  predicate RowRead(vals: seq<string>, parseInt: IntParser, parseReal: RealParser, r: Result<Element, RowError>)
    requires 1 <= |vals| <= Columns
  {
    (r.Success? ==> ReadsOk(vals, Columns, parseInt, parseReal)) &&
    (r.Failure? ==>
      var f := r.error.field;
      f < Columns && Reads(vals, f) && !FieldOk(vals, f, parseInt, parseReal) &&
      (r.error.MissingField? <==> f >= |vals|) &&
      ReadsOk(vals, f, parseInt, parseReal)) &&
    (r.Success? ==>
      var e := r.value;
      |vals| == Columns &&
      e.name == Strip(vals[0]) && e.key == Strip(vals[8]) && e.descrip == vals[13] &&
      parseInt(vals[1]) == Some(e.index) &&
      parseReal(vals[2]) == Some(e.x) && parseReal(vals[3]) == Some(e.y) &&
      parseReal(vals[4]) == Some(e.z) && parseReal(vals[5]) == Some(e.theta) &&
      parseReal(vals[6]) == Some(e.phi) && parseReal(vals[7]) == Some(e.psi) &&
      parseReal(vals[9]) == Some(e.L) &&
      (e.bend.Some? <==> e.key == BendKey) &&
      (e.bend.Some? ==>
        parseReal(vals[10]) == Some(e.bend.value.angle) &&
        parseReal(vals[11]) == Some(e.bend.value.e1) &&
        parseReal(vals[12]) == Some(e.bend.value.e2)))
  }

  /** `map_table_dict`: splits `line` at commas, keeps the first fourteen
      fields and reads them as one row. */
  method MapTableDict(line: string, parseInt: IntParser, parseReal: RealParser)
    returns (r: Result<Element, RowError>)
    ensures RowRead(Fields(line), parseInt, parseReal, r)
  {
    var vals := Fields(line);
    r := ReadRow(vals, parseInt, parseReal);
  }

  /** The field-by-field part of `map_table_dict`, one column at a time in
      the order the source reads them. */
  method ReadRow(vals: seq<string>, parseInt: IntParser, parseReal: RealParser)
    returns (r: Result<Element, RowError>)
    requires 1 <= |vals| <= Columns
    ensures RowRead(vals, parseInt, parseReal, r)
  {
    var name := Strip(vals[0]);
    assert ReadsOk(vals, 0, parseInt, parseReal);
    assert ReadsOk(vals, 1, parseInt, parseReal);
    var index :- IntAt(vals, 1, parseInt);
    assert ReadsOk(vals, 2, parseInt, parseReal);
    var x :- RealAt(vals, 2, parseReal);
    assert ReadsOk(vals, 3, parseInt, parseReal);
    var y :- RealAt(vals, 3, parseReal);
    assert ReadsOk(vals, 4, parseInt, parseReal);
    var z :- RealAt(vals, 4, parseReal);
    assert ReadsOk(vals, 5, parseInt, parseReal);
    var theta :- RealAt(vals, 5, parseReal);
    assert ReadsOk(vals, 6, parseInt, parseReal);
    var phi :- RealAt(vals, 6, parseReal);
    assert ReadsOk(vals, 7, parseInt, parseReal);
    var psi :- RealAt(vals, 7, parseReal);
    assert ReadsOk(vals, 8, parseInt, parseReal);
    var key :- TextAt(vals, 8);
    assert ReadsOk(vals, 9, parseInt, parseReal);
    key := Strip(key);
    var L :- RealAt(vals, 9, parseReal);
    assert ReadsOk(vals, 10, parseInt, parseReal);
    var bend: Option<Bend> := None;
    if key == BendKey {
      var angle :- RealAt(vals, 10, parseReal);
      assert ReadsOk(vals, 11, parseInt, parseReal);
      var e1 :- RealAt(vals, 11, parseReal);
      assert ReadsOk(vals, 12, parseInt, parseReal);
      var e2 :- RealAt(vals, 12, parseReal);
      assert ReadsOk(vals, 13, parseInt, parseReal);
      bend := Some(Bend(angle, e1, e2));
    } else {
      assert ReadsOk(vals, 11, parseInt, parseReal) && ReadsOk(vals, 12, parseInt, parseReal) && ReadsOk(vals, 13, parseInt, parseReal);
    }
    var descrip :- TextAt(vals, 13);
    assert ReadsOk(vals, 14, parseInt, parseReal);
    r := Success(Element(name, index, x, y, z, theta, phi, psi, key, L, bend, descrip));
  }

  /** The numeric columns `lat_borders` can be asked about. `Angle`, `E1`
      and `E2` are keys only a bend's record has. */
  datatype Column = Index | X | Y | Z | Theta | Phi | Psi | Length | Angle | E1 | E2

  /** `ele[dim]`: `None` stands for the `KeyError` raised when the record
      has no such key. */
  function ColumnOf(e: Element, dim: Column): (r: Option<real>)
    ensures r.None? <==> dim in {Angle, E1, E2} && e.bend.None?
  {
    match dim
    case Index => Some(e.index as real)
    case X => Some(e.x)
    case Y => Some(e.y)
    case Z => Some(e.z)
    case Theta => Some(e.theta)
    case Phi => Some(e.phi)
    case Psi => Some(e.psi)
    case Length => Some(e.L)
    case Angle => if e.bend.Some? then Some(e.bend.value.angle) else None
    case E1 => if e.bend.Some? then Some(e.bend.value.e1) else None
    case E2 => if e.bend.Some? then Some(e.bend.value.e2) else None
  }

  /** Python's `min` of a non-empty list: one of its values, below all of them. */
  function Min(xs: seq<real>): (m: real)
    requires |xs| > 0
    ensures m in xs
    ensures forall i :: 0 <= i < |xs| ==> m <= xs[i]
  {
    if |xs| == 1 then xs[0]
    else
      var rest := Min(xs[1..]);
      if xs[0] <= rest then xs[0] else rest
  }

  /** Python's `max` of a non-empty list: one of its values, above all of them. */
  function Max(xs: seq<real>): (m: real)
    requires |xs| > 0
    ensures m in xs
    ensures forall i :: 0 <= i < |xs| ==> xs[i] <= m
  {
    if |xs| == 1 then xs[0]
    else
      var rest := Max(xs[1..]);
      if xs[0] >= rest then xs[0] else rest
  }

  /** Why `lat_borders` raises: `KeyError` while building the list, or
      `ValueError` from `min` of an empty list. */
  datatype BorderError = MissingColumn | EmptyLattice

  /** Column `dim` of every element, in order, when all have it. */
  function ColumnValues(lat: seq<Element>, dim: Column): (r: Option<seq<real>>)
    ensures r.None? <==> exists i :: 0 <= i < |lat| && ColumnOf(lat[i], dim).None?
    ensures r.Some? ==> |r.value| == |lat|
    ensures r.Some? ==> forall i :: 0 <= i < |lat| ==> ColumnOf(lat[i], dim) == Some(r.value[i])
  {
    if lat == [] then Some([])
    else
      match ColumnOf(lat[0], dim)
      case None => None
      case Some(v) =>
        match ColumnValues(lat[1..], dim)
        case None =>
          assert forall i :: 0 <= i < |lat| - 1 ==> lat[1..][i] == lat[i + 1];
          None
        case Some(vs) =>
          assert forall i :: 0 <= i < |lat| - 1 ==> lat[1..][i] == lat[i + 1];
          Some([v] + vs)
  }

  /** `lat_borders`: the smallest and largest value of column `dim` over the
      lattice. It fails with `MissingColumn` exactly when some element lacks
      the column, else with `EmptyLattice` exactly when there are no
      elements; otherwise both bounds are values of the column and every
      element's value lies between them. */
  function LatBorders(lat: seq<Element>, dim: Column := X): (r: Result<(real, real), BorderError>)
    ensures r == Failure(MissingColumn) <==> exists i :: 0 <= i < |lat| && ColumnOf(lat[i], dim).None?
    ensures r == Failure(EmptyLattice) <==> lat == []
    ensures r.Success? ==>
      (exists i :: 0 <= i < |lat| && ColumnOf(lat[i], dim) == Some(r.value.0)) &&
      (exists i :: 0 <= i < |lat| && ColumnOf(lat[i], dim) == Some(r.value.1)) &&
      forall i :: 0 <= i < |lat| ==>
        ColumnOf(lat[i], dim).Some? && r.value.0 <= ColumnOf(lat[i], dim).value <= r.value.1
  {
    match ColumnValues(lat, dim)
    case None => Failure(MissingColumn)
    case Some(xs) =>
      if xs == [] then Failure(EmptyLattice)
      else
        var lo, hi := Min(xs), Max(xs);
        assert exists i :: 0 <= i < |xs| && xs[i] == lo;
        assert exists i :: 0 <= i < |xs| && xs[i] == hi;
        Success((lo, hi))
  }
}
