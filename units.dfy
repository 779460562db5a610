/**
 * Column selection and unit normalisation of an activity table
 * (`findColumns` and `convert_units`, src/strava_dash/utils.py:208-238).
 *
 * A table is a sequence of named columns. A cell holds what a pandas cell of
 * these tables can hold: an integer, a real, a missing value (NaN), an
 * infinity, or a string.
 */
module Units {
  import opened Wrappers
  import Numeric
  import Duration

  datatype Cell = Int(i: int) | Real(r: real) | NaN | Inf(negative: bool) | Str(s: string)

  datatype Column = Column(name: string, cells: seq<Cell>)

  type Table = seq<Column>

  /** `TypeError`/`ValueError` raised on a cell of the named column, or `KeyError` for a missing column. */
  datatype ConvertError = NotNumeric(column: string) | MissingColumn(column: string)

  /** The four rewrites `convert_units` applies. */
  datatype Conversion = ToKilometres | ToDuration | ToKmPerHour | RoundOnly

  const KmPerHourPerMetrePerSecond: real := 36.0 / 10.0
  const MetresPerKilometre: real := 1000.0

  // ---------------------------------------------------------------------
  // findColumns

  /** Python's `t in s` for strings: `t` occurs in `s` as a contiguous, case-sensitive substring. */
  predicate Contains(s: string, t: string)
  {
    t <= s || (s != [] && Contains(s[1..], t))
  }

  lemma {:induction false} ContainsIff(s: string, t: string)
    ensures Contains(s, t) <==> exists i :: 0 <= i <= |s| && t <= s[i..]
  {
    if Contains(s, t) {
      if !(t <= s) {
        ContainsIff(s[1..], t);
        var i :| 0 <= i <= |s[1..]| && t <= s[1..][i..];
        assert s[1..][i..] == s[i + 1..];
      } else {
        assert s[0..] == s;
      }
    }
    if exists i :: 0 <= i <= |s| && t <= s[i..] {
      var i :| 0 <= i <= |s| && t <= s[i..];
      if i > 0 {
        assert s[1..][i - 1..] == s[i..];
        ContainsIff(s[1..], t);
      } else {
        assert s[0..] == s;
      }
    }
  }

  function Names(df: Table): (r: seq<string>)
    ensures |r| == |df| && forall i :: 0 <= i < |df| ==> r[i] == df[i].name
  {
    seq(|df|, i requires 0 <= i < |df| => df[i].name)
  }

  predicate Distinct(ns: seq<string>)
  {
    forall i, j :: 0 <= i < j < |ns| ==> ns[i] != ns[j]
  }

  predicate DistinctNames(df: Table)
  {
    forall i, j :: 0 <= i < j < |df| ==> df[i].name != df[j].name
  }

  /** `findColumns(df, term)`: the names of the columns whose name contains `term`, in column order. */
  function FindColumns(df: Table, term: string): (r: seq<string>)
    ensures |r| <= |df|
    ensures forall x :: x in r <==> x in Names(df) && Contains(x, term)
  {
    if df == [] then []
    else
      var rest := FindColumns(df[1..], term);
      assert Names(df) == [df[0].name] + Names(df[1..]);
      if Contains(df[0].name, term) then [df[0].name] + rest else rest
  }

  /** Selection keeps the table's column order: it distributes over concatenation. */
  lemma {:induction false} FindColumnsAppend(a: Table, b: Table, term: string)
    ensures FindColumns(a + b, term) == FindColumns(a, term) + FindColumns(b, term)
  {
    if a != [] {
      assert (a + b)[1..] == a[1..] + b;
      FindColumnsAppend(a[1..], b, term);
    } else {
      assert a + b == b;
    }
  }

  /** A table with distinct column names yields each selected name once. */
  lemma {:induction false} FindColumnsDistinct(df: Table, term: string)
    requires DistinctNames(df)
    ensures Distinct(FindColumns(df, term))
  {
    if df != [] {
      FindColumnsDistinct(df[1..], term);
      assert df[0].name !in Names(df[1..]);
    }
  }

  // ---------------------------------------------------------------------
  // convert_units, cell by cell

  /** One cell rewritten by one conversion; `None` where pandas raises. */
  function ConvertCell(conv: Conversion, c: Cell, digits: nat): Option<Cell>
  {
    match conv
    case ToKilometres =>
      (match c
       case Int(i) => Some(Real(Numeric.Round(i as real / MetresPerKilometre, digits)))
       case Real(r) => Some(Real(Numeric.Round(r / MetresPerKilometre, digits)))
       case NaN => Some(NaN)
       case Inf(neg) => Some(Inf(neg))
       case Str(_) => None)
    case ToKmPerHour =>
      (match c
       case Int(i) => Some(Real(Numeric.Round(i as real * KmPerHourPerMetrePerSecond, digits)))
       case Real(r) => Some(Real(Numeric.Round(r * KmPerHourPerMetrePerSecond, digits)))
       case NaN => Some(NaN)
       case Inf(neg) => Some(Inf(neg))
       case Str(_) => None)
    case ToDuration =>
      (match c
       case Int(i) => Some(Str(Duration.Format(i)))
       case Real(r) => Some(Str(Duration.Format(r.Floor)))
       case _ => None)
    case RoundOnly =>
      (match c
       case Int(i) => Some(Int(i))
       case Real(r) => Some(Real(Numeric.Round(r, digits)))
       case NaN => Some(NaN)
       case Inf(neg) => Some(Inf(neg))
       case Str(_) => None)
  }

  /** The arithmetic of the numeric rewrites, one cell at a time. */
  lemma {:induction false} NumericCells(c: Cell, digits: nat)
    ensures c.Real? ==> ConvertCell(ToKilometres, c, digits) == Some(Real(Numeric.Round(c.r / 1000.0, digits)))
    ensures c.Int? ==> ConvertCell(ToKilometres, c, digits) == Some(Real(Numeric.Round(c.i as real / 1000.0, digits)))
    ensures c.Real? ==> ConvertCell(ToKmPerHour, c, digits) == Some(Real(Numeric.Round(c.r * 3.6, digits)))
    ensures c.Int? ==> ConvertCell(ToKmPerHour, c, digits) == Some(Real(Numeric.Round(c.i as real * 3.6, digits)))
  {
  }

  /** A whole column rewritten; it fails when any one of its cells does. */
  function ConvertCells(conv: Conversion, cells: seq<Cell>, digits: nat): (r: Option<seq<Cell>>)
    ensures r.Some? <==> forall k :: 0 <= k < |cells| ==> ConvertCell(conv, cells[k], digits).Some?
    ensures r.Some? ==> |r.value| == |cells|
    ensures r.Some? ==> forall k :: 0 <= k < |cells| ==> r.value[k] == ConvertCell(conv, cells[k], digits).value
  {
    if cells == [] then Some([])
    else
      match (ConvertCell(conv, cells[0], digits), ConvertCells(conv, cells[1..], digits))
      case (Some(c), Some(rest)) => Some([c] + rest)
      case _ => None
  }

  function ConvertColumn(conv: Conversion, col: Column, digits: nat): (r: Option<Column>)
    ensures r.Some? ==> r.value.name == col.name && |r.value.cells| == |col.cells|
  {
    match ConvertCells(conv, col.cells, digits)
    case Some(cells) => Some(Column(col.name, cells))
    case None => None
  }

  // ---------------------------------------------------------------------
  // convert_units, statement by statement

  /** The columns named `name` rewritten, as `df[name] = f(df[name])` does; the others kept. */
  function ConvertNamed(df: Table, name: string, conv: Conversion, digits: nat): (r: Option<Table>)
    ensures r.Some? <==> forall i :: 0 <= i < |df| && df[i].name == name ==> ConvertColumn(conv, df[i], digits).Some?
    ensures r.Some? ==> |r.value| == |df| && Names(r.value) == Names(df)
    ensures r.Some? ==> forall i :: 0 <= i < |df| ==>
      r.value[i] == if df[i].name == name then ConvertColumn(conv, df[i], digits).value else df[i]
  {
    if df == [] then Some([])
    else
      var head := if df[0].name == name then ConvertColumn(conv, df[0], digits) else Some(df[0]);
      match (head, ConvertNamed(df[1..], name, conv, digits))
      case (Some(c), Some(rest)) =>
        assert forall i :: 1 <= i < |df| ==> ([c] + rest)[i] == rest[i - 1];
        Some([c] + rest)
      case _ => None
  }

  /** `df[name] = f(df[name])`: a missing column is a `KeyError`, a bad cell a `NotNumeric` error. */
  function Assign(df: Table, name: string, conv: Conversion, digits: nat): (r: Result<Table, ConvertError>)
    ensures name !in Names(df) ==> r == Err(MissingColumn(name))
    ensures r.Ok? ==> Names(r.value) == Names(df)
  {
    if name !in Names(df) then Err(MissingColumn(name))
    else
      match ConvertNamed(df, name, conv, digits)
      case Some(t) => Ok(t)
      case None => Err(NotNumeric(name))
  }

  /** One of the three `for` loops of `convert_units`, over the selected column names in order. */
  function ConvertEach(df: Table, names: seq<string>, conv: Conversion, digits: nat): (r: Result<Table, ConvertError>)
    ensures r.Ok? ==> Names(r.value) == Names(df)
    decreases |names|
  {
    if names == [] then Ok(df)
    else
      match Assign(df, names[0], conv, digits)
      case Ok(t) => ConvertEach(t, names[1..], conv, digits)
      case Err(e) => Err(e)
  }

  /** The table after the loop over the "distance" columns. */
  function AfterDistance(df: Table, digits: nat): Result<Table, ConvertError>
  {
    ConvertEach(df, FindColumns(df, "distance"), ToKilometres, digits)
  }

  /** The table after the loop over the "time" columns. */
  function AfterTime(df: Table, digits: nat): Result<Table, ConvertError>
  {
    var t :- AfterDistance(df, digits);
    ConvertEach(t, FindColumns(t, "time"), ToDuration, digits)
  }

  /** The table after the loop over the "speed" columns. */
  function AfterSpeed(df: Table, digits: nat): Result<Table, ConvertError>
  {
    var t :- AfterTime(df, digits);
    ConvertEach(t, FindColumns(t, "speed"), ToKmPerHour, digits)
  }

  /** `convert_units(df, rounding_digits)`: the three loops, then the rounding of `total_elevation_gain`. */
  function ConvertUnitsSpec(df: Table, digits: nat): Result<Table, ConvertError>
  {
    var t :- AfterSpeed(df, digits);
    Assign(t, "total_elevation_gain", RoundOnly, digits)
  }

  /** One loop of `convert_units`: overwrite each selected column in turn. */
  method ConvertSelected(df: Table, names: seq<string>, conv: Conversion, digits: nat)
    returns (r: Result<Table, ConvertError>)
    ensures r == ConvertEach(df, names, conv, digits)
  {
    var t := df;
    var k := 0;
    while k < |names|
      invariant 0 <= k <= |names|
      invariant ConvertEach(df, names, conv, digits) == ConvertEach(t, names[k..], conv, digits)
    {
      assert names[k..][1..] == names[k + 1..];
      var step := Assign(t, names[k], conv, digits);
      if step.Err? {
        return Err(step.error);
      }
      t := step.value;
      k := k + 1;
    }
    return Ok(t);
  }

  /**
   * `convert_units(df, rounding_digits)`. The table is a value, so the
   * caller's table is never changed: the method works on its own copy `t`.
   */
  method ConvertUnits(df: Table, digits: nat) returns (r: Result<Table, ConvertError>)
    ensures r == ConvertUnitsSpec(df, digits)
  {
    var t := df;
    var step := ConvertSelected(t, FindColumns(t, "distance"), ToKilometres, digits);
    if step.Err? {
      return Err(step.error);
    }
    t := step.value;
    step := ConvertSelected(t, FindColumns(t, "time"), ToDuration, digits);
    if step.Err? {
      return Err(step.error);
    }
    t := step.value;
    step := ConvertSelected(t, FindColumns(t, "speed"), ToKmPerHour, digits);
    if step.Err? {
      return Err(step.error);
    }
    t := step.value;
    r := Assign(t, "total_elevation_gain", RoundOnly, digits);
  }

  // ---------------------------------------------------------------------
  // What convert_units does to each column

  /** One rewrite, applied to a column only when it is selected. */
  function StageOf(col: Column, selected: bool, conv: Conversion, digits: nat): (r: Option<Column>)
    ensures r.Some? ==> r.value.name == col.name && |r.value.cells| == |col.cells|
  {
    if selected then ConvertColumn(conv, col, digits) else Some(col)
  }

  /** A column after the "distance" loop. */
  function DistanceStage(col: Column, digits: nat): Option<Column>
  {
    StageOf(col, Contains(col.name, "distance"), ToKilometres, digits)
  }

  /** A column after the "time" loop. */
  function TimeStage(col: Column, digits: nat): Option<Column>
  {
    var c :- DistanceStage(col, digits);
    StageOf(c, Contains(col.name, "time"), ToDuration, digits)
  }

  /** A column after the "speed" loop. */
  function SpeedStage(col: Column, digits: nat): Option<Column>
  {
    var c :- TimeStage(col, digits);
    StageOf(c, Contains(col.name, "speed"), ToKmPerHour, digits)
  }

  /** The rewrites one column goes through, in the order `convert_units` applies them. */
  function ColumnPipeline(col: Column, digits: nat): Option<Column>
  {
    var c :- SpeedStage(col, digits);
    StageOf(c, col.name == "total_elevation_gain", RoundOnly, digits)
  }

  /** The rewrites keep a column's name and its number of rows. */
  lemma {:induction false} ColumnPipelineShape(col: Column, digits: nat)
    ensures ColumnPipeline(col, digits).Some? ==>
      ColumnPipeline(col, digits).value.name == col.name &&
      |ColumnPipeline(col, digits).value.cells| == |col.cells|
  {
  }

  lemma {:induction false} ConvertEachPerColumn(df: Table, ns: seq<string>, conv: Conversion, digits: nat)
    requires DistinctNames(df) && Distinct(ns)
    requires forall n :: n in ns ==> n in Names(df)
    ensures ConvertEach(df, ns, conv, digits).Ok? <==>
      forall i :: 0 <= i < |df| ==> StageOf(df[i], df[i].name in ns, conv, digits).Some?
    ensures ConvertEach(df, ns, conv, digits).Ok? ==>
      var t := ConvertEach(df, ns, conv, digits).value;
      |t| == |df| && forall i :: 0 <= i < |df| ==> t[i] == StageOf(df[i], df[i].name in ns, conv, digits).value
    decreases |ns|
  {
    if ns != [] {
      match ConvertNamed(df, ns[0], conv, digits)
      case None =>
        ConvertEachFirstFails(df, ns, conv, digits);
      case Some(t) =>
        ConvertEachStep(df, ns, conv, digits, t);
        ConvertEachPerColumn(t, ns[1..], conv, digits);
    }
  }

  /** When the first name's rewrite fails, the loop fails, and so does that column's stage. */
  lemma {:induction false} ConvertEachFirstFails(df: Table, ns: seq<string>, conv: Conversion, digits: nat)
    requires ns != [] && ns[0] in Names(df)
    requires ConvertNamed(df, ns[0], conv, digits).None?
    ensures ConvertEach(df, ns, conv, digits).Err?
    ensures exists i :: 0 <= i < |df| && StageOf(df[i], df[i].name in ns, conv, digits).None?
  {
    var j :| 0 <= j < |df| && df[j].name == ns[0] && ConvertColumn(conv, df[j], digits).None?;
    assert StageOf(df[j], df[j].name in ns, conv, digits).None?;
  }

  /**
   * One turn of the loop: the rest of the loop runs on the rewritten table,
   * and each column's stage over the remaining names is its stage over all of them.
   */
  lemma {:induction false} ConvertEachStep(df: Table, ns: seq<string>, conv: Conversion, digits: nat, t: Table)
    requires DistinctNames(df) && Distinct(ns) && ns != []
    requires forall n :: n in ns ==> n in Names(df)
    requires ConvertNamed(df, ns[0], conv, digits) == Some(t)
    ensures ConvertEach(df, ns, conv, digits) == ConvertEach(t, ns[1..], conv, digits)
    ensures |t| == |df| && DistinctNames(t) && Distinct(ns[1..])
    ensures forall m :: m in ns[1..] ==> m in Names(t)
    ensures forall i :: 0 <= i < |df| ==>
      StageOf(t[i], t[i].name in ns[1..], conv, digits) == StageOf(df[i], df[i].name in ns, conv, digits)
  {
    var n, rest := ns[0], ns[1..];
    assert ns[0] in ns;
    assert Assign(df, n, conv, digits) == Ok(t);
    assert forall i :: 0 <= i < |t| ==> t[i].name == df[i].name by {
      forall i | 0 <= i < |t| ensures t[i].name == df[i].name {
        assert Names(t)[i] == Names(df)[i];
      }
    }
    forall m | m in rest ensures m in Names(t) {
      assert m in ns;
    }
    forall i | 0 <= i < |df|
      ensures StageOf(t[i], t[i].name in rest, conv, digits) == StageOf(df[i], df[i].name in ns, conv, digits)
    {
      if df[i].name == n {
        assert n !in rest by {
          forall k | 0 <= k < |rest| ensures rest[k] != n { assert ns[k + 1] != ns[0]; }
        }
      } else {
        assert (df[i].name in rest) == (df[i].name in ns);
      }
    }
  }


  lemma {:induction false} SelectedByName(df: Table, term: string, i: int)
    requires 0 <= i < |df|
    ensures (df[i].name in FindColumns(df, term)) == Contains(df[i].name, term)
  {
    assert df[i].name in Names(df);
  }

  /** The column-by-column form of one loop of `convert_units`. */
  lemma {:induction false} ConvertStage(df: Table, term: string, conv: Conversion, digits: nat)
    requires DistinctNames(df)
    ensures ConvertEach(df, FindColumns(df, term), conv, digits).Ok? <==>
      forall i :: 0 <= i < |df| ==> StageOf(df[i], Contains(df[i].name, term), conv, digits).Some?
    ensures ConvertEach(df, FindColumns(df, term), conv, digits).Ok? ==>
      var t := ConvertEach(df, FindColumns(df, term), conv, digits).value;
      |t| == |df| && forall i :: 0 <= i < |df| ==> t[i] == StageOf(df[i], Contains(df[i].name, term), conv, digits).value
  {
    FindColumnsDistinct(df, term);
    ConvertEachPerColumn(df, FindColumns(df, term), conv, digits);
    forall i | 0 <= i < |df| ensures (df[i].name in FindColumns(df, term)) == Contains(df[i].name, term) {
      SelectedByName(df, term, i);
    }
  }

  lemma {:induction false} SameNamesDistinct(a: Table, b: Table)
    requires Names(a) == Names(b) && DistinctNames(a)
    ensures DistinctNames(b) && |a| == |b|
    ensures forall i :: 0 <= i < |a| ==> a[i].name == b[i].name
  {
    forall i | 0 <= i < |a| ensures a[i].name == b[i].name {
      assert Names(a)[i] == Names(b)[i];
    }
  }

  /** The final `df["total_elevation_gain"] = round(...)` on a table with distinct names. */
  lemma {:induction false} AssignPerColumn(df: Table, name: string, conv: Conversion, digits: nat)
    requires DistinctNames(df)
    ensures Assign(df, name, conv, digits).Ok? <==>
      name in Names(df) && forall i :: 0 <= i < |df| ==> StageOf(df[i], df[i].name == name, conv, digits).Some?
    ensures Assign(df, name, conv, digits).Ok? ==>
      var t := Assign(df, name, conv, digits).value;
      |t| == |df| && forall i :: 0 <= i < |df| ==> t[i] == StageOf(df[i], df[i].name == name, conv, digits).value
  {
  }

  lemma {:induction false} AfterDistancePerColumn(df: Table, digits: nat)
    requires DistinctNames(df)
    ensures AfterDistance(df, digits).Ok? <==> forall i :: 0 <= i < |df| ==> DistanceStage(df[i], digits).Some?
    ensures AfterDistance(df, digits).Ok? ==>
      var t := AfterDistance(df, digits).value;
      Names(t) == Names(df) && forall i :: 0 <= i < |df| ==> t[i] == DistanceStage(df[i], digits).value
  {
    ConvertStage(df, "distance", ToKilometres, digits);
  }

  lemma {:induction false} AfterTimePerColumn(df: Table, digits: nat)
    requires DistinctNames(df)
    ensures AfterTime(df, digits).Ok? <==> forall i :: 0 <= i < |df| ==> TimeStage(df[i], digits).Some?
    ensures AfterTime(df, digits).Ok? ==>
      var t := AfterTime(df, digits).value;
      Names(t) == Names(df) && forall i :: 0 <= i < |df| ==> t[i] == TimeStage(df[i], digits).value
  {
    AfterDistancePerColumn(df, digits);
    if AfterDistance(df, digits).Ok? {
      var t := AfterDistance(df, digits).value;
      SameNamesDistinct(df, t);
      ConvertStage(t, "time", ToDuration, digits);
    } else {
      var i :| 0 <= i < |df| && DistanceStage(df[i], digits).None?;
      assert TimeStage(df[i], digits).None?;
    }
  }

  lemma {:induction false} AfterSpeedPerColumn(df: Table, digits: nat)
    requires DistinctNames(df)
    ensures AfterSpeed(df, digits).Ok? <==> forall i :: 0 <= i < |df| ==> SpeedStage(df[i], digits).Some?
    ensures AfterSpeed(df, digits).Ok? ==>
      var t := AfterSpeed(df, digits).value;
      Names(t) == Names(df) && forall i :: 0 <= i < |df| ==> t[i] == SpeedStage(df[i], digits).value
  {
    AfterTimePerColumn(df, digits);
    if AfterTime(df, digits).Ok? {
      var t := AfterTime(df, digits).value;
      SameNamesDistinct(df, t);
      ConvertStage(t, "speed", ToKmPerHour, digits);
    } else {
      var i :| 0 <= i < |df| && TimeStage(df[i], digits).None?;
      assert SpeedStage(df[i], digits).None?;
    }
  }

  /**
   * Column by column: on a table with distinct column names, `convert_units`
   * succeeds exactly when `total_elevation_gain` is present and every column
   * survives its own rewrites, and then each column of the result is its
   * input column put through `ColumnPipeline`.
   */
  lemma {:induction false} ConvertUnitsPerColumn(df: Table, digits: nat)
    requires DistinctNames(df)
    ensures ConvertUnitsSpec(df, digits).Ok? <==>
      "total_elevation_gain" in Names(df) && forall i :: 0 <= i < |df| ==> ColumnPipeline(df[i], digits).Some?
    ensures ConvertUnitsSpec(df, digits).Ok? ==>
      var t := ConvertUnitsSpec(df, digits).value;
      |t| == |df| && forall i :: 0 <= i < |df| ==> t[i] == ColumnPipeline(df[i], digits).value
  {
    AfterSpeedPerColumn(df, digits);
    if AfterSpeed(df, digits).Ok? {
      var t := AfterSpeed(df, digits).value;
      SameNamesDistinct(df, t);
      AssignPerColumn(t, "total_elevation_gain", RoundOnly, digits);
    } else {
      var i :| 0 <= i < |df| && SpeedStage(df[i], digits).None?;
      assert ColumnPipeline(df[i], digits).None?;
    }
  }

  /** A column whose name matches none of "distance", "time", "speed" and is not `total_elevation_gain` is passed through unchanged. */
  lemma {:induction false} ConvertUnitsPassThrough(df: Table, digits: nat, t: Table, i: int)
    requires DistinctNames(df) && 0 <= i < |df|
    requires ConvertUnitsSpec(df, digits) == Ok(t)
    requires !Contains(df[i].name, "distance") && !Contains(df[i].name, "time") && !Contains(df[i].name, "speed")
    requires df[i].name != "total_elevation_gain"
    ensures |t| == |df| && t[i] == df[i]
  {
    ConvertUnitsPerColumn(df, digits);
  }

  /** No character of `s` is `c`. */
  predicate Lacks(s: string, c: char)
  {
    forall j :: 0 <= j < |s| ==> s[j] != c
  }

  /** A string lacking one of `t`'s characters cannot contain `t`. */
  lemma {:induction false} MissingCharNotContained(s: string, t: string, c: char)
    requires c in t && Lacks(s, c)
    ensures !Contains(s, t)
  {
    if s != [] {
      assert forall j :: 0 <= j < |s[1..]| ==> s[1..][j] == s[j + 1];
      MissingCharNotContained(s[1..], t, c);
    }
  }

  /** A string in which the first two characters of `t` never stand side by side cannot contain `t`. */
  lemma {:induction false} MissingPairNotContained(s: string, t: string)
    requires |t| >= 2
    requires forall j :: 0 <= j < |s| - 1 ==> !(s[j] == t[0] && s[j + 1] == t[1])
    ensures !Contains(s, t)
  {
    forall i | 0 <= i <= |s|
      ensures !(t <= s[i..])
    {
      if i < |s| - 1 {
        assert s[i..][0] == s[i] && s[i..][1] == s[i + 1];
        PairNotPrefix(s[i..], t);
      }
    }
    ContainsIff(s, t);
  }

  lemma {:induction false} PairNotPrefix(u: string, t: string)
    requires |u| >= 2 && |t| >= 2 && !(u[0] == t[0] && u[1] == t[1])
    ensures !(t <= u)
  {
  }

  /** An occurrence at a known position is an occurrence. */
  lemma {:induction false} ContainsAt(s: string, t: string, i: nat)
    requires i <= |s| && t <= s[i..]
    ensures Contains(s, t)
  {
    ContainsIff(s, t);
  }

  /** `total_elevation_gain` is touched by none of the three loops, only by the final rounding. */
  lemma {:induction false} ElevationNameMatchesNoLoop()
    ensures !Contains("total_elevation_gain", "distance")
    ensures !Contains("total_elevation_gain", "time")
    ensures !Contains("total_elevation_gain", "speed")
  {
    var name := "total_elevation_gain";
    assert Lacks(name, 'd') && Lacks(name, 'm') && Lacks(name, 'p');
    assert 'd' in "distance" && 'm' in "time" && 'p' in "speed";
    MissingCharNotContained(name, "distance", 'd');
    MissingCharNotContained(name, "time", 'm');
    MissingCharNotContained(name, "speed", 'p');
  }

  /** The pipeline of a column that matches exactly one of the three loops. */
  lemma {:induction false} PipelineSingle(col: Column, digits: nat)
    ensures Contains(col.name, "distance") && !Contains(col.name, "time") && !Contains(col.name, "speed") ==>
      ColumnPipeline(col, digits) == ConvertColumn(ToKilometres, col, digits)
    ensures Contains(col.name, "time") && !Contains(col.name, "distance") && !Contains(col.name, "speed") ==>
      ColumnPipeline(col, digits) == ConvertColumn(ToDuration, col, digits)
    ensures Contains(col.name, "speed") && !Contains(col.name, "distance") && !Contains(col.name, "time") ==>
      ColumnPipeline(col, digits) == ConvertColumn(ToKmPerHour, col, digits)
  {
    ElevationNameMatchesNoLoop();
    if Contains(col.name, "distance") || Contains(col.name, "time") || Contains(col.name, "speed") {
      assert col.name != "total_elevation_gain";
    }
  }

  /** A column that none of the rewrites selects leaves the pipeline unchanged. */
  lemma {:induction false} PipelineUntouched(col: Column, digits: nat)
    requires !Contains(col.name, "distance") && !Contains(col.name, "time") && !Contains(col.name, "speed")
    requires col.name != "total_elevation_gain"
    ensures ColumnPipeline(col, digits) == Some(col)
  {
  }

  /** `total_elevation_gain` goes through the final rounding only. */
  lemma {:induction false} PipelineElevation(col: Column, digits: nat)
    requires col.name == "total_elevation_gain"
    ensures ColumnPipeline(col, digits) == ConvertColumn(RoundOnly, col, digits)
  {
    ElevationNameMatchesNoLoop();
  }

  /** A column of numbers survives every rewrite; text cells are what make a rewrite fail. */
  lemma {:induction false} ConvertColumnSome(conv: Conversion, col: Column, digits: nat)
    requires forall k :: 0 <= k < |col.cells| ==> !col.cells[k].Str?
    requires conv == ToDuration ==> forall k :: 0 <= k < |col.cells| ==> col.cells[k].Int? || col.cells[k].Real?
    ensures ConvertColumn(conv, col, digits).Some?
  {
  }

  lemma {:induction false} CellOfConverted(conv: Conversion, col: Column, digits: nat, k: int)
    requires 0 <= k < |col.cells|
    requires ConvertColumn(conv, col, digits).Some?
    ensures |ConvertColumn(conv, col, digits).value.cells| == |col.cells|
    ensures ConvertColumn(conv, col, digits).value.cells[k] == ConvertCell(conv, col.cells[k], digits).value
  {
  }

  /** The cells of a converted column, one conversion at a time. */
  lemma {:induction false} ConvertedCells(conv: Conversion, col: Column, digits: nat, out: Column, k: int)
    requires ConvertColumn(conv, col, digits) == Some(out)
    requires 0 <= k < |col.cells|
    ensures |out.cells| == |col.cells|
    ensures conv == ToKilometres && col.cells[k].Real? ==> out.cells[k] == Real(Numeric.Round(col.cells[k].r / 1000.0, digits))
    ensures conv == ToKilometres && col.cells[k].Int? ==> out.cells[k] == Real(Numeric.Round(col.cells[k].i as real / 1000.0, digits))
    ensures conv == ToKmPerHour && col.cells[k].Real? ==> out.cells[k] == Real(Numeric.Round(col.cells[k].r * 3.6, digits))
    ensures conv == ToKmPerHour && col.cells[k].Int? ==> out.cells[k] == Real(Numeric.Round(col.cells[k].i as real * 3.6, digits))
    ensures conv == ToDuration && col.cells[k].Int? ==> out.cells[k] == Str(Duration.Format(col.cells[k].i))
    ensures conv == ToDuration && col.cells[k].Real? ==> out.cells[k] == Str(Duration.Format(col.cells[k].r.Floor))
    ensures conv == RoundOnly && col.cells[k].Int? ==> out.cells[k] == col.cells[k]
    ensures conv == RoundOnly && col.cells[k].Real? ==> out.cells[k] == Real(Numeric.Round(col.cells[k].r, digits))
    ensures conv != ToDuration && (col.cells[k].NaN? || col.cells[k].Inf?) ==> out.cells[k] == col.cells[k]
  {
    CellOfConverted(conv, col, digits, k);
    NumericCells(col.cells[k], digits);
  }

  /** A distance column (and no other kind) holds `round(v / 1000, digits)` of each input value. */
  lemma {:induction false} PipelineDistance(col: Column, digits: nat, out: Column, k: int)
    requires Contains(col.name, "distance") && !Contains(col.name, "time") && !Contains(col.name, "speed")
    requires ColumnPipeline(col, digits) == Some(out)
    requires 0 <= k < |col.cells|
    ensures out.name == col.name && |out.cells| == |col.cells|
    ensures col.cells[k].Real? ==> out.cells[k] == Real(Numeric.Round(col.cells[k].r / 1000.0, digits))
    ensures col.cells[k].Int? ==> out.cells[k] == Real(Numeric.Round(col.cells[k].i as real / 1000.0, digits))
  {
    PipelineSingle(col, digits);
    ConvertedCells(ToKilometres, col, digits, out, k);
  }

  /** A speed column (and no other kind) holds `round(v * 3.6, digits)` of each input value. */
  lemma {:induction false} PipelineSpeed(col: Column, digits: nat, out: Column, k: int)
    requires Contains(col.name, "speed") && !Contains(col.name, "distance") && !Contains(col.name, "time")
    requires ColumnPipeline(col, digits) == Some(out)
    requires 0 <= k < |col.cells|
    ensures out.name == col.name && |out.cells| == |col.cells|
    ensures col.cells[k].Real? ==> out.cells[k] == Real(Numeric.Round(col.cells[k].r * 3.6, digits))
    ensures col.cells[k].Int? ==> out.cells[k] == Real(Numeric.Round(col.cells[k].i as real * 3.6, digits))
  {
    PipelineSingle(col, digits);
    ConvertedCells(ToKmPerHour, col, digits, out, k);
  }

  /**
   * A time column (and no other kind) holds "D days HH:MM" of each input
   * value, a fractional second count taken down to whole seconds first;
   * `Duration.FormatRoundTrip` says what that text reads back as.
   */
  lemma {:induction false} PipelineTime(col: Column, digits: nat, out: Column, k: int)
    requires Contains(col.name, "time") && !Contains(col.name, "distance") && !Contains(col.name, "speed")
    requires ColumnPipeline(col, digits) == Some(out)
    requires 0 <= k < |col.cells|
    ensures out.name == col.name && |out.cells| == |col.cells|
    ensures col.cells[k].Int? ==> out.cells[k] == Str(Duration.Format(col.cells[k].i))
    ensures col.cells[k].Real? ==> out.cells[k] == Str(Duration.Format(col.cells[k].r.Floor))
  {
    PipelineSingle(col, digits);
    ConvertedCells(ToDuration, col, digits, out, k);
  }

  /** A missing or infinite seconds count cannot become a timedelta: the time rewrite fails. */
  lemma {:induction false} TimeRejectsNonFinite(col: Column, digits: nat, k: int)
    requires 0 <= k < |col.cells| && (col.cells[k].NaN? || col.cells[k].Inf?)
    ensures ConvertColumn(ToDuration, col, digits).None?
  {
    assert ConvertCell(ToDuration, col.cells[k], digits).None?;
  }

  /** A time column holding a missing or infinite value makes the whole call fail. */
  lemma {:induction false} PipelineTimeRejectsNonFinite(col: Column, digits: nat, k: int)
    requires Contains(col.name, "time") && !Contains(col.name, "distance") && !Contains(col.name, "speed")
    requires 0 <= k < |col.cells| && (col.cells[k].NaN? || col.cells[k].Inf?)
    ensures ColumnPipeline(col, digits).None?
  {
    PipelineSingle(col, digits);
    TimeRejectsNonFinite(col, digits, k);
  }

  /** A seconds cell after the duration conversion. */
  lemma {:induction false} DurationCell(col: Column, digits: nat, out: Column, k: int, s: int)
    requires ConvertColumn(ToDuration, col, digits) == Some(out)
    requires 0 <= k < |col.cells| && col.cells[k] == Int(s)
    ensures out.name == col.name && |out.cells| == |col.cells|
    ensures out.cells[k] == Str(Duration.Format(s))
  {
    CellOfConverted(ToDuration, col, digits, k);
  }

  /** A string cell in a distance, time or speed column makes the whole call fail. */
  lemma {:induction false} PipelineRejectsText(col: Column, digits: nat, k: int)
    requires Contains(col.name, "distance") || Contains(col.name, "time") || Contains(col.name, "speed")
    requires 0 <= k < |col.cells| && col.cells[k].Str?
    ensures ColumnPipeline(col, digits).None?
  {
    if Contains(col.name, "distance") {
      assert ConvertCell(ToKilometres, col.cells[k], digits).None?;
    } else if Contains(col.name, "time") {
      assert ConvertCell(ToDuration, col.cells[k], digits).None?;
    } else {
      assert ConvertCell(ToKmPerHour, col.cells[k], digits).None?;
    }
  }

  /** `total_elevation_gain` must exist: without it the call fails with a `KeyError`. */
  lemma {:induction false} ConvertUnitsNeedsElevation(df: Table, digits: nat)
    requires "total_elevation_gain" !in Names(df)
    ensures ConvertUnitsSpec(df, digits).Err?
  {
  }
}
