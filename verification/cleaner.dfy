/** `DataProcessor.clean_data`: sentinel removal, sparse-row dropping, linear
    interpolation and median filling of the four tracked channels. */
module Cleaner {
  import opened Types
  import opened Seqs
  import opened Tables
  import opened Interpolation
  import opened Stats

  /** The channels the cleaner works on, in the order the source lists them. */
  const Tracked: seq<string> := ["co_gt", "no2_gt", "temperature", "humidity"]

  /** The raw reading the sensor writes for "no measurement". */
  const Sentinel: real := -200.0

  lemma TrackedDistinct()
    ensures Distinct(Tracked)
  {
  }

  // ---------------------------------------------------------------- step 1: sentinel

  function ScrubCell(name: string, c: Option<real>): Option<real>
  {
    if name in Tracked && c == Some(Sentinel) then None else c
  }

  /** Every sentinel reading in a tracked column becomes missing. */
  function ReplaceSentinel(t: Table): (r: Table)
    requires WellFormed(t)
    ensures WellFormed(r) && r.columns == t.columns && |r.rows| == |t.rows|
    ensures forall i, j :: 0 <= i < |t.rows| && 0 <= j < |t.columns| ==>
      && (r.rows[i][j].Some? ==> r.rows[i][j] == t.rows[i][j])
      && (r.rows[i][j].None? <==> (t.rows[i][j].None? || (t.columns[j] in Tracked && t.rows[i][j] == Some(Sentinel))))
    ensures forall i, j :: 0 <= i < |t.rows| && 0 <= j < |t.columns| && t.columns[j] in Tracked ==>
      r.rows[i][j] != Some(Sentinel)
  {
    var rows := seq(|t.rows|, i requires 0 <= i < |t.rows| =>
      seq(|t.columns|, j requires 0 <= j < |t.columns| => ScrubCell(t.columns[j], t.rows[i][j])));
    Table(t.columns, rows)
  }

  // ---------------------------------------------------------------- step 2: sparse rows

  /** pandas `count()` of a row: its non-missing cells over all columns. */
  function KnownCount(row: Row): nat
  {
    |Known(row)|
  }

  /** `dropna(thresh = width - 0.5 * len(Tracked))`: a row needs at least that many
      non-missing cells, counted over every column of the table. */
  predicate Survives(width: nat, row: Row)
  {
    (KnownCount(row) as real) >= (width as real) - 0.5 * (|Tracked| as real)
  }

  function SurvivesIn(width: nat): Row -> bool
  {
    row => Survives(width, row)
  }

  /** With four tracked channels the threshold is "at most two cells missing". */
  lemma SurvivesIffAtMostTwoMissing(width: nat, row: Row)
    ensures Survives(width, row) <==> KnownCount(row) + 2 >= width
  {
  }

  function DropSparseRows(t: Table): (r: Table)
    requires WellFormed(t)
    ensures WellFormed(r) && r.columns == t.columns
    ensures IsSubsequence(r.rows, t.rows)
    ensures forall row :: row in r.rows ==> KnownCount(row) + 2 >= |t.columns|
    ensures forall row :: row in t.rows && KnownCount(row) + 2 >= |t.columns| ==> row in r.rows
    ensures |r.rows| == Count(t.rows, SurvivesIn(|t.columns|))
    ensures r.rows == Filter(t.rows, SurvivesIn(|t.columns|))
  {
    var rows := Filter(t.rows, SurvivesIn(|t.columns|));
    FilterIsSubsequence(t.rows, SurvivesIn(|t.columns|));
    FilterPartition(t.rows, SurvivesIn(|t.columns|));
    assert forall i :: 0 <= i < |rows| ==> rows[i] in t.rows;
    Table(t.columns, rows)
  }

  // ---------------------------------------------------------------- steps 3 and 4: per column

  /** pandas `fillna(median())`: gaps take the median of the present values; a column
      without any present value has a NaN median and stays as it is. */
  function FillWithMedian(c: seq<Option<real>>): (r: seq<Option<real>>)
    ensures |r| == |c|
    ensures |Known(c)| == 0 ==> r == c
    ensures forall i :: 0 <= i < |c| && c[i].Some? ==> r[i] == c[i]
    ensures |Known(c)| > 0 ==> forall i :: 0 <= i < |c| && c[i].None? ==> r[i] == Some(Median(Known(c)))
  {
    var vals := Known(c);
    if |vals| == 0 then c
    else seq(|c|, i requires 0 <= i < |c| => if c[i].None? then Some(Median(vals)) else c[i])
  }

  /** After the median fill a column with a present value has no gap; present values are
      unchanged and every filled value lies within the range of the present ones. */
  lemma FillWithMedianSpec(c: seq<Option<real>>)
    requires exists k :: 0 <= k < |c| && c[k].Some?
    ensures forall i :: 0 <= i < |c| ==> FillWithMedian(c)[i].Some?
    ensures forall i :: 0 <= i < |c| && c[i].Some? ==> FillWithMedian(c)[i] == c[i]
    ensures forall i :: 0 <= i < |c| && c[i].None? ==>
      (exists k :: 0 <= k < |c| && c[k].Some? && c[k].value <= FillWithMedian(c)[i].value)
      && (exists k :: 0 <= k < |c| && c[k].Some? && FillWithMedian(c)[i].value <= c[k].value)
  {
    var vals := Known(c);
    assert |vals| > 0;
    MedianBetween(vals);
    var m := Median(vals);
    var lo :| 0 <= lo < |vals| && vals[lo] <= m;
    var hi :| 0 <= hi < |vals| && m <= vals[hi];
    var klo := KnownSource(c, lo);
    var khi := KnownSource(c, hi);
    GapsBetween(c, FillWithMedian(c), m, klo, khi);
  }

  /** Gaps filled with a value that lies between two present values lie in their range. */
  lemma GapsBetween(c: seq<Option<real>>, r: seq<Option<real>>, m: real, klo: nat, khi: nat)
    requires |r| == |c| && klo < |c| && khi < |c| && c[klo].Some? && c[khi].Some?
    requires c[klo].value <= m <= c[khi].value
    requires forall i :: 0 <= i < |c| && c[i].None? ==> r[i] == Some(m)
    ensures forall i :: 0 <= i < |c| && c[i].None? ==>
      (exists k :: 0 <= k < |c| && c[k].Some? && c[k].value <= r[i].value)
      && (exists k :: 0 <= k < |c| && c[k].Some? && r[i].value <= c[k].value)
  {
    forall i | 0 <= i < |c| && c[i].None?
      ensures c[klo].value <= r[i].value <= c[khi].value
    {
    }
  }

  /** The two column passes of the cleaner. */
  datatype ColumnStep = InterpolateStep | MedianFillStep

  function ApplyStep(step: ColumnStep, c: seq<Option<real>>): (r: seq<Option<real>>)
    ensures |r| == |c|
  {
    match step
    case InterpolateStep => Interpolate(c)
    case MedianFillStep => FillWithMedian(c)
  }

  /** One pass of `for col in numeric_cols: df[col] = step(df[col])`: each named column is
      replaced by the step applied to it and every other column is left alone. */
  function MapColumns(t: Table, names: seq<string>, step: ColumnStep): (r: Table)
    requires WellFormed(t) && Distinct(names)
    requires forall k :: 0 <= k < |names| ==> names[k] in t.columns
    ensures WellFormed(r) && r.columns == t.columns && |r.rows| == |t.rows|
    decreases |names|
  {
    if |names| == 0 then t
    else
      var j := IndexOf(t.columns, names[0]).value;
      var t1 := ReplaceColumn(t, j, ApplyStep(step, Column(t, j)));
      assert forall k :: 0 <= k < |names| - 1 ==> names[1..][k] == names[k + 1];
      MapColumns(t1, names[1..], step)
  }

  /** The listed columns go through the step, the others stay as they were. */
  lemma {:induction false} MapColumnsSpec(t: Table, names: seq<string>, step: ColumnStep, k: nat)
    requires WellFormed(t) && Distinct(names)
    requires forall m :: 0 <= m < |names| ==> names[m] in t.columns
    requires k < |t.columns|
    ensures t.columns[k] in names ==> Column(MapColumns(t, names, step), k) == ApplyStep(step, Column(t, k))
    ensures t.columns[k] !in names ==> Column(MapColumns(t, names, step), k) == Column(t, k)
    decreases |names|
  {
    if |names| > 0 {
      var j := IndexOf(t.columns, names[0]).value;
      var t1 := ReplaceColumn(t, j, ApplyStep(step, Column(t, j)));
      var rest := names[1..];
      assert forall m :: 0 <= m < |rest| ==> rest[m] == names[m + 1];
      assert MapColumns(t, names, step) == MapColumns(t1, rest, step);
      MapColumnsSpec(t1, rest, step, k);
      assert names[0] !in rest;
      if k == j {
        assert t.columns[k] !in rest;
      } else {
        assert t.columns[k] != names[0];
        assert t.columns[k] in names <==> t.columns[k] in rest;
      }
    }
  }

  // ---------------------------------------------------------------- the whole cleaning

  /** The names among `names` that are not columns, in order: the key list of the
      `KeyError` pandas raises. */
  function Absent(names: seq<string>, columns: seq<string>): (r: seq<string>)
    ensures forall x :: x in r <==> x in names && x !in columns
  {
    if |names| == 0 then []
    else if names[0] in columns then Absent(names[1..], columns)
    else [names[0]] + Absent(names[1..], columns)
  }

  predicate AllTrackedPresent(t: Table)
  {
    forall k :: 0 <= k < |Tracked| ==> Tracked[k] in t.columns
  }

  lemma AbsentEmpty(t: Table)
    ensures |Absent(Tracked, t.columns)| == 0 <==> AllTrackedPresent(t)
  {
    var a := Absent(Tracked, t.columns);
    if !AllTrackedPresent(t) {
      var k :| 0 <= k < |Tracked| && Tracked[k] !in t.columns;
      assert Tracked[k] in a;
    }
    if |a| > 0 {
      assert a[0] in a;
    }
  }

  /** The rows left after the sentinel and row-dropping steps. */
  function Survivors(t: Table): (r: Table)
    requires WellFormed(t)
    ensures WellFormed(r) && r.columns == t.columns
  {
    DropSparseRows(ReplaceSentinel(t))
  }

  /** The cleaning of a loaded table. Selecting all tracked columns at once raises a
      `KeyError` when one is absent, so the per-column presence guards never let a
      table without all four through. */
  function CleanTable(t: Table): (r: Result<Table>)
    requires WellFormed(t)
    ensures r.Err? <==> !AllTrackedPresent(t)
    ensures r.Err? ==> r.error == MissingColumns(Absent(Tracked, t.columns))
    ensures r.Ok? ==> WellFormed(r.value) && r.value.columns == t.columns
    ensures r.Ok? ==> |r.value.rows| == |Survivors(t).rows|
  {
    AbsentEmpty(t);
    if |Absent(Tracked, t.columns)| > 0 then
      Err(MissingColumns(Absent(Tracked, t.columns)))
    else
      TrackedDistinct();
      var interpolated := MapColumns(Survivors(t), Tracked, InterpolateStep);
      Ok(MapColumns(interpolated, Tracked, MedianFillStep))
  }

  /** Each tracked column of the cleaned table is the surviving column interpolated and
      then median-filled; every other column is the surviving column unchanged. */
  lemma CleanTableColumns(t: Table, j: nat)
    requires WellFormed(t) && AllTrackedPresent(t) && j < |t.columns|
    ensures t.columns[j] in Tracked ==>
      Column(CleanTable(t).value, j) == FillWithMedian(Interpolate(Column(Survivors(t), j)))
    ensures t.columns[j] !in Tracked ==>
      Column(CleanTable(t).value, j) == Column(Survivors(t), j)
  {
    AbsentEmpty(t);
    TrackedDistinct();
    var s := Survivors(t);
    var interpolated := MapColumns(s, Tracked, InterpolateStep);
    var r := MapColumns(interpolated, Tracked, MedianFillStep);
    assert CleanTable(t).value == r;
    MapColumnsSpec(s, Tracked, InterpolateStep, j);
    MapColumnsSpec(interpolated, Tracked, MedianFillStep, j);
  }

  /** Interpolation followed by the median fill leaves no gap in a column with a present
      value, and keeps the present values. */
  lemma CleanColumnNoGaps(s: seq<Option<real>>, k: nat)
    requires k < |s| && s[k].Some?
    ensures forall i :: 0 <= i < |s| ==> FillWithMedian(Interpolate(s))[i].Some?
    ensures forall i :: 0 <= i < |s| && s[i].Some? ==> FillWithMedian(Interpolate(s))[i] == s[i]
  {
    var c := Interpolate(s);
    InterpolateKeepsKnown(s);
    assert c[k].Some?;
    FillWithMedianSpec(c);
  }

  lemma CellsOfCleanedColumn(sv: Table, r: Table, j: nat, k: nat)
    requires WellFormed(sv) && WellFormed(r) && j < |sv.columns| && j < |r.columns|
    requires |r.rows| == |sv.rows| && k < |sv.rows| && Cell(sv.rows[k], j).Some?
    requires Column(r, j) == FillWithMedian(Interpolate(Column(sv, j)))
    ensures forall i :: 0 <= i < |r.rows| ==> Cell(r.rows[i], j).Some?
    ensures forall i :: 0 <= i < |sv.rows| && Cell(sv.rows[i], j).Some? ==> Cell(r.rows[i], j) == Cell(sv.rows[i], j)
  {
    var s := Column(sv, j);
    assert s[k].Some?;
    CleanColumnNoGaps(s, k);
    var c := Column(r, j);
    assert forall i :: 0 <= i < |r.rows| ==> c[i] == Cell(r.rows[i], j);
    assert forall i :: 0 <= i < |sv.rows| ==> s[i] == Cell(sv.rows[i], j);
  }

  /** After cleaning, a tracked column that kept at least one present value among the
      surviving rows has no gap, and the values present there are unchanged. */
  lemma CleanLeavesNoGaps(t: Table, j: nat, k: nat)
    requires WellFormed(t) && AllTrackedPresent(t)
    requires j < |t.columns| && t.columns[j] in Tracked
    requires k < |Survivors(t).rows| && Cell(Survivors(t).rows[k], j).Some?
    ensures var r := CleanTable(t).value;
      forall i :: 0 <= i < |r.rows| ==> Cell(r.rows[i], j).Some?
    ensures var r, sv := CleanTable(t).value, Survivors(t);
      forall i :: 0 <= i < |sv.rows| && Cell(sv.rows[i], j).Some? ==> Cell(r.rows[i], j) == Cell(sv.rows[i], j)
  {
    var r, sv := CleanTable(t).value, Survivors(t);
    CleanTableColumns(t, j);
    CellsOfCleanedColumn(sv, r, j, k);
  }

  // ---------------------------------------------------------------- processor state

  /** The data a `DataProcessor` holds: the loaded table and the last cleaned copy. */
  datatype Processor = Processor(data: Option<Table>, cleaned: Option<Table>)

  predicate ValidProcessor(p: Processor)
  {
    && (p.data.Some? ==> WellFormed(p.data.value))
    && (p.cleaned.Some? ==> WellFormed(p.cleaned.value))
  }

  /** The processor after a call, with what the call returned or raised. */
  datatype Outcome<T> = Outcome(state: Processor, result: Result<T>)

  /** `clean_data`: without a loaded table it raises and changes nothing. Otherwise the
      working copy is stored in `cleaned` before anything can raise, so a table lacking a
      tracked column leaves the sentinel-scrubbed copy behind. The loaded table itself
      is never modified. */
  function CleanData(p: Processor): (o: Outcome<Table>)
    requires ValidProcessor(p)
    ensures ValidProcessor(o.state) && o.state.data == p.data
    ensures p.data.None? ==> o.state == p && o.result == Err(NoDataLoaded)
    ensures p.data.Some? ==> o.state.cleaned.Some?
    ensures o.result.Ok? ==> o.state.cleaned == Some(o.result.value)
    ensures p.data.Some? && o.result.Err? ==>
      o.result.error.MissingColumns? && o.state.cleaned == Some(ReplaceSentinel(p.data.value))
    ensures p.data.Some? ==> o.result == CleanTable(p.data.value)
  {
    match p.data
    case None => Outcome(p, Err(NoDataLoaded))
    case Some(t) =>
      match CleanTable(t)
      case Ok(c) => Outcome(p.(cleaned := Some(c)), Ok(c))
      case Err(e) => Outcome(p.(cleaned := Some(ReplaceSentinel(t))), Err(e))
  }

  /** The table the filters work on: `if self.cleaned_data is None: self.clean_data()`. */
  function EnsureCleaned(p: Processor): (o: Outcome<Table>)
    requires ValidProcessor(p)
    ensures ValidProcessor(o.state) && o.state.data == p.data
    ensures p.cleaned.Some? ==> o == Outcome(p, Ok(p.cleaned.value))
    ensures p.cleaned.None? ==> o == CleanData(p)
    ensures o.result.Ok? ==> WellFormed(o.result.value) && o.state.cleaned == Some(o.result.value)
  {
    if p.cleaned.Some? then Outcome(p, Ok(p.cleaned.value)) else CleanData(p)
  }
}
