/** The measurement table as the analysis classes see it: named columns and rows of
    possibly missing cells. Text columns (date, time) take part only through whether a
    cell is present, so every cell is modelled as an optional real. */
module Tables {
  import opened Types
  import opened Seqs

  type Row = seq<Option<real>>

  datatype Table = Table(columns: seq<string>, rows: seq<Row>)

  /** No column name occurs twice. */
  predicate Distinct(names: seq<string>)
  {
    forall i, j :: 0 <= i < j < |names| ==> names[i] != names[j]
  }

  /** Every row has one cell per column and the column names are distinct. */
  predicate WellFormed(t: Table)
  {
    && (forall i :: 0 <= i < |t.rows| ==> |t.rows[i]| == |t.columns|)
    && Distinct(t.columns)
  }

  /** Position of `name` among `names`, if present. */
  function IndexOf(names: seq<string>, name: string): (r: Option<nat>)
    ensures r.Some? ==> r.value < |names| && names[r.value] == name
    ensures r.Some? ==> forall k :: 0 <= k < r.value ==> names[k] != name
    ensures r.None? <==> name !in names
  {
    if |names| == 0 then None
    else if names[0] == name then Some(0)
    else match IndexOf(names[1..], name)
      case None => None
      case Some(k) => Some(k + 1)
  }

  /** In a list of distinct names, a name's position is the only one holding it. */
  lemma IndexOfDistinct(names: seq<string>, j: nat)
    requires Distinct(names) && j < |names|
    ensures IndexOf(names, names[j]) == Some(j)
  {
  }

  /** The cell of `row` in column `j`; absent when the row is too short. */
  function Cell(row: Row, j: nat): Option<real>
  {
    if j < |row| then row[j] else None
  }

  /** Column `j` as a series. */
  function Column(t: Table, j: nat): (c: seq<Option<real>>)
    requires WellFormed(t) && j < |t.columns|
    ensures |c| == |t.rows|
    ensures forall i :: 0 <= i < |t.rows| ==> c[i] == Cell(t.rows[i], j)
  {
    seq(|t.rows|, i requires 0 <= i < |t.rows| => t.rows[i][j])
  }

  /** Column `j` replaced by `c`; every other cell stays where it was. */
  function ReplaceColumn(t: Table, j: nat, c: seq<Option<real>>): (r: Table)
    requires WellFormed(t) && j < |t.columns| && |c| == |t.rows|
    ensures WellFormed(r) && r.columns == t.columns && |r.rows| == |t.rows|
    ensures Column(r, j) == c
    ensures forall i, k :: 0 <= i < |t.rows| && 0 <= k < |t.columns| && k != j ==> r.rows[i][k] == t.rows[i][k]
    ensures forall k :: 0 <= k < |t.columns| && k != j ==> Column(r, k) == Column(t, k)
  {
    var rows := seq(|t.rows|, i requires 0 <= i < |t.rows| => t.rows[i][j := c[i]]);
    var r := Table(t.columns, rows);
    assert forall k :: 0 <= k < |t.columns| && k != j ==> Column(r, k) == Column(t, k) by {
      forall k | 0 <= k < |t.columns| && k != j
        ensures Column(r, k) == Column(t, k)
      {
        assert forall i :: 0 <= i < |t.rows| ==> Column(r, k)[i] == Column(t, k)[i];
      }
    }
    r
  }

  /** The present values of a series in order: pandas `dropna().values`. */
  function Known(c: seq<Option<real>>): (v: seq<real>)
    ensures |v| <= |c|
    ensures |v| == 0 <==> forall i :: 0 <= i < |c| ==> c[i].None?
  {
    if |c| == 0 then []
    else
      var rest := Known(c[1..]);
      assert forall i :: 1 <= i < |c| ==> c[i] == c[1..][i - 1];
      if c[0].Some? then [c[0].value] + rest else rest
  }

  /** Every value of `Known(c)` is a present cell of `c`. */
  lemma {:induction false} KnownMembers(c: seq<Option<real>>)
    ensures forall x :: x in Known(c) <==> Some(x) in c
  {
    if |c| > 0 {
      KnownMembers(c[1..]);
      assert c == [c[0]] + c[1..];
    }
  }

  /** The position in `c` that the `i`-th present value comes from. */
  lemma {:induction false} KnownSource(c: seq<Option<real>>, i: nat) returns (k: nat)
    requires i < |Known(c)|
    ensures k < |c| && c[k] == Some(Known(c)[i])
  {
    if c[0].Some? {
      if i == 0 {
        k := 0;
      } else {
        var k1 := KnownSource(c[1..], i - 1);
        k := k1 + 1;
      }
    } else {
      var k1 := KnownSource(c[1..], i);
      k := k1 + 1;
    }
  }

  /** A series without gaps loses nothing to `Known`. */
  lemma {:induction false} KnownOfFull(c: seq<Option<real>>)
    requires forall i :: 0 <= i < |c| ==> c[i].Some?
    ensures |Known(c)| == |c|
    ensures forall i :: 0 <= i < |c| ==> Known(c)[i] == c[i].value
  {
    if |c| > 0 {
      KnownOfFull(c[1..]);
    }
  }

  /** A gap-free series lifted to optional cells. */
  function Lift(s: seq<real>): (c: seq<Option<real>>)
    ensures |c| == |s|
    ensures forall i :: 0 <= i < |s| ==> c[i] == Some(s[i])
  {
    seq(|s|, i requires 0 <= i < |s| => Some(s[i]))
  }
}
