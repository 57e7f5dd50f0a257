/** The bookkeeping of `CorrelationAnalyzer`: which columns and rows feed the
    coefficients, the upper-triangle enumeration of variable pairs, the top-N ranking,
    the replace-on-store of results, and the verbal interpretation of a coefficient.
    The coefficient matrices themselves are inputs. */
module Correlation {
  import opened Types
  import opened Seqs
  import opened Sorting
  import opened Tables
  import opened Cleaner

  // ================================================================ loading

  /** The names of `names` that are columns, in the order of `names`. */
  function Present(names: seq<string>, columns: seq<string>): (r: seq<string>)
    ensures forall x :: x in r <==> x in names && x in columns
    ensures IsSubsequence(r, names)
    ensures Distinct(names) ==> Distinct(r)
  {
    if |names| == 0 then []
    else
      var rest := Present(names[1..], columns);
      if names[0] in columns then
        [names[0]] + rest
      else
        rest
  }

  /** The cell of `row` under the column called `name`. */
  function CellNamed(columns: seq<string>, row: Row, name: string): Option<real>
  {
    match IndexOf(columns, name)
    case None => None
    case Some(j) => Cell(row, j)
  }

  /** `row` restricted to the columns `names`, in that order. */
  function Project(columns: seq<string>, names: seq<string>, row: Row): (r: Row)
    ensures |r| == |names|
    ensures forall k :: 0 <= k < |names| ==> r[k] == CellNamed(columns, row, names[k])
  {
    seq(|names|, k requires 0 <= k < |names| => CellNamed(columns, row, names[k]))
  }

  /** A row without any missing cell. */
  predicate Complete(row: Row)
  {
    forall k :: 0 <= k < |row| ==> row[k].Some?
  }

  /** Every row of the table projected onto the tracked columns it has. */
  function Projected(t: Table): (r: seq<Row>)
    ensures |r| == |t.rows|
  {
    seq(|t.rows|, i requires 0 <= i < |t.rows| => Project(t.columns, Present(Tracked, t.columns), t.rows[i]))
  }

  /** `load_data`: keep the tracked columns the table has, in the tracked order, and drop
      every row missing a value in any of them. */
  function LoadForCorrelation(t: Table): (r: Table)
    ensures r.columns == Present(Tracked, t.columns)
    ensures WellFormed(r)
    ensures forall i :: 0 <= i < |r.rows| ==> Complete(r.rows[i])
    ensures |r.rows| <= |t.rows|
  {
    var names := Present(Tracked, t.columns);
    TrackedDistinct();
    var rows := Filter(Projected(t), Complete);
    assert forall row :: row in rows ==> Complete(row) && |row| == |names|;
    Table(names, rows)
  }

  /** The rows kept by loading are, in order, the projections of the input rows that have
      every tracked column it holds; each such projection is kept, and its cells are the
      input row's cells under the same names. */
  lemma LoadKeepsCompleteRows(t: Table)
    ensures IsSubsequence(LoadForCorrelation(t).rows, Projected(t))
    ensures forall i :: 0 <= i < |t.rows| && Complete(Projected(t)[i]) ==>
      Projected(t)[i] in LoadForCorrelation(t).rows
    ensures forall row :: row in LoadForCorrelation(t).rows ==>
      exists i :: 0 <= i < |t.rows| && row == Projected(t)[i]
    ensures |LoadForCorrelation(t).rows| == Count(Projected(t), Complete)
  {
    FilterIsSubsequence(Projected(t), Complete);
    FilterPartition(Projected(t), Complete);
    forall row | row in LoadForCorrelation(t).rows
      ensures exists i :: 0 <= i < |t.rows| && row == Projected(t)[i]
    {
      assert row in Projected(t);
    }
  }

  /** `calculate_correlation_pair`'s argument check: both variables must be columns of
      the loaded table, otherwise the error lists the available columns. On success the
      two series handed to the coefficient are those columns. */
  function PairVectors(t: Table, var1: string, var2: string): (r: Result<(seq<Option<real>>, seq<Option<real>>)>)
    requires WellFormed(t)
    ensures r.Err? <==> var1 !in t.columns || var2 !in t.columns
    ensures r.Err? ==> r.error == VariablesNotFound(t.columns)
    ensures r.Ok? ==> |r.value.0| == |t.rows| && |r.value.1| == |t.rows|
    ensures r.Ok? ==> forall i :: 0 <= i < |t.rows| ==>
      r.value.0[i] == CellNamed(t.columns, t.rows[i], var1) && r.value.1[i] == CellNamed(t.columns, t.rows[i], var2)
  {
    match (IndexOf(t.columns, var1), IndexOf(t.columns, var2))
    case (Some(a), Some(b)) => Ok((Column(t, a), Column(t, b)))
    case _ => Err(VariablesNotFound(t.columns))
  }

  /** On a loaded table the two series have no gap. */
  lemma PairVectorsOfLoaded(t: Table, var1: string, var2: string)
    requires PairVectors(LoadForCorrelation(t), var1, var2).Ok?
    ensures var v := PairVectors(LoadForCorrelation(t), var1, var2).value;
      (forall i :: 0 <= i < |v.0| ==> v.0[i].Some?) && (forall i :: 0 <= i < |v.1| ==> v.1[i].Some?)
  {
    var l := LoadForCorrelation(t);
    var v := PairVectors(l, var1, var2).value;
    forall i | 0 <= i < |v.0|
      ensures v.0[i].Some? && v.1[i].Some?
    {
      assert Complete(l.rows[i]);
    }
  }

  /** The coefficient a method name selects: "pearson", and Spearman for any other name. */
  datatype CorrKind = Pearson | Spearman

  function KindOf(tag: string): (k: CorrKind)
    ensures k == Pearson <==> tag == "pearson"
  {
    if tag == "pearson" then Pearson else Spearman
  }

  // ================================================================ pair enumeration

  /** The index pairs `(i, j)` with `i < j < k`, row by row as the nested loops visit them:
      `(i, i + 1), ..., (i, k - 1)`, then the pairs starting at `i + 1`. */
  function UpperFrom(i: nat, k: nat): (r: seq<(nat, nat)>)
    ensures forall p :: p in r <==> i <= p.0 < p.1 < k
    decreases k - i
  {
    if i >= k then [] else RowPairs(i, i + 1, k) + UpperFrom(i + 1, k)
  }

  /** The pairs `(i, j)`, `(i, j + 1)`, ..., `(i, k - 1)`. */
  function RowPairs(i: nat, j: nat, k: nat): (r: seq<(nat, nat)>)
    ensures |r| == if j <= k then k - j else 0
    ensures forall p :: p in r <==> p.0 == i && j <= p.1 < k
    ensures forall n :: 0 <= n < |r| ==> r[n] == (i, j + n)
    decreases k - j
  {
    if j >= k then [] else [(i, j)] + RowPairs(i, j + 1, k)
  }

  /** All upper-triangle index pairs of a `k` by `k` matrix. */
  function UpperIndices(k: nat): (r: seq<(nat, nat)>)
    ensures forall p :: p in r <==> p.0 < p.1 < k
  {
    UpperFrom(0, k)
  }

  /** Lexicographic order on index pairs. */
  predicate Before(p: (nat, nat), q: (nat, nat))
  {
    p.0 < q.0 || (p.0 == q.0 && p.1 < q.1)
  }

  /** `0 + 1 + ... + (m - 1)`: the number of pairs among `m` items. */
  function Triangle(m: nat): nat
  {
    if m == 0 then 0 else (m - 1) + Triangle(m - 1)
  }

  lemma {:induction false} TriangleClosedForm(m: nat)
    ensures 2 * Triangle(m) == m * (m - 1)
  {
    if m > 0 {
      TriangleClosedForm(m - 1);
      assert (m - 1) * (m - 2) + 2 * (m - 1) == m * (m - 1);
    }
  }

  /** The pairs starting at row `i` or later number `Triangle(k - i)`. */
  lemma {:induction false} UpperFromCount(i: nat, k: nat)
    requires i <= k
    ensures |UpperFrom(i, k)| == Triangle(k - i)
    decreases k - i
  {
    if i < k {
      UpperFromCount(i + 1, k);
    }
  }

  /** The enumeration visits pairs in strictly increasing lexicographic order, so no pair
      occurs twice. */
  lemma {:induction false} UpperFromOrdered(i: nat, k: nat)
    ensures forall a, b :: 0 <= a < b < |UpperFrom(i, k)| ==> Before(UpperFrom(i, k)[a], UpperFrom(i, k)[b])
    decreases k - i
  {
    if i < k {
      UpperFromOrdered(i + 1, k);
      var row, rest := RowPairs(i, i + 1, k), UpperFrom(i + 1, k);
      var r := UpperFrom(i, k);
      assert r == row + rest;
      forall a, b | 0 <= a < b < |r|
        ensures Before(r[a], r[b])
      {
        if b < |row| {
          assert r[a] == row[a] && r[b] == row[b];
        } else if a < |row| {
          assert r[a] == row[a] && r[b] == rest[b - |row|];
          assert r[b] in rest;
        } else {
          assert r[a] == rest[a - |row|] && r[b] == rest[b - |row|];
        }
      }
    }
  }

  /** The pair count of the upper triangle, each pair strictly above the diagonal, every
      such pair present, in increasing order without repetition. */
  lemma UpperIndicesSpec(k: nat)
    ensures |UpperIndices(k)| == k * (k - 1) / 2
    ensures forall n :: 0 <= n < |UpperIndices(k)| ==> UpperIndices(k)[n].0 < UpperIndices(k)[n].1 < k
    ensures forall i, j :: 0 <= i < j < k ==> (i, j) in UpperIndices(k)
    ensures forall a, b :: 0 <= a < b < |UpperIndices(k)| ==> UpperIndices(k)[a] != UpperIndices(k)[b]
  {
    UpperFromCount(0, k);
    TriangleClosedForm(k);
    UpperFromOrdered(0, k);
    var r := UpperIndices(k);
    forall n | 0 <= n < |r|
      ensures r[n].0 < r[n].1 < k
    {
      assert r[n] in r;
    }
  }

  /** A correlation matrix over `k` variables: `k` rows of `k` coefficients. */
  predicate SquareOf(m: seq<seq<real>>, k: nat)
  {
    |m| == k && forall i :: 0 <= i < k ==> |m[i]| == k
  }

  /** One entry of the pair list: the two variable names and the signed coefficient. */
  datatype Pair = Pair(var1: string, var2: string, coef: real)

  /** The upper-triangle pairs of the matrix, in enumeration order. */
  function Pairs(columns: seq<string>, m: seq<seq<real>>): (r: seq<Pair>)
    requires SquareOf(m, |columns|)
    ensures |r| == |UpperIndices(|columns|)|
    ensures forall n :: 0 <= n < |r| ==>
      var (i, j) := UpperIndices(|columns|)[n];
      i < j < |columns| && r[n] == Pair(columns[i], columns[j], m[i][j])
  {
    var idx := UpperIndices(|columns|);
    assert forall n :: 0 <= n < |idx| ==> idx[n] in idx;
    seq(|idx|, n requires 0 <= n < |idx| => Pair(columns[idx[n].0], columns[idx[n].1], m[idx[n].0][idx[n].1]))
  }

  // ================================================================ top-N

  function Abs(x: real): real
  {
    if x < 0.0 then -x else x
  }

  /** Sorting ascending by this key sorts by descending absolute coefficient. */
  function NegAbsCoef(p: Pair): real
  {
    -Abs(p.coef)
  }

  /** `get_strongest_correlations`: the pairs sorted by decreasing absolute coefficient,
      then `head(n)`; the entries keep their signed coefficients. */
  function TopN(pairs: seq<Pair>, n: int): (r: seq<Pair>)
    ensures |r| == SliceBound(|pairs|, n)
    ensures forall a, b :: 0 <= a < b < |r| ==> Abs(r[a].coef) >= Abs(r[b].coef)
    ensures multiset(r) <= multiset(pairs)
  {
    var s := SortBy(pairs, NegAbsCoef);
    SortedPrefix(s, SliceBound(|s|, n), NegAbsCoef);
    SliceTo(s, n)
  }

  /** The pairs the ranking leaves out. */
  function Dropped(pairs: seq<Pair>, n: int): seq<Pair>
  {
    var s := SortBy(pairs, NegAbsCoef);
    s[SliceBound(|s|, n)..]
  }

  /** The ranking is a true top list: together with the pairs left out it is a
      rearrangement of the input, and every pair left out has an absolute coefficient no
      larger than any pair listed. */
  lemma TopNIsTop(pairs: seq<Pair>, n: int)
    ensures multiset(pairs) == multiset(TopN(pairs, n)) + multiset(Dropped(pairs, n))
    ensures forall a, b :: 0 <= a < |TopN(pairs, n)| && 0 <= b < |Dropped(pairs, n)| ==>
      Abs(Dropped(pairs, n)[b].coef) <= Abs(TopN(pairs, n)[a].coef)
  {
    var s := SortBy(pairs, NegAbsCoef);
    var m := SliceBound(|s|, n);
    var r, rest := s[..m], s[m..];
    assert s == r + rest;
    assert TopN(pairs, n) == r && Dropped(pairs, n) == rest;
    forall a, b | 0 <= a < |r| && 0 <= b < |rest|
      ensures Abs(rest[b].coef) <= Abs(r[a].coef)
    {
      assert s[a] == r[a] && s[m + b] == rest[b];
      assert NegAbsCoef(s[a]) <= NegAbsCoef(s[m + b]);
    }
  }

  /** Four channels and `n = 10` give all six pairs. */
  lemma TopTenOfFour(columns: seq<string>, m: seq<seq<real>>)
    requires |columns| == 4 && SquareOf(m, 4)
    ensures |TopN(Pairs(columns, m), 10)| == 6
  {
    UpperIndicesSpec(4);
  }

  // ================================================================ storing

  /** One stored row of the results table. */
  datatype CorrRow = CorrRow(var1: string, var2: string, coef: real, tag: string)

  function TaggedWith(tag: string): CorrRow -> bool
  {
    (row: CorrRow) => row.tag == tag
  }

  function NotTaggedWith(tag: string): CorrRow -> bool
  {
    (row: CorrRow) => row.tag != tag
  }

  /** The rows inserted for a method name: one per upper-triangle pair, in enumeration order. */
  function NewRows(columns: seq<string>, m: seq<seq<real>>, tag: string): (r: seq<CorrRow>)
    requires SquareOf(m, |columns|)
    ensures |r| == |UpperIndices(|columns|)|
    ensures forall n :: 0 <= n < |r| ==> r[n].tag == tag
    ensures forall n :: 0 <= n < |r| ==>
      var (i, j) := UpperIndices(|columns|)[n];
      i < j < |columns| && r[n] == CorrRow(columns[i], columns[j], m[i][j], tag)
  {
    var ps := Pairs(columns, m);
    seq(|ps|, n requires 0 <= n < |ps| => CorrRow(ps[n].var1, ps[n].var2, ps[n].coef, tag))
  }

  /** `store_correlation_results` on the results table: delete the rows tagged with the
      method name, then insert one row per pair tagged with it. */
  function StoreCorrelations(rows: seq<CorrRow>, columns: seq<string>, m: seq<seq<real>>, tag: string): (r: seq<CorrRow>)
    requires SquareOf(m, |columns|)
    ensures Filter(r, NotTaggedWith(tag)) == Filter(rows, NotTaggedWith(tag))
    ensures Filter(r, TaggedWith(tag)) == NewRows(columns, m, tag)
  {
    var added := NewRows(columns, m, tag);
    ReplaceSelected(rows, added, NotTaggedWith(tag), TaggedWith(tag));
    Filter(rows, NotTaggedWith(tag)) + added
  }

  /** After storing, the method name tags exactly `k(k-1)/2` rows, and storing the same matrix
      again changes nothing. */
  lemma StoreCorrelationsSpec(rows: seq<CorrRow>, columns: seq<string>, m: seq<seq<real>>, tag: string)
    requires SquareOf(m, |columns|)
    ensures |Filter(StoreCorrelations(rows, columns, m, tag), TaggedWith(tag))|
      == |columns| * (|columns| - 1) / 2
    ensures StoreCorrelations(StoreCorrelations(rows, columns, m, tag), columns, m, tag)
      == StoreCorrelations(rows, columns, m, tag)
  {
    UpperIndicesSpec(|columns|);
    ReplaceSelected(rows, NewRows(columns, m, tag), NotTaggedWith(tag), TaggedWith(tag));
  }

  // ================================================================ interpretation

  datatype Strength = VeryWeak | Weak | Moderate | Strong | VeryStrong

  /** Bands are ordered from the weakest. */
  function Level(s: Strength): nat
  {
    match s
    case VeryWeak => 0
    case Weak => 1
    case Moderate => 2
    case Strong => 3
    case VeryStrong => 4
  }

  /** The strength band of a coefficient's absolute value: the first threshold it
      reaches among 0.9, 0.7, 0.5 and 0.3. */
  function StrengthOf(c: real): (s: Strength)
    ensures s == VeryStrong <==> Abs(c) >= 0.9
    ensures s == Strong <==> 0.7 <= Abs(c) < 0.9
    ensures s == Moderate <==> 0.5 <= Abs(c) < 0.7
    ensures s == Weak <==> 0.3 <= Abs(c) < 0.5
    ensures s == VeryWeak <==> Abs(c) < 0.3
  {
    var a := Abs(c);
    if a >= 0.9 then VeryStrong
    else if a >= 0.7 then Strong
    else if a >= 0.5 then Moderate
    else if a >= 0.3 then Weak
    else VeryWeak
  }

  /** A larger absolute coefficient never lands in a weaker band; the band ignores sign. */
  lemma StrengthMonotone(c: real, d: real)
    requires Abs(c) <= Abs(d)
    ensures Level(StrengthOf(c)) <= Level(StrengthOf(d))
    ensures StrengthOf(-c) == StrengthOf(c)
  {
  }

  datatype Direction = Positive | Negative

  /** "positive" only for a coefficient above zero; zero reads as "negative". */
  function DirectionOf(c: real): (d: Direction)
    ensures d == Positive <==> c > 0.0
  {
    if c > 0.0 then Positive else Negative
  }

  function StrengthText(s: Strength): string
  {
    match s
    case VeryStrong => "Very Strong"
    case Strong => "Strong"
    case Moderate => "Moderate"
    case Weak => "Weak"
    case VeryWeak => "Very Weak"
  }

  function DirectionText(d: Direction): string
  {
    match d
    case Positive => "positive"
    case Negative => "negative"
  }

  /** `interpret_correlation`: "<strength> correlation <direction>". The text opens with
      the band's label, closes with the eight-letter direction word, and holds exactly
      " correlation " between them. */
  function InterpretCorrelation(c: real): (text: string)
    ensures |text| == |StrengthText(StrengthOf(c))| + 21
    ensures text[..|StrengthText(StrengthOf(c))|] == StrengthText(StrengthOf(c))
    ensures text[|text| - 8..] == DirectionText(DirectionOf(c))
    ensures text[|StrengthText(StrengthOf(c))|..|text| - 8] == " correlation "
  {
    StrengthText(StrengthOf(c)) + " correlation " + DirectionText(DirectionOf(c))
  }

  /** Band labels differ in length, so a label's length identifies its band. */
  lemma StrengthTextLengths(s: Strength, t: Strength)
    ensures |StrengthText(s)| == |StrengthText(t)| <==> s == t
  {
  }

  /** Two coefficients read the same exactly when they fall in the same strength band and
      on the same side of zero: the text loses nothing else and mixes nothing up. */
  lemma InterpretCorrelationDistinguishes(c: real, d: real)
    ensures InterpretCorrelation(c) == InterpretCorrelation(d) <==>
      StrengthOf(c) == StrengthOf(d) && (c > 0.0 <==> d > 0.0)
  {
    var tc, td := InterpretCorrelation(c), InterpretCorrelation(d);
    StrengthTextLengths(StrengthOf(c), StrengthOf(d));
    if tc == td {
      assert |StrengthText(StrengthOf(c))| == |StrengthText(StrengthOf(d))|;
      assert DirectionText(DirectionOf(c)) == DirectionText(DirectionOf(d));
      assert "positive"[0] != "negative"[0];
      assert DirectionOf(c) == DirectionOf(d);
    }
  }

  /** Zero is read as a very weak negative correlation. */
  lemma InterpretZero()
    ensures InterpretCorrelation(0.0) == "Very Weak correlation negative"
  {
  }
}
