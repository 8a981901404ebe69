/** The cleaning helpers of the two `preprocessing.py` files, which carry the
    same code: `clean_structure` cuts the trailing rows and columns off a
    sheet, and `handle_missing` / `handle_rainfall_missing` coerce a column to
    numbers and fill its gaps with the column mean rounded to one decimal. */
module Preprocessing {
  import opened Frames

  /* ---------------------------------------------------------------------
     clean_structure
     --------------------------------------------------------------------- */

  /** How many of `n` positions the slice `[:-3]` keeps. */
  function Kept(n: nat): (k: nat)
    ensures k <= n
    ensures n >= 3 ==> k + 3 == n
    ensures n < 3 ==> k == 0
  {
    if n < 3 then 0 else n - 3
  }

  /** `df.iloc[:-3, :-3].reset_index(drop=True)`: the last three rows and the
      last three columns are cut off; the rows left are numbered from 0 again,
      which row positions already are. */
  function CleanStructure(t: Table): (r: Table)
    requires WellFormed(t)
    ensures WellFormed(r)
    ensures r.height == Kept(t.height) && |r.names| == Kept(|t.names|)
    ensures forall j :: 0 <= j < |r.names| ==> r.names[j] == t.names[j]
    ensures forall n :: n in r.cols ==> n in t.cols && r.cols[n].dtype == t.cols[n].dtype
    ensures forall n, i :: n in r.cols && 0 <= i < r.height ==> r.cols[n].cells[i] == t.cols[n].cells[i]
  {
    var h := Kept(t.height);
    var kept := t.names[..Kept(|t.names|)];
    Table(kept, map n | n in kept :: Column(t.cols[n].dtype, t.cols[n].cells[..h]), h)
  }

  /** The columns that disappear are exactly the last three (all of them when
      there are fewer). */
  lemma CleanStructureDropped(t: Table, n: string)
    requires WellFormed(t) && n in t.cols
    ensures n !in CleanStructure(t).cols <==> n in t.names[Kept(|t.names|)..]
  {
    var r := CleanStructure(t);
    var k := Kept(|t.names|);
    assert t.names == t.names[..k] + t.names[k..];
    if n in t.names[..k] {
      var j :| 0 <= j < k && t.names[j] == n;
      assert forall j' :: k <= j' < |t.names| ==> t.names[j'] != t.names[j];
    }
  }

  /* ---------------------------------------------------------------------
     pd.to_numeric(..., errors="coerce")
     --------------------------------------------------------------------- */

  /** `pd.to_numeric` on one cell with `errors="coerce"`: numbers stay, text
      goes through the number parser `parseNum`, and whatever does not parse
      becomes NaN. */
  function Coerce(c: Cell, parseNum: string -> Option<real>): (r: Cell)
    ensures Fits(Numeric, r)
    ensures c.Num? || c.Missing? ==> r == c
    ensures c.Text? ==> (r.Num? <==> parseNum(c.s).Some?)
    ensures c.Text? && r.Num? ==> r.x == parseNum(c.s).value
  {
    match c
    case Num(_) => c
    case Text(s) => (match parseNum(s) case Some(x) => Num(x) case None => Missing)
    case _ => Missing
  }

  /** `pd.to_numeric(df[col], errors="coerce")`: a float column, cell by cell. */
  function ToNumeric(col: Column, parseNum: string -> Option<real>): (r: Column)
    ensures r.dtype == Numeric && |r.cells| == |col.cells|
    ensures ColumnOk(r, |col.cells|)
    ensures forall i :: 0 <= i < |r.cells| ==> r.cells[i] == Coerce(col.cells[i], parseNum)
  {
    Column(Numeric, seq(|col.cells|, i requires 0 <= i < |col.cells| => Coerce(col.cells[i], parseNum)))
  }

  /** The column the fill step works on: `is_numeric_dtype` decides whether
      the coercion runs at all.  Skipping it for a float column changes
      nothing: either way every cell is the coerced cell, and numbers and
      NaN stay where they are. */
  function AsNumbers(col: Column, parseNum: string -> Option<real>): (r: Column)
    requires ColumnOk(col, |col.cells|)
    ensures r.dtype == Numeric && ColumnOk(r, |col.cells|)
    ensures forall i :: 0 <= i < |col.cells| ==> r.cells[i] == Coerce(col.cells[i], parseNum)
    ensures forall i :: 0 <= i < |col.cells| && (col.cells[i].Num? || col.cells[i].Missing?) ==>
              r.cells[i] == col.cells[i]
  {
    if col.dtype == Numeric then col else ToNumeric(col, parseNum)
  }

  /* ---------------------------------------------------------------------
     Series.mean() and round(1)
     --------------------------------------------------------------------- */

  predicate HasNumber(cells: seq<Cell>) {
    exists i :: 0 <= i < |cells| && cells[i].Num?
  }

  /** How many cells hold a number. */
  function Count(cells: seq<Cell>): (k: nat)
    ensures k <= |cells|
  {
    if cells == [] then 0 else Count(cells[..|cells| - 1]) + (if cells[|cells| - 1].Num? then 1 else 0)
  }

  /** The total of the numbers, NaN skipped. */
  function Sum(cells: seq<Cell>): real {
    if cells == [] then 0.0 else Sum(cells[..|cells| - 1]) + (if cells[|cells| - 1].Num? then cells[|cells| - 1].x else 0.0)
  }

  lemma {:induction false} CountPositive(cells: seq<Cell>)
    ensures Count(cells) > 0 <==> HasNumber(cells)
  {
    if cells != [] {
      var front := cells[..|cells| - 1];
      CountPositive(front);
      if HasNumber(front) {
        var i :| 0 <= i < |front| && front[i].Num?;
        assert cells[i].Num?;
      }
      if HasNumber(cells) && !cells[|cells| - 1].Num? {
        var i :| 0 <= i < |cells| && cells[i].Num?;
        assert front[i].Num?;
      }
    }
  }

  /** `Series.mean()` with NaN skipped: the arithmetic mean of the numbers,
      or NaN (`None`) when there is none. */
  function Mean(cells: seq<Cell>): (r: Option<real>)
    ensures r.Some? <==> HasNumber(cells)
    ensures r.Some? ==> r.value * Count(cells) as real == Sum(cells)
  {
    CountPositive(cells);
    if Count(cells) == 0 then None else Some(Sum(cells) / Count(cells) as real)
  }

  /** A lower bound of every number bounds their total by as many copies. */
  lemma {:induction false} SumAtLeast(cells: seq<Cell>, lo: real)
    requires forall i :: 0 <= i < |cells| && cells[i].Num? ==> lo <= cells[i].x
    ensures Sum(cells) >= lo * Count(cells) as real
  {
    if cells != [] {
      SumAtLeast(cells[..|cells| - 1], lo);
    }
  }

  lemma {:induction false} SumAtMost(cells: seq<Cell>, hi: real)
    requires forall i :: 0 <= i < |cells| && cells[i].Num? ==> cells[i].x <= hi
    ensures Sum(cells) <= hi * Count(cells) as real
  {
    if cells != [] {
      SumAtMost(cells[..|cells| - 1], hi);
    }
  }

  /** Multiplying by a positive factor keeps a strict order. */
  lemma ScaleBelow(a: real, b: real, k: real)
    requires k > 0.0 && a < b
    ensures a * k < b * k
  {
    assert (b - a) * k > 0.0;
  }

  /** A quotient of a total bounded by `lo` and `hi` copies lies in between. */
  lemma QuotientBetween(total: real, k: real, m: real, lo: real, hi: real)
    requires k > 0.0 && m * k == total && lo * k <= total <= hi * k
    ensures lo <= m <= hi
  {
    if m < lo {
      ScaleBelow(m, lo, k);
    }
    if hi < m {
      ScaleBelow(hi, m, k);
    }
  }

  /** The mean lies between the smallest and the largest number. */
  lemma MeanBetween(cells: seq<Cell>, lo: real, hi: real)
    requires forall i :: 0 <= i < |cells| && cells[i].Num? ==> lo <= cells[i].x <= hi
    requires HasNumber(cells)
    ensures lo <= Mean(cells).value <= hi
  {
    SumAtLeast(cells, lo);
    SumAtMost(cells, hi);
    CountPositive(cells);
    QuotientBetween(Sum(cells), Count(cells) as real, Mean(cells).value, lo, hi);
  }

  /** Rounding half to even to an integer, as `numpy.round` does. */
  function RoundHalfEven(y: real): (r: int)
    ensures -0.5 <= r as real - y <= 0.5
    ensures r as real - y == 0.5 || y - r as real == 0.5 ==> r % 2 == 0
  {
    var f := y.Floor;
    var frac := y - f as real;
    if frac < 0.5 then f
    else if frac > 0.5 then f + 1
    else if f % 2 == 0 then f
    else f + 1
  }

  /** `round(1)`: to one decimal place, ties to an even last digit. */
  function Round1(x: real): (r: real)
    ensures -0.05 <= r - x <= 0.05
    ensures (r * 10.0).Floor as real == r * 10.0
  {
    RoundHalfEven(x * 10.0) as real / 10.0
  }

  /** A value that already has one decimal comes out of `round(1)` as is. */
  lemma Round1Exact(d: int)
    ensures Round1(d as real / 10.0) == d as real / 10.0
  {
    var y := d as real / 10.0 * 10.0;
    assert y == d as real;
    assert y.Floor == d;
  }

  /* ---------------------------------------------------------------------
     fillna and the imputation helpers
     --------------------------------------------------------------------- */

  /** `Series.fillna(pre)`: NaN cells take the fill value; a NaN fill
      value (`None`) changes nothing. */
  function FillNa(cells: seq<Cell>, pre: Option<real>): (r: seq<Cell>)
    ensures |r| == |cells|
    ensures forall i :: 0 <= i < |r| ==> r[i] == (if cells[i].Missing? && pre.Some? then Num(pre.value) else cells[i])
    ensures (forall i :: 0 <= i < |cells| ==> Fits(Numeric, cells[i])) ==> forall i :: 0 <= i < |r| ==> Fits(Numeric, r[i])
  {
    match pre
    case None => cells
    case Some(v) => seq(|cells|, i requires 0 <= i < |cells| => if cells[i].Missing? then Num(v) else cells[i])
  }

  /** The value `handle_missing` fills with: the mean of the numbers after
      coercion, rounded to one decimal. */
  function FillValue(cells: seq<Cell>): (pre: Option<real>)
    ensures pre.Some? <==> HasNumber(cells)
    ensures pre.Some? ==> -0.05 <= pre.value - Mean(cells).value <= 0.05
  {
    match Mean(cells)
    case None => None
    case Some(m) => Some(Round1(m))
  }

  /** The frame after the coercion step: `df[col]` is replaced by its
      numeric conversion unless `is_numeric_dtype` already holds. */
  function Coerced(t: Table, col: string, parseNum: string -> Option<real>): (r: Table)
    requires WellFormed(t) && col in t.cols
    ensures WellFormed(r) && r.names == t.names && r.height == t.height
    ensures r.cols == t.cols[col := AsNumbers(t.cols[col], parseNum)]
  {
    if t.cols[col].dtype == Numeric then t else Assign(t, col, ToNumeric(t.cols[col], parseNum))
  }

  /** The fill step: `df[col] = df[col].fillna(df[col].mean().round(1))`. */
  function Filled(t: Table, col: string): (r: Table)
    requires WellFormed(t) && col in t.cols && t.cols[col].dtype == Numeric
    ensures WellFormed(r) && r.names == t.names && r.height == t.height
    ensures forall n :: n in r.cols <==> n in t.cols
    ensures r.cols[col].dtype == Numeric
    ensures forall n :: n in t.cols && n != col ==> r.cols[n] == t.cols[n]
  {
    var c := t.cols[col];
    assert ColumnOk(c, t.height);
    Assign(t, col, Column(c.dtype, FillNa(c.cells, FillValue(c.cells))))
  }

  /** What `handle_missing(df, col)` leaves in `df`: `df[col]` raises
      `KeyError` on an absent column; otherwise the column is coerced when it
      is not numeric, and its NaN cells take the rounded mean. */
  function Impute(t: Table, col: string, parseNum: string -> Option<real>): (r: Result<Table, Error>)
    requires WellFormed(t)
    ensures r.Failure? <==> col !in t.cols
    ensures r.Failure? ==> r.error == KeyError(col)
    ensures r.Success? ==> WellFormed(r.value) && r.value.names == t.names && r.value.height == t.height
    ensures r.Success? ==> (forall n :: n in r.value.cols <==> n in t.cols) && r.value.cols[col].dtype == Numeric
    ensures r.Success? ==> forall n :: n in t.cols && n != col ==> r.value.cols[n] == t.cols[n]
  {
    if col !in t.cols then Failure(KeyError(col))
    else Success(Filled(Coerced(t, col, parseNum), col))
  }

  /** Each cell of the imputed column: the coerced cell when it holds a
      number, else the fill value when there is one, else NaN. So a number
      already present keeps its value, and only NaN cells are written. */
  lemma ImputeCell(t: Table, col: string, parseNum: string -> Option<real>, i: nat)
    requires WellFormed(t) && col in t.cols && i < t.height
    ensures var c1 := AsNumbers(t.cols[col], parseNum);
      var r := Impute(t, col, parseNum).value;
      && (c1.cells[i].Num? ==> r.cols[col].cells[i] == c1.cells[i])
      && (c1.cells[i].Missing? && HasNumber(c1.cells) ==> r.cols[col].cells[i] == Num(Round1(Mean(c1.cells).value)))
      && (c1.cells[i].Missing? && !HasNumber(c1.cells) ==> r.cols[col].cells[i] == Missing)
  {
    var c1 := AsNumbers(t.cols[col], parseNum);
    assert ColumnOk(t.cols[col], t.height);
    assert Fits(Numeric, c1.cells[i]);
  }

  /** A number the column held before the call is still there. */
  lemma ImputeKeepsNumbers(t: Table, col: string, parseNum: string -> Option<real>, i: nat)
    requires WellFormed(t) && col in t.cols && i < t.height && t.cols[col].cells[i].Num?
    ensures Impute(t, col, parseNum).value.cols[col].cells[i] == t.cols[col].cells[i]
  {
    ImputeCell(t, col, parseNum, i);
  }

  /** No NaN is left in the column exactly when, after coercion, it holds
      some number or has no rows; an all-NaN column has an NaN mean and stays
      all NaN. */
  lemma ImputeNoMissing(t: Table, col: string, parseNum: string -> Option<real>)
    requires WellFormed(t) && col in t.cols
    ensures var c1 := AsNumbers(t.cols[col], parseNum);
      var r := Impute(t, col, parseNum).value;
      (forall i :: 0 <= i < t.height ==> !r.cols[col].cells[i].Missing?) <==> HasNumber(c1.cells) || t.height == 0
  {
    var c1 := AsNumbers(t.cols[col], parseNum);
    var r := Impute(t, col, parseNum).value;
    if HasNumber(c1.cells) {
      forall i | 0 <= i < t.height ensures !r.cols[col].cells[i].Missing? {
        ImputeCell(t, col, parseNum, i);
      }
    } else if t.height > 0 {
      ImputeCell(t, col, parseNum, 0);
      assert ColumnOk(t.cols[col], t.height);
      assert Fits(Numeric, c1.cells[0]) && !c1.cells[0].Num?;
    }
  }

  /** Every filled value lies within the numbers' range, widened by the
      half-step of rounding. */
  lemma ImputeFillBounds(t: Table, col: string, parseNum: string -> Option<real>, lo: real, hi: real)
    requires WellFormed(t) && col in t.cols
    requires var c1 := AsNumbers(t.cols[col], parseNum);
      forall i :: 0 <= i < |c1.cells| && c1.cells[i].Num? ==> lo <= c1.cells[i].x <= hi
    ensures var c1 := AsNumbers(t.cols[col], parseNum);
      var r := Impute(t, col, parseNum).value;
      forall i :: 0 <= i < t.height && c1.cells[i].Missing? && r.cols[col].cells[i].Num? ==>
        lo - 0.05 <= r.cols[col].cells[i].x <= hi + 0.05
  {
    var c1 := AsNumbers(t.cols[col], parseNum);
    var r := Impute(t, col, parseNum).value;
    forall i | 0 <= i < t.height && c1.cells[i].Missing? && r.cols[col].cells[i].Num?
      ensures lo - 0.05 <= r.cols[col].cells[i].x <= hi + 0.05
    {
      ImputeCell(t, col, parseNum, i);
      MeanBetween(c1.cells, lo, hi);
    }
  }

  /** Filling a column that has no NaN, or whose fill value is NaN, changes nothing. */
  lemma FillNaSettled(cells: seq<Cell>)
    requires forall i :: 0 <= i < |cells| ==> cells[i].Num? || cells[i].Missing?
    requires (forall i :: 0 <= i < |cells| ==> cells[i].Num?) || !HasNumber(cells)
    ensures FillNa(cells, FillValue(cells)) == cells
  {
    if HasNumber(cells) {
      assert FillNa(cells, FillValue(cells)) == cells;
    }
  }

  /** A numeric column the fill step leaves as it is makes the whole
      helper a no-op. */
  lemma ImputeNoop(t: Table, col: string, parseNum: string -> Option<real>)
    requires WellFormed(t) && col in t.cols && t.cols[col].dtype == Numeric
    requires FillNa(t.cols[col].cells, FillValue(t.cols[col].cells)) == t.cols[col].cells
    ensures Impute(t, col, parseNum) == Success(t)
  {
    assert Coerced(t, col, parseNum) == t;
    assert t.cols[col := t.cols[col]] == t.cols;
  }

  /** After the helper, the column holds numbers only, or NaN only. */
  lemma ImputeSettles(t: Table, col: string, parseNum: string -> Option<real>)
    requires WellFormed(t) && col in t.cols
    ensures var c := Impute(t, col, parseNum).value.cols[col].cells;
      (forall i :: 0 <= i < |c| ==> c[i].Num?) || !HasNumber(c)
  {
    var r := Impute(t, col, parseNum).value;
    var c1 := AsNumbers(t.cols[col], parseNum);
    ImputeNoMissing(t, col, parseNum);
    assert ColumnOk(r.cols[col], r.height);
    if !HasNumber(c1.cells) {
      forall i | 0 <= i < |r.cols[col].cells| ensures !r.cols[col].cells[i].Num? {
        ImputeCell(t, col, parseNum, i);
        assert ColumnOk(t.cols[col], t.height);
        assert Fits(Numeric, c1.cells[i]);
      }
    }
  }

  /** A second call finds a numeric column with nothing left to fill. */
  lemma ImputeIdempotent(t: Table, col: string, parseNum: string -> Option<real>)
    requires WellFormed(t) && col in t.cols
    ensures var r := Impute(t, col, parseNum).value;
      Impute(r, col, parseNum) == Success(r)
  {
    var r := Impute(t, col, parseNum).value;
    ImputeSettles(t, col, parseNum);
    assert ColumnOk(r.cols[col], r.height);
    FillNaSettled(r.cols[col].cells);
    ImputeNoop(r, col, parseNum);
  }

  /** The gap in the numeric column `[10, NaN, 20]` takes the mean 15.0,
      whatever the number parser. */
  lemma ImputeExample(parseNum: string -> Option<real>)
    ensures var t := Table(["rain"], map["rain" := Column(Numeric, [Num(10.0), Missing, Num(20.0)])], 3);
      Impute(t, "rain", parseNum) == Success(Table(["rain"], map["rain" := Column(Numeric, [Num(10.0), Num(15.0), Num(20.0)])], 3))
  {
    var cells := [Num(10.0), Missing, Num(20.0)];
    assert cells[..2] == [Num(10.0), Missing] && cells[..2][..1] == [Num(10.0)] && cells[..2][..1][..0] == [];
    assert Count(cells[..2][..1]) == 1 && Sum(cells[..2][..1]) == 10.0;
    assert Count(cells) == 2 && Sum(cells) == 30.0;
    assert Mean(cells) == Some(15.0);
    Round1Exact(150);
    assert 150 as real / 10.0 == 15.0;
    assert FillValue(cells) == Some(15.0);
    var t := Table(["rain"], map["rain" := Column(Numeric, cells)], 3);
    assert Coerced(t, "rain", parseNum) == t;
    var filled := [Num(10.0), Num(15.0), Num(20.0)];
    assert FillNa(cells, Some(15.0)) == filled;
    assert Filled(t, "rain") == Table(["rain"], map["rain" := Column(Numeric, filled)], 3);
  }

  /** One number followed by two NaN: the fill value is that number, when
      it already has one decimal. */
  lemma LoneNumberFill(x: real, d: int)
    requires x == d as real / 10.0
    ensures FillValue([Num(x), Missing, Missing]) == Some(x)
  {
    var cells := [Num(x), Missing, Missing];
    assert cells[..2] == [Num(x), Missing] && cells[..2][..1] == [Num(x)] && cells[..2][..1][..0] == [];
    assert Count(cells[..2][..1]) == 1 && Sum(cells[..2][..1]) == x;
    assert Count(cells) == 1 && Sum(cells) == x;
    Round1Exact(d);
  }

  /** The text column `["12.5", "n/a", NaN]` coerces to `[12.5, NaN, NaN]`. */
  lemma CoerceExample(parseNum: string -> Option<real>)
    requires parseNum("12.5") == Some(12.5) && parseNum("n/a") == None
    ensures var t := Table(["rain"], map["rain" := Column(Object, [Text("12.5"), Text("n/a"), Missing])], 3);
      Coerced(t, "rain", parseNum) == Table(["rain"], map["rain" := Column(Numeric, [Num(12.5), Missing, Missing])], 3)
  {
    var t := Table(["rain"], map["rain" := Column(Object, [Text("12.5"), Text("n/a"), Missing])], 3);
    assert ToNumeric(t.cols["rain"], parseNum).cells == [Num(12.5), Missing, Missing];
  }

  /** A text column is coerced first: the unparseable "n/a" and the NaN
      both become 12.5, the mean of the one number. */
  lemma ImputeCoerceExample(parseNum: string -> Option<real>)
    requires parseNum("12.5") == Some(12.5) && parseNum("n/a") == None
    ensures var t := Table(["rain"], map["rain" := Column(Object, [Text("12.5"), Text("n/a"), Missing])], 3);
      Impute(t, "rain", parseNum) == Success(Table(["rain"], map["rain" := Column(Numeric, [Num(12.5), Num(12.5), Num(12.5)])], 3))
  {
    var t := Table(["rain"], map["rain" := Column(Object, [Text("12.5"), Text("n/a"), Missing])], 3);
    var cells := [Num(12.5), Missing, Missing];
    CoerceExample(parseNum);
    var t1 := Table(["rain"], map["rain" := Column(Numeric, cells)], 3);
    LoneNumberFill(12.5, 125);
    var filled := [Num(12.5), Num(12.5), Num(12.5)];
    assert FillNa(cells, Some(12.5)) == filled;
    assert Filled(t1, "rain") == Table(["rain"], map["rain" := Column(Numeric, filled)], 3);
  }

  /** `handle_missing(df, col)` on the caller's frame: a missing column
      raises before anything is written; otherwise `df[col]` is reassigned,
      coerced first when it is not numeric, and `df` itself is returned. */
  method HandleMissing(df: Frame, col: string, parseNum: string -> Option<real>) returns (r: Result<Frame, Error>)
    requires df.Valid()
    modifies df
    ensures df.Valid()
    ensures r.Failure? ==> unchanged(df) && Impute(old(df.Value()), col, parseNum) == Failure(r.error)
    ensures r.Success? ==> r.value == df && Impute(old(df.Value()), col, parseNum) == Success(df.Value())
  {
    if col !in df.cols {
      return Failure(KeyError(col));
    }
    ghost var t := df.Value();
    if df.cols[col].dtype != Numeric {
      df.SetColumn(col, ToNumeric(df.cols[col], parseNum));
    }
    assert df.Value() == Coerced(t, col, parseNum);
    var c := df.cols[col];
    assert ColumnOk(c, df.height);
    var pre := FillValue(c.cells);
    df.SetColumn(col, Column(c.dtype, FillNa(c.cells, pre)));
    r := Success(df);
  }

  /** `handle_rainfall_missing(df, col)`: the same steps as `handle_missing`. */
  method HandleRainfallMissing(df: Frame, col: string, parseNum: string -> Option<real>) returns (r: Result<Frame, Error>)
    requires df.Valid()
    modifies df
    ensures df.Valid()
    ensures r.Failure? ==> unchanged(df) && Impute(old(df.Value()), col, parseNum) == Failure(r.error)
    ensures r.Success? ==> r.value == df && Impute(old(df.Value()), col, parseNum) == Success(df.Value())
  {
    r := HandleMissing(df, col, parseNum);
  }
}
