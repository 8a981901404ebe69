/** The two helpers of the long-format merge script: deriving year and month
    columns from a "%Y-%m" date column, and stacking one sheet per region
    into one table tagged with its region. Neither changes its input. */
module LongMerge {
  import opened Frames
  import opened Dates

  /** The default `date_col`. */
  const DateLabel := "일시"
  /** The derived year column. */
  const YearLabel := "연도"
  /** The derived month column. */
  const MonthLabel := "월"
  /** The column that names a row's region sheet. */
  const RegionLabel := "구역"

  function YearOf(c: Cell): Cell {
    if c.Date? then Num(c.year as real) else Missing
  }

  function MonthOf(c: Cell): Cell {
    if c.Date? then Num(c.month as real) else Missing
  }

  /** `s.dt.year`, or `s.dt.month` when `month` holds; the `.dt` accessor
      exists only on a datetime column. NaT gives NaN. */
  function DtField(c: Column, key: string, month: bool): (r: Result<Column, Error>)
    requires ColumnOk(c, |c.cells|)
    ensures r.Success? <==> c.dtype == Datetime
    ensures r.Failure? ==> r.error == AttributeError(key)
    ensures r.Success? ==> r.value.dtype == Numeric && ColumnOk(r.value, |c.cells|)
    ensures r.Success? ==> forall i :: 0 <= i < |c.cells| && c.cells[i].Missing? ==> r.value.cells[i] == Missing
    ensures r.Success? ==> forall i :: 0 <= i < |c.cells| && c.cells[i].Date? ==>
              r.value.cells[i] == Num(if month then c.cells[i].month as real else c.cells[i].year as real)
  {
    if c.dtype != Datetime then Failure(AttributeError(key))
    else Success(Column(Numeric, seq(|c.cells|, i requires 0 <= i < |c.cells| =>
                                       if month then MonthOf(c.cells[i]) else YearOf(c.cells[i]))))
  }

  /** `[n]` when `n` is not yet a column of `t`, else nothing: the label an
      assignment to `n` appends. */
  function NewLabels(t: Table, n: string): (r: seq<string>)
    ensures n in t.cols <==> r == []
    ensures n !in t.cols <==> r == [n]
  {
    if n in t.cols then [] else [n]
  }

  /** Whether `drop_cols` names column `n`; None and the empty list name none. */
  predicate Dropped(dropCols: Option<seq<string>>, n: string) {
    dropCols.Some? && n in dropCols.value
  }

  /** The year and month columns derived from the converted date column
      `dateCol` of `t1`: the year is assigned first, and the month is then
      read from `dateCol` again. */
  function Derive(t1: Table, dateCol: string): (r: Result<Table, Error>)
    requires WellFormed(t1) && dateCol in t1.cols && t1.cols[dateCol].dtype == Datetime
    ensures r.Failure? <==> dateCol == YearLabel
    ensures r.Failure? ==> r.error == AttributeError(YearLabel)
    ensures r.Success? ==> WellFormed(r.value) && r.value.height == t1.height
    ensures r.Success? ==> YearLabel in r.value.cols && MonthLabel in r.value.cols
  {
    var years := DtField(t1.cols[dateCol], dateCol, false).value;
    var t2 := Assign(t1, YearLabel, years);
    match DtField(t2.cols[dateCol], dateCol, true)
    case Failure(e) => Failure(e)
    case Success(months) => Success(Assign(t2, MonthLabel, months))
  }

  /** What `add_year_month(t, date_col, drop_cols, "%Y-%m")` returns or raises. */
  function AddYearMonthSpec(t: Table, dateCol: string, dropCols: Option<seq<string>>): (r: Result<Table, Error>)
    requires WellFormed(t)
    ensures dateCol !in t.cols ==> r == Failure(KeyError(dateCol))
    ensures dateCol == YearLabel ==> r.Failure?
    ensures r.Success? ==> WellFormed(r.value) && r.value.height == t.height && dateCol in t.cols
    ensures r.Success? && dropCols.Some? ==> forall n :: n in dropCols.value ==> n !in r.value.cols
    ensures r.Success? && !(dropCols.Some? && |dropCols.value| > 0) ==>
              dateCol in r.value.cols && YearLabel in r.value.cols && MonthLabel in r.value.cols
  {
    match Get(t, dateCol)
    case Failure(e) => Failure(e)
    case Success(c) =>
      match ToDatetimeCells(c.cells)
      case Failure(e) => Failure(e)
      case Success(dates) =>
        match Derive(Assign(t, dateCol, Column(Datetime, dates)), dateCol)
        case Failure(e) => Failure(e)
        case Success(t3) =>
          if dropCols.Some? && |dropCols.value| > 0 then Success(DropColumns(t3, dropCols.value)) else Success(t3)
  }

  /** `add_year_month`: works on a copy of `df`, converts `dateCol` in
      place in the copy, appends year and month columns, then drops the
      listed columns that exist. */
  method AddYearMonth(df: Frame, dateCol: string := DateLabel, dropCols: Option<seq<string>> := None) returns (r: Result<Frame, Error>)
    requires df.Valid()
    ensures unchanged(df)
    ensures r.Failure? ==> AddYearMonthSpec(df.Value(), dateCol, dropCols) == Failure(r.error)
    ensures r.Success? ==> fresh(r.value) && r.value.Valid()
                           && AddYearMonthSpec(df.Value(), dateCol, dropCols) == Success(r.value.Value())
  {
    var f := df.Copy();
    var c := Get(f.Value(), dateCol);
    if c.Failure? {
      return Failure(c.error);
    }
    var dates := ToDatetimeCells(c.value.cells);
    if dates.Failure? {
      return Failure(dates.error);
    }
    f.SetColumn(dateCol, Column(Datetime, dates.value));
    ghost var t1 := f.Value();
    var years := DtField(f.cols[dateCol], dateCol, false);
    f.SetColumn(YearLabel, years.value);
    var months := DtField(f.cols[dateCol], dateCol, true);
    if months.Failure? {
      return Failure(months.error);
    }
    f.SetColumn(MonthLabel, months.value);
    assert Derive(t1, dateCol) == Success(f.Value());
    if dropCols.Some? && |dropCols.value| > 0 {
      f := f.Drop(dropCols.value);
    }
    r := Success(f);
  }

  /** The derived table, spelled out stage by stage. */
  lemma {:induction false} DeriveStages(t1: Table, dateCol: string)
    requires WellFormed(t1) && dateCol in t1.cols && t1.cols[dateCol].dtype == Datetime
    requires Derive(t1, dateCol).Success?
    ensures var years := DtField(t1.cols[dateCol], dateCol, false).value;
            var t2 := Assign(t1, YearLabel, years);
            dateCol != YearLabel && t2.cols[dateCol] == t1.cols[dateCol] &&
            Derive(t1, dateCol).value == Assign(t2, MonthLabel, DtField(t1.cols[dateCol], dateCol, true).value)
  {
  }

  /** Deriving adds the year and month columns and keeps the height. */
  lemma {:induction false} DeriveKeys(t1: Table, dateCol: string)
    requires WellFormed(t1) && dateCol in t1.cols && t1.cols[dateCol].dtype == Datetime
    requires Derive(t1, dateCol).Success?
    ensures var t3 := Derive(t1, dateCol).value;
            && t3.height == t1.height
            && (forall n :: n in t3.cols <==> n in t1.cols || n == YearLabel || n == MonthLabel)
  {
    DeriveStages(t1, dateCol);
  }

  /** Deriving leaves every other column as it was. */
  lemma {:induction false} DeriveKept(t1: Table, dateCol: string)
    requires WellFormed(t1) && dateCol in t1.cols && t1.cols[dateCol].dtype == Datetime
    requires Derive(t1, dateCol).Success?
    ensures var t3 := Derive(t1, dateCol).value;
            forall n :: n in t3.cols && n != YearLabel && n != MonthLabel ==> t3.cols[n] == t1.cols[n]
  {
    DeriveStages(t1, dateCol);
  }

  /** New year and month columns go last, in that order; a label that is
      already a column keeps its place. */
  lemma {:induction false} DeriveNames(t1: Table, dateCol: string)
    requires WellFormed(t1) && dateCol in t1.cols && t1.cols[dateCol].dtype == Datetime
    requires Derive(t1, dateCol).Success?
    ensures Derive(t1, dateCol).value.names == t1.names + NewLabels(t1, YearLabel) + NewLabels(t1, MonthLabel)
  {
    DeriveStages(t1, dateCol);
    assert MonthLabel != YearLabel by {
      assert MonthLabel[0] != YearLabel[0];
    }
  }

  /** Row `i` of the derived columns is the year and month of row `i` of the dates. */
  lemma {:induction false} DeriveRow(t1: Table, dateCol: string, i: nat)
    requires WellFormed(t1) && dateCol in t1.cols && t1.cols[dateCol].dtype == Datetime
    requires Derive(t1, dateCol).Success? && i < t1.height
    ensures var t3 := Derive(t1, dateCol).value;
            var d := t1.cols[dateCol].cells[i];
            t3.cols[YearLabel].cells[i] == YearOf(d) && t3.cols[MonthLabel].cells[i] == MonthOf(d)
  {
  }

  /** The call fails exactly when the date column is absent, when some row
      does not convert, or when the date column is the year column itself.
      What `drop_cols` lists plays no part: dropping never fails. */
  lemma {:induction false} AddYearMonthFails(t: Table, dateCol: string, dropCols: Option<seq<string>>)
    requires WellFormed(t)
    ensures AddYearMonthSpec(t, dateCol, dropCols).Failure? <==>
              || dateCol !in t.cols
              || (exists i :: 0 <= i < t.height && ToDatetime(t.cols[dateCol].cells[i]).Failure?)
              || dateCol == YearLabel
    ensures dateCol !in t.cols ==> AddYearMonthSpec(t, dateCol, dropCols) == Failure(KeyError(dateCol))
  {
    if dateCol in t.cols {
      StagesFail(t, dateCol, dropCols);
      var cells := t.cols[dateCol].cells;
      assert |cells| == t.height;
      if ToDatetimeCells(cells).Failure? {
        var i :| 0 <= i < |cells| && ToDatetime(cells[i]).Failure?;
      } else {
        assert forall i :: 0 <= i < |cells| ==> ToDatetime(cells[i]).Success?;
      }
    }
  }

  /** With the date column present, the call fails iff the conversion
      fails or the date column is the year column. */
  lemma {:induction false} StagesFail(t: Table, dateCol: string, dropCols: Option<seq<string>>)
    requires WellFormed(t) && dateCol in t.cols
    ensures AddYearMonthSpec(t, dateCol, dropCols).Failure? <==>
              ToDatetimeCells(t.cols[dateCol].cells).Failure? || dateCol == YearLabel
  {
    var dates := ToDatetimeCells(t.cols[dateCol].cells);
    if dates.Success? {
      var t1 := Assign(t, dateCol, Column(Datetime, dates.value));
      assert AddYearMonthSpec(t, dateCol, dropCols).Failure? <==> Derive(t1, dateCol).Failure?;
    }
  }

  /** Row by row, the result holds the converted date and its year and
      month (NaN for NaT), and the month lies between 1 and 12. The month
      column replaces the dates when `dateCol` is the month column. */
  lemma {:induction false} AddYearMonthRows(t: Table, dateCol: string, dropCols: Option<seq<string>>, i: nat)
    requires WellFormed(t) && AddYearMonthSpec(t, dateCol, dropCols).Success? && i < t.height
    ensures dateCol in t.cols && ToDatetime(t.cols[dateCol].cells[i]).Success?
    ensures var r := AddYearMonthSpec(t, dateCol, dropCols).value;
            var d := ToDatetime(t.cols[dateCol].cells[i]).value;
            && r.height == t.height
            && (dateCol in r.cols && dateCol != MonthLabel ==> r.cols[dateCol].cells[i] == d)
            && (YearLabel in r.cols ==> r.cols[YearLabel].cells[i] == YearOf(d))
            && (MonthLabel in r.cols ==> r.cols[MonthLabel].cells[i] == MonthOf(d))
            && (d.Date? ==> MonthOf(d).Num? && 1.0 <= MonthOf(d).x <= 12.0)
  {
    var cells := t.cols[dateCol].cells;
    var dates := ToDatetimeCells(cells).value;
    var t1 := Assign(t, dateCol, Column(Datetime, dates));
    AddYearMonthStages(t, dateCol, dropCols);
    DeriveKeys(t1, dateCol);
    DeriveKept(t1, dateCol);
    DeriveRow(t1, dateCol, i);
  }

  /** The table `add_year_month` builds before dropping any column. */
  lemma {:induction false} AddYearMonthStages(t: Table, dateCol: string, dropCols: Option<seq<string>>)
    requires WellFormed(t) && AddYearMonthSpec(t, dateCol, dropCols).Success?
    ensures dateCol in t.cols && ToDatetimeCells(t.cols[dateCol].cells).Success?
    ensures var t1 := Assign(t, dateCol, Column(Datetime, ToDatetimeCells(t.cols[dateCol].cells).value));
            && WellFormed(t1) && dateCol in t1.cols && t1.cols[dateCol].dtype == Datetime
            && Derive(t1, dateCol).Success?
            && AddYearMonthSpec(t, dateCol, dropCols).value ==
                 if dropCols.Some? && |dropCols.value| > 0 then DropColumns(Derive(t1, dateCol).value, dropCols.value)
                 else Derive(t1, dateCol).value
  {
  }

  /** The result has the input's columns plus year and month, less exactly
      the listed columns that exist (None and [] drop nothing), and as many
      rows. */
  lemma {:induction false} AddYearMonthKeys(t: Table, dateCol: string, dropCols: Option<seq<string>>)
    requires WellFormed(t) && AddYearMonthSpec(t, dateCol, dropCols).Success?
    ensures var r := AddYearMonthSpec(t, dateCol, dropCols).value;
            && r.height == t.height
            && (forall n :: n in r.cols <==> (n in t.cols || n == YearLabel || n == MonthLabel) && !Dropped(dropCols, n))
  {
    AddYearMonthStages(t, dateCol, dropCols);
    var t1 := Assign(t, dateCol, Column(Datetime, ToDatetimeCells(t.cols[dateCol].cells).value));
    DeriveKeys(t1, dateCol);
  }

  /** Columns other than the date, year and month columns are unchanged. */
  lemma {:induction false} AddYearMonthKept(t: Table, dateCol: string, dropCols: Option<seq<string>>)
    requires WellFormed(t) && AddYearMonthSpec(t, dateCol, dropCols).Success?
    ensures var r := AddYearMonthSpec(t, dateCol, dropCols).value;
            forall n :: n in r.cols && n != dateCol && n != YearLabel && n != MonthLabel ==> r.cols[n] == t.cols[n]
  {
    AddYearMonthStages(t, dateCol, dropCols);
    var t1 := Assign(t, dateCol, Column(Datetime, ToDatetimeCells(t.cols[dateCol].cells).value));
    DeriveKept(t1, dateCol);
  }

  /** With nothing to drop and no year or month column to start with, the
      two new columns are appended after the input's, in that order. */
  lemma {:induction false} AddYearMonthNames(t: Table, dateCol: string, dropCols: Option<seq<string>>)
    requires WellFormed(t) && AddYearMonthSpec(t, dateCol, dropCols).Success?
    requires dropCols == None || dropCols == Some([])
    ensures AddYearMonthSpec(t, dateCol, dropCols).value.names ==
              t.names + NewLabels(t, YearLabel) + NewLabels(t, MonthLabel)
  {
    AddYearMonthStages(t, dateCol, dropCols);
    var t1 := Assign(t, dateCol, Column(Datetime, ToDatetimeCells(t.cols[dateCol].cells).value));
    DeriveNames(t1, dateCol);
  }

  /** "2023-05" converts to May 2023. */
  lemma {:induction false} ConvertExample()
    ensures ToDatetimeCells([Text("2023-05")]) == Success([Date(2023, 5)])
  {
    ParseFormat(2023, 5);
    assert FormatYearMonth(2023, 5) == "2023-05";
    assert "2023-05" !in NatStrings;
    assert ToDatetime(Text("2023-05")) == Success(Date(2023, 5));
    var r := ToDatetimeCells([Text("2023-05")]);
    assert r.Success?;
    assert |r.value| == 1 && r.value[0] == Date(2023, 5);
    assert r.value == [Date(2023, 5)];
  }

  /** May 2023 has year 2023 and month 5. */
  lemma {:induction false} DtFieldExample()
    ensures DtField(Column(Datetime, [Date(2023, 5)]), "ym", false) == Success(Column(Numeric, [Num(2023.0)]))
    ensures DtField(Column(Datetime, [Date(2023, 5)]), "ym", true) == Success(Column(Numeric, [Num(5.0)]))
  {
    var years := DtField(Column(Datetime, [Date(2023, 5)]), "ym", false).value.cells;
    assert |years| == 1 && years[0] == Num(2023.0);
    assert years == [Num(2023.0)];
    var months := DtField(Column(Datetime, [Date(2023, 5)]), "ym", true).value.cells;
    assert |months| == 1 && months[0] == Num(5.0);
    assert months == [Num(5.0)];
  }

  /** The converted example table gains its year and month columns. */
  lemma {:induction false} DeriveExample()
    ensures var t1 := Table(["ym"], map["ym" := Column(Datetime, [Date(2023, 5)])], 1);
            WellFormed(t1) &&
            Derive(t1, "ym") ==
              Success(Table(["ym", YearLabel, MonthLabel],
                            map["ym" := Column(Datetime, [Date(2023, 5)]),
                                YearLabel := Column(Numeric, [Num(2023.0)]),
                                MonthLabel := Column(Numeric, [Num(5.0)])],
                            1))
  {
    var dates := Column(Datetime, [Date(2023, 5)]);
    var t1 := Table(["ym"], map["ym" := dates], 1);
    assert Distinct(t1.names);
    assert WellFormed(t1);
    DtFieldExample();
    var years := Column(Numeric, [Num(2023.0)]);
    var t2 := Table(["ym", YearLabel], map["ym" := dates, YearLabel := years], 1);
    assert YearLabel != "ym" && MonthLabel != "ym" && MonthLabel != YearLabel by {
      assert YearLabel[0] != 'y' && MonthLabel[0] != 'y' && MonthLabel[0] != YearLabel[0];
    }
    assert Assign(t1, YearLabel, years) == t2;
    assert t2.cols["ym"] == dates;
    var months := Column(Numeric, [Num(5.0)]);
    assert Assign(t2, MonthLabel, months).names == ["ym", YearLabel, MonthLabel];
  }

  /** The example of a one-row table with a "ym" column holding "2023-05". */
  lemma {:induction false} AddYearMonthExample()
    ensures var t := Table(["ym"], map["ym" := Column(Object, [Text("2023-05")])], 1);
            WellFormed(t) &&
            AddYearMonthSpec(t, "ym", None) ==
              Success(Table(["ym", YearLabel, MonthLabel],
                            map["ym" := Column(Datetime, [Date(2023, 5)]),
                                YearLabel := Column(Numeric, [Num(2023.0)]),
                                MonthLabel := Column(Numeric, [Num(5.0)])],
                            1))
  {
    var t := Table(["ym"], map["ym" := Column(Object, [Text("2023-05")])], 1);
    assert Distinct(t.names);
    assert WellFormed(t);
    ConvertExample();
    DeriveExample();
    ConvertedExample(t);
  }

  /** Writing the converted dates over the example's only column. */
  lemma {:induction false} ConvertedExample(t: Table)
    requires t == Table(["ym"], map["ym" := Column(Object, [Text("2023-05")])], 1)
    ensures WellFormed(t)
    ensures Assign(t, "ym", Column(Datetime, [Date(2023, 5)])) ==
              Table(["ym"], map["ym" := Column(Datetime, [Date(2023, 5)])], 1)
  {
    assert Distinct(t.names);
    var dates := Column(Datetime, [Date(2023, 5)]);
    assert t.cols["ym" := dates] == map["ym" := dates];
  }

  /** `temp["구역"] = region` on a copy of a sheet: every row is tagged
      with the sheet's key, in an object column. */
  function Tag(key: string, t: Table): (r: Table)
    requires WellFormed(t)
    ensures WellFormed(r) && r.height == t.height
    ensures forall n :: n in r.cols <==> n in t.cols || n == RegionLabel
    ensures forall n :: n in t.cols && n != RegionLabel ==> r.cols[n] == t.cols[n]
    ensures forall i :: 0 <= i < r.height ==> r.cols[RegionLabel].cells[i] == Text(key)
  {
    Assign(t, RegionLabel, Column(Object, seq(t.height, _ => Text(key))))
  }

  /** Every sheet of the mapping is a well-formed table. */
  ghost predicate SheetsOk(sheets: seq<(string, Table)>) {
    forall k :: 0 <= k < |sheets| ==> WellFormed(sheets[k].1)
  }

  /** The list `dfs` once the loop is done: the tagged copies, in mapping order. */
  function Tagged(sheets: seq<(string, Table)>): (r: seq<Table>)
    requires SheetsOk(sheets)
    ensures |r| == |sheets|
  {
    seq(|sheets|, k requires 0 <= k < |sheets| && SheetsOk(sheets) => Tag(sheets[k].0, sheets[k].1))
  }

  /** The tagged copies are well formed, one per sheet. */
  lemma {:induction false} TaggedOk(sheets: seq<(string, Table)>)
    requires SheetsOk(sheets)
    ensures |Tagged(sheets)| == |sheets| && AllWellFormed(Tagged(sheets))
    ensures forall k :: 0 <= k < |sheets| ==> Tagged(sheets)[k] == Tag(sheets[k].0, sheets[k].1)
  {
  }

  /** The number of rows of all sheets together, read off the mapping
      itself; unlike `TotalHeight`, which counts the list handed to concat,
      it needs no well-formed tables, and `TaggedRows` shows the two agree
      because tagging keeps every height. */
  function Rows(sheets: seq<(string, Table)>): nat {
    if sheets == [] then 0 else sheets[0].1.height + Rows(sheets[1..])
  }

  /** What `merge_region_sheets(sheets)` returns or raises; `sheets` lists
      the mapping's items in its iteration order. */
  function MergeSpec(sheets: seq<(string, Table)>): (r: Result<Table, Error>)
    requires SheetsOk(sheets)
    ensures r.Failure? <==> sheets == []
    ensures r.Failure? ==> r.error == NoObjectsToConcatenate
    ensures r.Success? ==> WellFormed(r.value) && r.value.height == TotalHeight(Tagged(sheets))
  {
    TaggedOk(sheets);
    if sheets == [] then Failure(NoObjectsToConcatenate) else Success(Concat(Tagged(sheets)))
  }

  /** The contents of the frames of a mapping. */
  ghost function Contents(sheets: seq<(string, Frame)>): (r: seq<(string, Table)>)
    reads set k | 0 <= k < |sheets| :: sheets[k].1
    ensures |r| == |sheets|
    ensures forall k :: 0 <= k < |sheets| ==> r[k] == (sheets[k].0, sheets[k].1.Value())
  {
    if sheets == [] then [] else [(sheets[0].0, sheets[0].1.Value())] + Contents(sheets[1..])
  }

  /** One pass of the loop: `temp = df.copy()` and `temp["구역"] = region`. */
  method TaggedCopy(key: string, df: Frame) returns (temp: Frame)
    requires df.Valid()
    ensures fresh(temp) && temp.Valid() && temp.Value() == Tag(key, df.Value())
  {
    temp := df.Copy();
    temp.SetColumn(RegionLabel, Column(Object, seq(temp.height, _ => Text(key))));
  }

  /** The loop of `merge_region_sheets`: `dfs` collects a tagged copy of
      every sheet, in mapping order; the sheets themselves are not touched. */
  method TagEach(sheets: seq<(string, Frame)>) returns (dfs: seq<Frame>)
    requires forall k :: 0 <= k < |sheets| ==> sheets[k].1.Valid()
    ensures |dfs| == |sheets|
    ensures forall j :: 0 <= j < |dfs| ==> fresh(dfs[j])
    ensures forall j :: 0 <= j < |dfs| ==> sheets[j].1.Valid() && dfs[j].Value() == Tag(sheets[j].0, sheets[j].1.Value())
  {
    dfs := [];
    for k := 0 to |sheets|
      invariant |dfs| == k
      invariant forall j :: 0 <= j < k ==> fresh(dfs[j])
      invariant forall j :: 0 <= j < k ==> sheets[j].1.Valid() && dfs[j].Value() == Tag(sheets[j].0, sheets[j].1.Value())
    {
      var temp := TaggedCopy(sheets[k].0, sheets[k].1);
      dfs := dfs + [temp];
    }
  }

  /** `merge_region_sheets`: copies and tags each sheet, then concatenates
      the copies with fresh row numbers. The input frames are left alone. */
  method MergeRegionSheets(sheets: seq<(string, Frame)>) returns (r: Result<Frame, Error>)
    requires forall k :: 0 <= k < |sheets| ==> sheets[k].1.Valid()
    ensures forall k :: 0 <= k < |sheets| ==> unchanged(sheets[k].1)
    ensures SheetsOk(old(Contents(sheets)))
    ensures r.Failure? ==> MergeSpec(old(Contents(sheets))) == Failure(r.error)
    ensures r.Success? ==> fresh(r.value) && r.value.Valid()
                           && MergeSpec(old(Contents(sheets))) == Success(r.value.Value())
  {
    ghost var input := Contents(sheets);
    assert SheetsOk(input);
    TaggedOk(input);
    var dfs := TagEach(sheets);
    if dfs == [] {
      return Failure(NoObjectsToConcatenate);
    }
    var tables := seq(|dfs|, j requires 0 <= j < |dfs| reads dfs => dfs[j].Value());
    assert tables == Tagged(input);
    var merged := new Frame.Of(Concat(tables));
    r := Success(merged);
  }

  /** The first `k` tagged sheets are the tagged first `k` sheets. */
  lemma {:induction false} TaggedPrefix(sheets: seq<(string, Table)>, k: nat)
    requires SheetsOk(sheets) && k <= |sheets|
    ensures SheetsOk(sheets[..k]) && Tagged(sheets)[..k] == Tagged(sheets[..k])
  {
  }

  /** Row counts add up over an appended mapping. */
  lemma {:induction false} RowsAppend(a: seq<(string, Table)>, b: seq<(string, Table)>)
    ensures Rows(a + b) == Rows(a) + Rows(b)
  {
    if a == [] {
      assert a + b == b;
    } else {
      assert (a + b)[0] == a[0] && (a + b)[1..] == a[1..] + b;
      RowsAppend(a[1..], b);
    }
  }

  /** Tagging keeps each sheet's row count. */
  lemma {:induction false} TaggedRows(sheets: seq<(string, Table)>)
    requires SheetsOk(sheets)
    ensures TotalHeight(Tagged(sheets)) == Rows(sheets)
  {
    if sheets != [] {
      var rest := sheets[1..];
      var t0 := Tag(sheets[0].0, sheets[0].1);
      TaggedCons(sheets);
      TotalHeightAppend([t0], Tagged(rest));
      TotalHeightOne(t0);
      TaggedRows(rest);
    }
  }

  /** Tagging a non-empty mapping tags its first sheet, then the rest. */
  lemma {:induction false} TaggedCons(sheets: seq<(string, Table)>)
    requires SheetsOk(sheets) && sheets != []
    ensures SheetsOk(sheets[1..])
    ensures Tagged(sheets) == [Tag(sheets[0].0, sheets[0].1)] + Tagged(sheets[1..])
  {
    var rest := sheets[1..];
    var a, b := Tagged(sheets), [Tag(sheets[0].0, sheets[0].1)] + Tagged(rest);
    assert SheetsOk(rest);
    forall k | 0 <= k < |a| ensures a[k] == b[k] {
      if k > 0 {
        assert b[k] == Tagged(rest)[k - 1] == Tag(rest[k - 1].0, rest[k - 1].1);
      }
    }
  }

  /** A single table has its own row count. */
  lemma {:induction false} TotalHeightOne(t: Table)
    ensures TotalHeight([t]) == t.height
  {
    assert [t][..0] == [];
  }

  /** The merged table has as many rows as all sheets together. */
  lemma {:induction false} MergeRowCount(sheets: seq<(string, Table)>)
    requires SheetsOk(sheets) && sheets != []
    ensures MergeSpec(sheets).Success? && MergeSpec(sheets).value.height == Rows(sheets)
  {
    TaggedRows(sheets);
  }

  /** Row `i` of sheet `k` lands at row `Rows(sheets[..k]) + i` of the
      merged table: blocks follow the mapping order and keep their own row
      order. Its region is the sheet's key, and its other cells are the
      sheet's (NaN where the sheet lacks the column). */
  lemma {:induction false} MergeCell(sheets: seq<(string, Table)>, k: nat, i: nat, n: string)
    requires SheetsOk(sheets) && k < |sheets| && i < sheets[k].1.height
    ensures MergeSpec(sheets).Success?
    ensures var r := MergeSpec(sheets).value;
            && Rows(sheets[..k]) + i < r.height
            && (n in r.cols ==>
                  r.cols[n].cells[Rows(sheets[..k]) + i] ==
                    if n == RegionLabel then Text(sheets[k].0) else CellAt(sheets[k].1, n, i))
  {
    MergeTaggedCell(sheets, k, i, n);
    TagCell(sheets[k].0, sheets[k].1, n, i);
  }

  /** The merged cell is the cell of the tagged copy of the sheet. */
  lemma {:induction false} MergeTaggedCell(sheets: seq<(string, Table)>, k: nat, i: nat, n: string)
    requires SheetsOk(sheets) && k < |sheets| && i < sheets[k].1.height
    ensures MergeSpec(sheets).Success?
    ensures var r := MergeSpec(sheets).value;
            && Rows(sheets[..k]) + i < r.height
            && (n in r.cols ==> r.cols[n].cells[Rows(sheets[..k]) + i] == CellAt(Tagged(sheets)[k], n, i))
  {
    var ts := Tagged(sheets);
    TaggedOk(sheets);
    var r := Concat(ts);
    assert MergeSpec(sheets) == Success(r);
    TaggedPrefix(sheets, k);
    TaggedRows(sheets[..k]);
    var p := Rows(sheets[..k]) + i;
    assert TotalHeight(ts[..k]) == Rows(sheets[..k]);
    ConcatCell(ts, k, i, n);
    assert ConcatCells(ts, n)[p] == CellAt(ts[k], n, i);
    if n in r.cols {
      assert r.cols[n].cells == ConcatCells(ts, n);
    }
  }

  /** A tagged row holds the key in the region column and is otherwise unchanged. */
  lemma {:induction false} TagCell(key: string, t: Table, n: string, i: nat)
    requires WellFormed(t) && i < t.height
    ensures CellAt(Tag(key, t), n, i) == if n == RegionLabel then Text(key) else CellAt(t, n, i)
  {
  }

  /** The merged columns are the region column and every column of some sheet. */
  lemma {:induction false} MergeColumns(sheets: seq<(string, Table)>)
    requires SheetsOk(sheets) && sheets != []
    ensures forall n :: n in MergeSpec(sheets).value.cols <==>
                          n == RegionLabel || exists k :: 0 <= k < |sheets| && n in sheets[k].1.cols
  {
    var ts := Tagged(sheets);
    TaggedOk(sheets);
    forall n ensures SomeHas(ts, n) <==> n == RegionLabel || exists k :: 0 <= k < |sheets| && n in sheets[k].1.cols {
      if n == RegionLabel {
        assert n in ts[0].cols;
      }
      if k :| 0 <= k < |sheets| && n in sheets[k].1.cols {
        assert n in ts[k].cols;
      }
    }
  }

  /** Every row position below the total falls at some row of some sheet's
      block. */
  lemma {:induction false} BlockOf(sheets: seq<(string, Table)>, p: nat) returns (j: nat, i: nat)
    requires SheetsOk(sheets) && p < Rows(sheets)
    ensures j < |sheets| && i < sheets[j].1.height && p == Rows(sheets[..j]) + i
  {
    var ts := Tagged(sheets);
    TaggedOk(sheets);
    TaggedRows(sheets);
    j, i := Locate(ts, p);
    TaggedPrefix(sheets, j);
    TaggedRows(sheets[..j]);
    assert ts[j] == Tag(sheets[j].0, sheets[j].1);
  }

  /** Every merged row lies in the block of some sheet, and its `구역`
      cell holds that sheet's key. */
  lemma {:induction false} MergeRegionOf(sheets: seq<(string, Table)>, p: nat) returns (j: nat)
    requires SheetsOk(sheets) && p < Rows(sheets)
    ensures j < |sheets| && Rows(sheets[..j]) <= p < Rows(sheets[..j]) + sheets[j].1.height
    ensures MergeSpec(sheets).Success?
    ensures var r := MergeSpec(sheets).value;
            && p < r.height && RegionLabel in r.cols
            && r.cols[RegionLabel].cells[p] == Text(sheets[j].0)
  {
    var i;
    j, i := BlockOf(sheets, p);
    MergeColumns(sheets);
    MergeCell(sheets, j, i, RegionLabel);
  }

  /** The blocks of two different sheets share no row. */
  lemma {:induction false} BlocksDisjoint(sheets: seq<(string, Table)>, j: nat, k: nat, p: nat)
    requires j < |sheets| && k < |sheets| && j != k
    requires Rows(sheets[..j]) <= p < Rows(sheets[..j]) + sheets[j].1.height
    ensures !(Rows(sheets[..k]) <= p < Rows(sheets[..k]) + sheets[k].1.height)
  {
    if j < k {
      BlocksAfter(sheets, j, k);
    } else {
      BlocksAfter(sheets, k, j);
    }
  }

  /** With distinct keys, as a mapping has, the rows tagged with sheet
      `k`'s key are exactly its block. */
  lemma {:induction false} MergeRegionBlock(sheets: seq<(string, Table)>, k: nat, p: nat)
    requires SheetsOk(sheets) && k < |sheets|
    requires forall j, j' :: 0 <= j < j' < |sheets| ==> sheets[j].0 != sheets[j'].0
    requires p < Rows(sheets)
    ensures MergeSpec(sheets).Success?
    ensures var r := MergeSpec(sheets).value;
            && p < r.height && RegionLabel in r.cols
            && (r.cols[RegionLabel].cells[p] == Text(sheets[k].0) <==>
                  Rows(sheets[..k]) <= p < Rows(sheets[..k]) + sheets[k].1.height)
  {
    var j := MergeRegionOf(sheets, p);
    if j != k {
      BlocksDisjoint(sheets, j, k, p);
      assert sheets[j].0 != sheets[k].0;
    }
  }

  /** A later block starts after an earlier one ends. */
  lemma {:induction false} BlocksAfter(sheets: seq<(string, Table)>, j: nat, k: nat)
    requires j < k <= |sheets|
    ensures Rows(sheets[..j]) + sheets[j].1.height <= Rows(sheets[..k])
  {
    assert sheets[..k] == sheets[..j] + ([sheets[j]] + sheets[j + 1..k]);
    RowsAppend(sheets[..j], [sheets[j]] + sheets[j + 1..k]);
    RowsAppend([sheets[j]], sheets[j + 1..k]);
    assert [sheets[j]][1..] == [];
  }

  /** A mapping with one sheet gives that sheet, tagged. */
  lemma {:induction false} MergeSingle(key: string, t: Table)
    requires WellFormed(t)
    ensures MergeSpec([(key, t)]) == Success(Tag(key, t))
  {
    assert Tagged([(key, t)]) == [Tag(key, t)];
    ConcatOne(Tag(key, t));
  }
}
