/** The pandas DataFrame as the helpers see it: an ordered list of column
    labels, each mapped to a column of cells of one common length. Row labels
    are row positions. */
module Frames {

  datatype Option<T> = None | Some(value: T)

  datatype Result<T, E> = Success(value: T) | Failure(error: E)

  /** The exceptions the helpers let escape. */
  datatype Error =
    | KeyError(key: string)               // `df[key]` on an absent column
    | DateParseError(cell: Cell)            // a value that does not match "%Y-%m"
    | OutOfBoundsDatetime(year: int, month: int)  // outside datetime64[ns]
    | AttributeError(key: string)         // `.dt` on a column that is not datetime-like
    | NoObjectsToConcatenate                // `pd.concat([])`

  /** One cell; `Missing` stands for NaN, None and NaT alike. */
  datatype Cell = Num(x: real) | Text(s: string) | Date(year: int, month: int) | Missing

  /** The part of a column's dtype that the helpers test. */
  datatype Dtype = Numeric | Datetime | Object

  datatype Column = Column(dtype: Dtype, cells: seq<Cell>)

  datatype Table = Table(names: seq<string>, cols: map<string, Column>, height: nat)

  /** What a column of the given dtype can hold. */
  predicate Fits(d: Dtype, c: Cell) {
    match d
    case Numeric => c.Num? || c.Missing?
    case Datetime => c.Date? || c.Missing?
    case Object => true
  }

  predicate ColumnOk(c: Column, height: nat) {
    |c.cells| == height && forall i :: 0 <= i < |c.cells| ==> Fits(c.dtype, c.cells[i])
  }

  predicate Distinct(s: seq<string>) {
    forall i, j :: 0 <= i < j < |s| ==> s[i] != s[j]
  }

  ghost predicate WellFormed(t: Table) {
    && Distinct(t.names)
    && (forall n :: n in t.cols <==> n in t.names)
    && (forall n :: n in t.cols ==> ColumnOk(t.cols[n], t.height))
  }

  /** `df[key]` as a read. */
  function Get(t: Table, key: string): (r: Result<Column, Error>)
    ensures r.Success? <==> key in t.cols
    ensures r.Success? ==> r.value == t.cols[key]
    ensures r.Failure? ==> r.error == KeyError(key)
    ensures r.Success? && WellFormed(t) ==> ColumnOk(r.value, t.height)
  {
    if key in t.cols then Success(t.cols[key]) else Failure(KeyError(key))
  }

  /** The cell at row `i` of column `n`, reading an absent column as Missing. */
  function CellAt(t: Table, n: string, i: nat): Cell
    requires WellFormed(t) && i < t.height
  {
    if n in t.cols then t.cols[n].cells[i] else Missing
  }

  /** `df[key] = c`: replaces an existing column where it stands, or
      appends a new one after the last column. */
  function Assign(t: Table, key: string, c: Column): (r: Table)
    requires WellFormed(t) && ColumnOk(c, t.height)
    ensures WellFormed(r) && r.height == t.height
    ensures forall n :: n in r.cols <==> n in t.cols || n == key
    ensures r.cols[key] == c
    ensures forall n :: n in t.cols && n != key ==> r.cols[n] == t.cols[n]
    ensures key in t.cols ==> r.names == t.names
    ensures key !in t.cols ==> r.names == t.names + [key]
  {
    Table(if key in t.cols then t.names else t.names + [key], t.cols[key := c], t.height)
  }

  /** Reading after `df[key] = c` gives `c` back under `key`, and every
      other read is as before. */
  lemma GetAssign(t: Table, key: string, c: Column, other: string)
    requires WellFormed(t) && ColumnOk(c, t.height)
    ensures Get(Assign(t, key, c), key) == Success(c)
    ensures other != key ==> Get(Assign(t, key, c), other) == Get(t, other)
  {
  }

  /** The labels of `names` that are not listed in `labels`, in their order. */
  function Without(names: seq<string>, labels: seq<string>): (r: seq<string>)
    ensures forall n :: n in r <==> n in names && n !in labels
    ensures Distinct(names) ==> Distinct(r)
    ensures (forall n :: n in names ==> n !in labels) ==> r == names
  {
    if names == [] then []
    else (if names[0] in labels then [] else [names[0]]) + Without(names[1..], labels)
  }

  /** `df.drop(columns=labels, errors="ignore")`: listed labels that are
      not columns are skipped. */
  function DropColumns(t: Table, labels: seq<string>): (r: Table)
    requires WellFormed(t)
    ensures WellFormed(r) && r.height == t.height
    ensures forall n :: n in r.cols <==> n in t.cols && n !in labels
    ensures forall n :: n in r.cols ==> r.cols[n] == t.cols[n]
  {
    Table(Without(t.names, labels), map n | n in t.cols && n !in labels :: t.cols[n], t.height)
  }

  /** The cells of column `n`, or NaN for every row when `t` lacks it. */
  function CellsOf(t: Table, n: string): (cs: seq<Cell>)
    requires WellFormed(t)
    ensures |cs| == t.height
  {
    if n in t.cols then t.cols[n].cells else seq(t.height, _ => Missing)
  }

  /** The union of two label lists has no repeated label. */
  lemma UnionDistinct(a: seq<string>, b: seq<string>)
    requires Distinct(a) && Distinct(b)
    ensures Distinct(a + Without(b, a))
  {
    var w := Without(b, a);
    var u := a + w;
    forall i, j | 0 <= i < j < |u| ensures u[i] != u[j] {
      if j >= |a| && i < |a| {
        assert u[j] == w[j - |a|];
        assert u[j] in w;
      } else if i >= |a| {
        assert u[i] == w[i - |a|] && u[j] == w[j - |a|];
      }
    }
  }

  ghost predicate AllWellFormed(ts: seq<Table>) {
    forall k :: 0 <= k < |ts| ==> WellFormed(ts[k])
  }

  /** Some block has a column labelled `n`. */
  ghost predicate SomeHas(ts: seq<Table>, n: string) {
    exists k :: 0 <= k < |ts| && n in ts[k].cols
  }

  /** The number of rows of all tables together. */
  function TotalHeight(ts: seq<Table>): nat {
    if ts == [] then 0 else TotalHeight(ts[..|ts| - 1]) + ts[|ts| - 1].height
  }

  /** The column labels of a concatenation: the union, in order of first
      appearance. */
  function ConcatNames(ts: seq<Table>): seq<string> {
    if ts == [] then []
    else
      var u := ConcatNames(ts[..|ts| - 1]);
      u + Without(ts[|ts| - 1].names, u)
  }

  /** The dtype of column `n` after concatenation: the common dtype of the
      blocks that have the column, object when they differ; None when no
      block has it. */
  function JoinDtype(ts: seq<Table>, n: string): Option<Dtype> {
    if ts == [] then None
    else
      var d := JoinDtype(ts[..|ts| - 1], n);
      var last := ts[|ts| - 1];
      if n !in last.cols then d
      else if d == None || d == Some(last.cols[n].dtype) then Some(last.cols[n].dtype)
      else Some(Object)
  }

  function Joined(ts: seq<Table>, n: string): Dtype {
    match JoinDtype(ts, n)
    case Some(d) => d
    case None => Object
  }

  /** The cells of column `n` after concatenation, NaN for the rows of
      blocks that lack it. */
  function ConcatCells(ts: seq<Table>, n: string): (cs: seq<Cell>)
    requires AllWellFormed(ts)
    ensures |cs| == TotalHeight(ts)
  {
    if ts == [] then [] else ConcatCells(ts[..|ts| - 1], n) + CellsOf(ts[|ts| - 1], n)
  }

  /** `pd.concat(ts, ignore_index=True)`, for a non-empty list. */
  function Concat(ts: seq<Table>): (r: Table)
    requires |ts| > 0 && AllWellFormed(ts)
    ensures WellFormed(r) && r.height == TotalHeight(ts)
    ensures forall n :: n in r.cols <==> SomeHas(ts, n)
    ensures forall n :: n in r.cols ==> r.cols[n].cells == ConcatCells(ts, n)
  {
    ConcatNamesOk(ts);
    ConcatWellFormed(ts);
    Table(ConcatNames(ts), ConcatColumnMap(ts), TotalHeight(ts))
  }

  lemma {:induction false} ConcatNamesOk(ts: seq<Table>)
    requires AllWellFormed(ts)
    ensures Distinct(ConcatNames(ts))
    ensures forall n :: n in ConcatNames(ts) <==> SomeHas(ts, n)
  {
    if ts != [] {
      var front := ts[..|ts| - 1];
      var last := ts[|ts| - 1];
      assert AllWellFormed(front);
      ConcatNamesOk(front);
      UnionDistinct(ConcatNames(front), last.names);
      forall n ensures n in ConcatNames(ts) <==> SomeHas(ts, n) {
        SomeHasFront(ts, n);
      }
    }
  }

  lemma SomeHasFront(ts: seq<Table>, n: string)
    requires |ts| > 0
    ensures SomeHas(ts, n) <==> SomeHas(ts[..|ts| - 1], n) || n in ts[|ts| - 1].cols
  {
    var front := ts[..|ts| - 1];
    if SomeHas(front, n) {
      var k :| 0 <= k < |front| && n in front[k].cols;
      assert ts[k] == front[k];
    }
    if SomeHas(ts, n) && n !in ts[|ts| - 1].cols {
      var k :| 0 <= k < |ts| && n in ts[k].cols;
      assert front[k] == ts[k];
    }
  }

  /** The joined dtype exists exactly for the columns some block has, and
      unless it is object it is the dtype of every block that has it. */
  lemma {:induction false} JoinDtypeAgrees(ts: seq<Table>, n: string)
    ensures JoinDtype(ts, n).Some? <==> SomeHas(ts, n)
    ensures JoinDtype(ts, n).Some? && JoinDtype(ts, n).value != Object ==>
      forall k :: 0 <= k < |ts| && n in ts[k].cols ==> ts[k].cols[n].dtype == JoinDtype(ts, n).value
  {
    if ts != [] {
      var front := ts[..|ts| - 1];
      JoinDtypeAgrees(front, n);
      SomeHasFront(ts, n);
      forall k | 0 <= k < |ts| - 1 ensures ts[k] == front[k] { }
    }
  }

  /** Every concatenated cell fits `d` when every block's column fits it. */
  lemma {:induction false} ConcatCellsFit(ts: seq<Table>, n: string, d: Dtype)
    requires AllWellFormed(ts)
    requires forall k :: 0 <= k < |ts| && n in ts[k].cols ==> d == Object || ts[k].cols[n].dtype == d
    ensures forall p :: 0 <= p < |ConcatCells(ts, n)| ==> Fits(d, ConcatCells(ts, n)[p])
  {
    if ts != [] {
      var front := ts[..|ts| - 1];
      var last := ts[|ts| - 1];
      assert AllWellFormed(front);
      forall k | 0 <= k < |front| ensures front[k] == ts[k] { }
      ConcatCellsFit(front, n, d);
      var a := ConcatCells(front, n);
      var b := CellsOf(last, n);
      forall p | 0 <= p < |a + b| ensures Fits(d, (a + b)[p]) {
        if p >= |a| {
          assert (a + b)[p] == b[p - |a|];
        }
      }
    }
  }

  /** The columns of a concatenation, by label. */
  function ConcatColumnMap(ts: seq<Table>): (m: map<string, Column>)
    requires AllWellFormed(ts)
    ensures forall n :: n in m <==> n in ConcatNames(ts)
    ensures forall n :: n in m ==> m[n] == Column(Joined(ts, n), ConcatCells(ts, n))
  {
    map n | n in ConcatNames(ts) :: Column(Joined(ts, n), ConcatCells(ts, n))
  }

  lemma ConcatColumnOk(ts: seq<Table>, n: string)
    requires AllWellFormed(ts)
    ensures ColumnOk(Column(Joined(ts, n), ConcatCells(ts, n)), TotalHeight(ts))
  {
    JoinDtypeAgrees(ts, n);
    forall k | 0 <= k < |ts| && n in ts[k].cols
      ensures Joined(ts, n) == Object || ts[k].cols[n].dtype == Joined(ts, n)
    {
      assert SomeHas(ts, n);
    }
    ConcatCellsFit(ts, n, Joined(ts, n));
  }

  lemma ConcatWellFormed(ts: seq<Table>)
    requires AllWellFormed(ts)
    ensures WellFormed(Table(ConcatNames(ts), ConcatColumnMap(ts), TotalHeight(ts)))
  {
    var m := ConcatColumnMap(ts);
    ConcatNamesOk(ts);
    forall n | n in m ensures ColumnOk(m[n], TotalHeight(ts)) {
      ConcatColumnOk(ts, n);
    }
  }

  lemma CellsOfAt(t: Table, n: string, i: nat)
    requires WellFormed(t) && i < t.height
    ensures CellsOf(t, n)[i] == CellAt(t, n, i)
  {
  }

  /** The last block's rows come after all the others. */
  lemma ConcatCellLast(ts: seq<Table>, i: nat, n: string)
    requires |ts| > 0 && AllWellFormed(ts) && i < ts[|ts| - 1].height
    ensures TotalHeight(ts[..|ts| - 1]) + i < TotalHeight(ts)
    ensures ConcatCells(ts, n)[TotalHeight(ts[..|ts| - 1]) + i] == CellAt(ts[|ts| - 1], n, i)
  {
    var front := ts[..|ts| - 1];
    assert AllWellFormed(front);
    var a := ConcatCells(front, n);
    var b := CellsOf(ts[|ts| - 1], n);
    assert ConcatCells(ts, n) == a + b;
    assert (a + b)[|a| + i] == b[i];
    CellsOfAt(ts[|ts| - 1], n, i);
  }

  /** Rows of the blocks before the last are unaffected by the last. */
  lemma ConcatCellFront(ts: seq<Table>, p: nat, n: string)
    requires |ts| > 0 && AllWellFormed(ts) && p < TotalHeight(ts[..|ts| - 1])
    ensures AllWellFormed(ts[..|ts| - 1])
    ensures ConcatCells(ts, n)[p] == ConcatCells(ts[..|ts| - 1], n)[p]
  {
    var front := ts[..|ts| - 1];
    assert AllWellFormed(front);
    var a := ConcatCells(front, n);
    var b := CellsOf(ts[|ts| - 1], n);
    assert ConcatCells(ts, n) == a + b;
    assert (a + b)[p] == a[p];
  }

  /** Block `k` of the concatenation starts after the rows of blocks 0..k-1,
      and row `i` of it is row `i` of `ts[k]`, NaN where `ts[k]` lacks the column. */
  lemma {:induction false} ConcatCell(ts: seq<Table>, k: nat, i: nat, n: string)
    requires AllWellFormed(ts)
    requires k < |ts| && i < ts[k].height
    ensures TotalHeight(ts[..k]) + i < TotalHeight(ts)
    ensures ConcatCells(ts, n)[TotalHeight(ts[..k]) + i] == CellAt(ts[k], n, i)
  {
    var front := ts[..|ts| - 1];
    if k == |ts| - 1 {
      assert ts[..k] == front;
      ConcatCellLast(ts, i, n);
    } else {
      assert front[..k] == ts[..k] && front[k] == ts[k];
      assert AllWellFormed(front);
      ConcatCell(front, k, i, n);
      ConcatCellFront(ts, TotalHeight(ts[..k]) + i, n);
    }
  }

  /** Every row of a concatenation lies in some block (in only one, by
      `LocateUnique`). */
  lemma {:induction false} Locate(ts: seq<Table>, p: nat) returns (k: nat, i: nat)
    requires p < TotalHeight(ts)
    ensures k < |ts| && i < ts[k].height && p == TotalHeight(ts[..k]) + i
  {
    var front := ts[..|ts| - 1];
    if p < TotalHeight(front) {
      k, i := Locate(front, p);
      assert front[..k] == ts[..k] && front[k] == ts[k];
    } else {
      k, i := |ts| - 1, p - TotalHeight(front);
    }
  }

  /** No two positions of the blocks meet at the same row: the block and
      the offset that `Locate` finds are the only ones. */
  lemma {:induction false} LocateUnique(ts: seq<Table>, k: nat, i: nat, k': nat, i': nat)
    requires k < |ts| && i < ts[k].height && k' < |ts| && i' < ts[k'].height
    requires TotalHeight(ts[..k]) + i == TotalHeight(ts[..k']) + i'
    ensures k == k' && i == i'
  {
    if k < k' {
      BlockEndsBefore(ts, k, k');
    } else if k' < k {
      BlockEndsBefore(ts, k', k);
    }
  }

  /** Block `k` ends no later than a later block `k'` starts. */
  lemma {:induction false} BlockEndsBefore(ts: seq<Table>, k: nat, k': nat)
    requires k < k' <= |ts|
    ensures TotalHeight(ts[..k]) + ts[k].height <= TotalHeight(ts[..k'])
  {
    var a, b := ts[..k + 1], ts[k + 1..k'];
    assert ts[..k'] == a + b;
    TotalHeightAppend(a, b);
    assert a[..|a| - 1] == ts[..k];
  }

  /** Row counts add up over an appended list. */
  lemma {:induction false} TotalHeightAppend(a: seq<Table>, b: seq<Table>)
    ensures TotalHeight(a + b) == TotalHeight(a) + TotalHeight(b)
  {
    if b == [] {
      assert a + b == a;
    } else {
      var front := b[..|b| - 1];
      assert (a + b)[..|a + b| - 1] == a + front;
      assert (a + b)[|a + b| - 1] == b[|b| - 1];
      TotalHeightAppend(a, front);
    }
  }

  /** In a one-table concatenation, each column keeps its dtype and cells. */
  lemma ConcatOneColumn(t: Table, n: string)
    requires WellFormed(t) && n in t.cols
    ensures ConcatCells([t], n) == t.cols[n].cells && Joined([t], n) == t.cols[n].dtype
  {
    var ts := [t];
    assert ts[..0] == [] && ts[0] == t;
    assert JoinDtype(ts, n) == Some(t.cols[n].dtype);
    assert ConcatCells(ts, n) == [] + CellsOf(t, n);
  }

  /** A one-table concatenation keeps the labels and the height. */
  lemma ConcatOneShape(t: Table)
    requires WellFormed(t)
    ensures ConcatNames([t]) == t.names && TotalHeight([t]) == t.height
  {
    var ts := [t];
    assert ts[..0] == [] && ts[0] == t;
  }

  /** Two column maps with the same labels and the same column under each
      label are equal. */
  lemma SameColumns(a: map<string, Column>, b: map<string, Column>)
    requires forall n :: n in a <==> n in b
    requires forall n :: n in a ==> a[n] == b[n]
    ensures a == b
  {
  }

  /** A one-table concatenation keeps the column labels. */
  lemma ConcatOneKeys(t: Table)
    requires WellFormed(t)
    ensures forall n :: n in ConcatColumnMap([t]) <==> n in t.cols
  {
    ConcatOneShape(t);
  }

  /** A one-table concatenation keeps every column as it is. */
  lemma ConcatOneMap(t: Table)
    requires WellFormed(t)
    ensures ConcatColumnMap([t]) == t.cols
  {
    var m := ConcatColumnMap([t]);
    ConcatOneKeys(t);
    forall n | n in t.cols ensures m[n] == t.cols[n] {
      ConcatOneColumn(t, n);
    }
    SameColumns(m, t.cols);
  }

  /** Concatenating a single table gives it back. */
  lemma ConcatOne(t: Table)
    requires WellFormed(t)
    ensures Concat([t]) == t
  {
    ConcatOneShape(t);
    ConcatOneMap(t);
  }

  /** A DataFrame object: the helpers copy it, assign its columns, or (in
      the imputation helpers) change the caller's own frame. */
  class Frame {
    var names: seq<string>
    var cols: map<string, Column>
    var height: nat

    function Value(): Table
      reads this
    {
      Table(names, cols, height)
    }

    ghost predicate Valid()
      reads this
    {
      WellFormed(Value())
    }

    constructor Of(t: Table)
      requires WellFormed(t)
      ensures Valid() && Value() == t
    {
      names, cols, height := t.names, t.cols, t.height;
    }

    /** `df.copy()`: a new frame with the same contents. */
    method Copy() returns (f: Frame)
      requires Valid()
      ensures fresh(f) && f.Valid() && f.Value() == Value()
    {
      f := new Frame.Of(Value());
    }

    /** `df[key] = c`, on this frame. */
    method SetColumn(key: string, c: Column)
      requires Valid() && ColumnOk(c, height)
      modifies this
      ensures Valid() && Value() == Assign(old(Value()), key, c)
    {
      if key !in cols {
        names := names + [key];
      }
      cols := cols[key := c];
    }

    /** `df.drop(columns=labels, errors="ignore")`: a new frame. */
    method Drop(labels: seq<string>) returns (f: Frame)
      requires Valid()
      ensures fresh(f) && f.Valid() && f.Value() == DropColumns(Value(), labels)
    {
      f := new Frame.Of(DropColumns(Value(), labels));
    }
  }
}
