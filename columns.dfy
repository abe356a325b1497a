/**
 * The header columns of a table as the reconciliation code reads them from the
 * page, and the column classifier: which columns are visible, fixed or
 * auto-resizable, and the minimum and effective width of the table.
 */
module Columns {
  import opened Ratios

  /** A `data-*` attribute of a cell: missing, or present with its text. */
  datatype Attr = Absent | Text(value: string)

  predicate IsTrue(a: Attr) {
    a == Text("true")
  }

  predicate IsFalse(a: Attr) {
    a == Text("false")
  }

  /**
   * One header cell (`th` of the first header row). `visible` is whether its
   * computed display is not `none`, which the `hidden` class switches off;
   * `handles` counts the resize-handle spans appended to it.
   */
  datatype Column = Column(
    id: string,
    minWidth: real,
    clientWidth: nat,
    autoResizable: Attr,
    manualResizable: Attr,
    shown: Attr,
    visible: bool,
    handles: nat)

  /** A body cell (`td`, or a `th` outside the header row). */
  datatype Cell = Cell(id: string, shown: Attr, visible: bool)

  predicate DistinctIds(cols: seq<Column>) {
    forall i, j :: 0 <= i < j < |cols| ==> cols[i].id != cols[j].id
  }

  /** The ids of the columns, in order. */
  function Ids(cols: seq<Column>): (ids: seq<string>)
    ensures |ids| == |cols|
    ensures forall i :: 0 <= i < |cols| ==> ids[i] == cols[i].id
  {
    if cols == [] then [] else Ids(cols[..|cols| - 1]) + [cols[|cols| - 1].id]
  }

  lemma IdsMembership(cols: seq<Column>, k: string)
    ensures k in Ids(cols) <==> exists c :: c in cols && c.id == k
  {
    var ids := Ids(cols);
    if k in ids {
      var i :| 0 <= i < |ids| && ids[i] == k;
      assert cols[i] in cols;
    }
    if exists c :: c in cols && c.id == k {
      var c :| c in cols && c.id == k;
      var i :| 0 <= i < |cols| && cols[i] == c;
      assert ids[i] == k;
    }
  }

  /** The three ways the reconciliation code selects header columns. */
  datatype ColumnClass = Visible | Fixed | AutoResizable

  /**
   * Visible: display is not `none`. Fixed: visible and `data-auto-resizable`
   * is exactly `'false'`. AutoResizable: visible and it is exactly `'true'`.
   */
  predicate InClass(c: Column, k: ColumnClass) {
    match k
    case Visible => c.visible
    case Fixed => c.visible && IsFalse(c.autoResizable)
    case AutoResizable => c.visible && IsTrue(c.autoResizable)
  }

  /** The columns of the class, in their order (`Array.prototype.filter`). */
  function Filter(cols: seq<Column>, k: ColumnClass): (r: seq<Column>)
    ensures |r| <= |cols|
    ensures forall c :: c in r <==> c in cols && InClass(c, k)
    ensures DistinctIds(cols) ==> DistinctIds(r)
  {
    if cols == [] then []
    else
      var prefix, c := cols[..|cols| - 1], cols[|cols| - 1];
      var rest := Filter(prefix, k);
      assert DistinctIds(cols) ==> DistinctIds(prefix) by {
        if DistinctIds(cols) {
          forall i, j | 0 <= i < j < |prefix| ensures prefix[i].id != prefix[j].id {
            assert prefix[i] == cols[i] && prefix[j] == cols[j];
          }
        }
      }
      assert DistinctIds(cols) && InClass(c, k) ==> DistinctIds(rest + [c]) by {
        if DistinctIds(cols) && InClass(c, k) {
          forall i | 0 <= i < |rest| ensures rest[i].id != c.id {
            assert rest[i] in prefix;
            var n :| 0 <= n < |prefix| && prefix[n] == rest[i];
            assert cols[n] == rest[i];
          }
        }
      }
      if InClass(c, k) then rest + [c] else rest
  }

  /** `getVisibleColumns`: the header columns whose display is not `none`. */
  function VisibleColumns(cols: seq<Column>): seq<Column> {
    Filter(cols, Visible)
  }

  /** Visible columns whose `data-auto-resizable` is exactly `'false'`: they keep their pixel width. */
  function FixedColumns(cols: seq<Column>): seq<Column> {
    Filter(cols, Fixed)
  }

  /** Visible columns whose `data-auto-resizable` is exactly `'true'`: they share the rest of the width. */
  function ResizableColumns(cols: seq<Column>): seq<Column> {
    Filter(cols, AutoResizable)
  }

  /** Filtering a sequence with one more column at the end. */
  lemma FilterAppend(cols: seq<Column>, c: Column, k: ColumnClass)
    ensures Filter(cols + [c], k) == if InClass(c, k) then Filter(cols, k) + [c] else Filter(cols, k)
  {
    assert (cols + [c])[..|cols|] == cols;
  }

  /** Filtering the visible columns again selects the same columns as filtering all of them, for a narrower class. */
  lemma {:induction false} RefilterVisible(cols: seq<Column>, k: ColumnClass)
    requires k != Visible
    ensures Filter(VisibleColumns(cols), k) == Filter(cols, k)
  {
    if cols != [] {
      var prefix, c := cols[..|cols| - 1], cols[|cols| - 1];
      assert cols == prefix + [c];
      RefilterVisible(prefix, k);
      FilterAppend(prefix, c, Visible);
      FilterAppend(prefix, c, k);
      if c.visible {
        FilterAppend(VisibleColumns(prefix), c, k);
      }
    }
  }

  /** The fixed and auto-resizable columns are the same whether picked from all columns or from the visible ones. */
  lemma ClassesOfVisible(cols: seq<Column>)
    ensures Filter(VisibleColumns(cols), Fixed) == FixedColumns(cols)
    ensures Filter(VisibleColumns(cols), AutoResizable) == ResizableColumns(cols)
  {
    RefilterVisible(cols, Fixed);
    RefilterVisible(cols, AutoResizable);
  }

  function SumClientWidths(cols: seq<Column>): real {
    if cols == [] then 0.0 else SumClientWidths(cols[..|cols| - 1]) + cols[|cols| - 1].clientWidth as real
  }

  function SumMinWidths(cols: seq<Column>): real {
    if cols == [] then 0.0 else SumMinWidths(cols[..|cols| - 1]) + cols[|cols| - 1].minWidth
  }

  lemma {:induction false} SumClientWidthsNonNegative(cols: seq<Column>)
    ensures SumClientWidths(cols) >= 0.0
  {
    if cols != [] {
      SumClientWidthsNonNegative(cols[..|cols| - 1]);
    }
  }

  lemma {:induction false} SumMinWidthsNonNegative(cols: seq<Column>)
    ensures (forall c | c in cols :: c.minWidth >= 0.0) ==> SumMinWidths(cols) >= 0.0
  {
    if cols != [] && forall c | c in cols :: c.minWidth >= 0.0 {
      var prefix := cols[..|cols| - 1];
      assert forall c | c in prefix :: c in cols;
      assert cols[|cols| - 1] in cols;
      SumMinWidthsNonNegative(prefix);
    }
  }

  /**
   * `getMinTableWidth`: current widths of the fixed columns plus minimum
   * widths of the auto-resizable ones; never negative unless some minimum is.
   */
  function MinTableWidth(cols: seq<Column>): (w: real)
    ensures (forall c | c in cols :: c.minWidth >= 0.0) ==> w >= 0.0
  {
    SumClientWidthsNonNegative(FixedColumns(cols));
    SumMinWidthsNonNegative(ResizableColumns(cols));
    SumClientWidths(FixedColumns(cols)) + SumMinWidths(ResizableColumns(cols))
  }

  /** `getTableWidth`: the container width, but never less than the minimum table width. */
  function TableWidth(containerWidth: nat, cols: seq<Column>): (w: real)
    ensures w >= containerWidth as real && w >= MinTableWidth(cols)
    ensures w == containerWidth as real || w == MinTableWidth(cols)
  {
    Max(containerWidth as real, MinTableWidth(cols))
  }

  /** What one column adds to the minimum table width, judged on its own. */
  function MinWidthContribution(c: Column): real {
    if !c.visible then 0.0
    else if IsFalse(c.autoResizable) then c.clientWidth as real
    else if IsTrue(c.autoResizable) then c.minWidth
    else 0.0
  }

  function SumContributions(cols: seq<Column>): real {
    if cols == [] then 0.0 else SumContributions(cols[..|cols| - 1]) + MinWidthContribution(cols[|cols| - 1])
  }

  /**
   * The minimum table width is the sum of each column's own contribution:
   * hidden columns and columns whose `data-auto-resizable` is neither
   * `'true'` nor `'false'` add nothing.
   */
  lemma {:induction false} MinTableWidthByColumn(cols: seq<Column>)
    ensures MinTableWidth(cols) == SumContributions(cols)
  {
    if cols != [] {
      var prefix, c := cols[..|cols| - 1], cols[|cols| - 1];
      MinTableWidthByColumn(prefix);
      var f, r := FixedColumns(prefix), ResizableColumns(prefix);
      if InClass(c, Fixed) {
        assert (f + [c])[..|f|] == f;
      } else if InClass(c, AutoResizable) {
        assert (r + [c])[..|r|] == r;
      }
    }
  }

  /** Dropping the last column keeps the ids distinct, and the last id is not among the others. */
  lemma DistinctIdsPrefix(cols: seq<Column>)
    requires DistinctIds(cols) && cols != []
    ensures DistinctIds(cols[..|cols| - 1])
    ensures cols[|cols| - 1].id !in Ids(cols[..|cols| - 1])
  {
    var prefix := cols[..|cols| - 1];
    forall i, j | 0 <= i < j < |prefix| ensures prefix[i].id != prefix[j].id {
      assert prefix[i] == cols[i] && prefix[j] == cols[j];
    }
  }

  predicate AllIdsIn(cols: seq<Column>, ratios: map<string, real>) {
    forall c | c in cols :: c.id in ratios
  }

  /** Sum of the ratios stored for the given columns, in their order (`reduce` over the columns). */
  function SumRatios(cols: seq<Column>, ratios: map<string, real>): real
    requires AllIdsIn(cols, ratios)
  {
    if cols == [] then 0.0 else SumRatios(cols[..|cols| - 1], ratios) + ratios[cols[|cols| - 1].id]
  }

  /** The sum only looks at the ratios of the columns' own ids. */
  lemma {:induction false} SumRatiosAgree(cols: seq<Column>, m1: map<string, real>, m2: map<string, real>)
    requires AllIdsIn(cols, m1) && AllIdsIn(cols, m2)
    requires forall c | c in cols :: m1[c.id] == m2[c.id]
    ensures SumRatios(cols, m1) == SumRatios(cols, m2)
  {
    if cols != [] {
      SumRatiosAgree(cols[..|cols| - 1], m1, m2);
    }
  }

  /** The position of the first column carrying the id. */
  function ColumnIndex(cols: seq<Column>, k: string): (j: nat)
    requires k in Ids(cols)
    ensures j < |cols| && cols[j].id == k
    ensures forall i | 0 <= i < j :: cols[i].id != k
  {
    if cols[0].id == k then 0
    else
      assert k in Ids(cols[1..]) by {
        var i :| 0 <= i < |cols| && Ids(cols)[i] == k;
        assert Ids(cols[1..])[i - 1] == k;
      }
      1 + ColumnIndex(cols[1..], k)
  }

  /**
   * The first column carrying the id (`Array.prototype.find`): no column
   * before it has the id, and with distinct ids it is the only one that does.
   */
  function ColumnWithId(cols: seq<Column>, k: string): (c: Column)
    requires k in Ids(cols)
    ensures c in cols && c.id == k
    ensures exists j | 0 <= j < |cols| :: cols[j] == c && forall i | 0 <= i < j :: cols[i].id != k
    ensures DistinctIds(cols) ==> forall d | d in cols && d.id == k :: d == c
  {
    cols[ColumnIndex(cols, k)]
  }

  /**
   * The page's view of one table: its id, the path it is shown at, the width
   * of its container, its header row, its other cells, and whether each
   * column's menu checkbox is disabled (by column id).
   */
  class Table {
    const id: string
    const path: string
    var containerWidth: nat
    var headers: seq<Column>
    var body: seq<Cell>
    var disabled: map<string, bool>

    constructor (id: string, path: string, containerWidth: nat, headers: seq<Column>, body: seq<Cell>, disabled: map<string, bool>)
      ensures this.id == id && this.path == path && this.containerWidth == containerWidth
      ensures this.headers == headers && this.body == body && this.disabled == disabled
    {
      this.id := id;
      this.path := path;
      this.containerWidth := containerWidth;
      this.headers := headers;
      this.body := body;
      this.disabled := disabled;
    }
  }
}
