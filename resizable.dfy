/**
 * The reconciliation engine of the resizable table: capturing ratios from the
 * rendered widths, rebalancing them when the table width changes, and the
 * reading and writing of the stored record around both.
 */
module Resizable {
  import opened Ratios
  import opened Columns
  import opened TableStore

  // ---------------------------------------------------------------------------
  // Capture from the current widths
  // ---------------------------------------------------------------------------

  /** Capture divides by the table width only for columns with a non-zero width. */
  predicate CanCapture(cols: seq<Column>, tableWidth: real) {
    tableWidth != 0.0 || forall c | c in cols :: c.clientWidth == 0
  }

  /**
   * The ratio capture records for one column: 0 for a column of width 0, else
   * the ratio of its width floored at its minimum, which is never negative.
   */
  function CapturedRatio(c: Column, tableWidth: real): (r: real)
    requires tableWidth != 0.0 || c.clientWidth == 0
    ensures c.clientWidth != 0 ==> Abs(r - ExactRatio(Max(c.clientWidth as real, c.minWidth), tableWidth)) <= HalfUnit
    ensures tableWidth > 0.0 ==> r >= 0.0
  {
    if c.clientWidth == 0 then 0.0
    else ColumnRatioFromWidth(Max(c.clientWidth as real, c.minWidth), tableWidth)
  }

  /** The ratios capture records, one entry per column id; a later column with the same id overwrites. */
  function CapturedRatios(cols: seq<Column>, tableWidth: real): (m: map<string, real>)
    requires CanCapture(cols, tableWidth)
    ensures forall k :: k in m <==> k in Ids(cols)
  {
    if cols == [] then map[]
    else CapturedRatios(cols[..|cols| - 1], tableWidth)[cols[|cols| - 1].id := CapturedRatio(cols[|cols| - 1], tableWidth)]
  }

  /** The loop of `calculateTablePropertiesFromCurrentWidths` that fills the ratio dictionary. */
  method CaptureRatios(cols: seq<Column>, tableWidth: real) returns (ratios: map<string, real>)
    requires CanCapture(cols, tableWidth)
    ensures ratios == CapturedRatios(cols, tableWidth)
  {
    ratios := map[];
    for i := 0 to |cols|
      invariant ratios == CapturedRatios(cols[..i], tableWidth)
    {
      var column := cols[i];
      assert cols[..i + 1][..i] == cols[..i];
      if column.clientWidth == 0 {
        ratios := ratios[column.id := 0.0];
      } else {
        ratios := ratios[column.id := ColumnRatioFromWidth(Max(column.clientWidth as real, column.minWidth), tableWidth)];
      }
    }
    assert cols[..|cols|] == cols;
  }

  /** The entry of a column is the ratio of the last column carrying its id. */
  lemma {:induction false} CapturedRatioAt(cols: seq<Column>, tableWidth: real, i: nat)
    requires CanCapture(cols, tableWidth)
    requires i < |cols|
    requires forall j | i < j < |cols| :: cols[j].id != cols[i].id
    ensures cols[i].id in CapturedRatios(cols, tableWidth)
    ensures CapturedRatios(cols, tableWidth)[cols[i].id] == CapturedRatio(cols[i], tableWidth)
  {
    if i < |cols| - 1 {
      var prefix := cols[..|cols| - 1];
      CapturedRatioAt(prefix, tableWidth, i);
    }
  }

  /** With distinct ids, every column's entry is its own captured ratio. */
  lemma CapturedRatiosOfDistinct(cols: seq<Column>, tableWidth: real)
    requires CanCapture(cols, tableWidth) && DistinctIds(cols)
    ensures forall c | c in cols :: c.id in CapturedRatios(cols, tableWidth)
                                  && CapturedRatios(cols, tableWidth)[c.id] == CapturedRatio(c, tableWidth)
  {
    forall c | c in cols
      ensures c.id in CapturedRatios(cols, tableWidth)
      ensures CapturedRatios(cols, tableWidth)[c.id] == CapturedRatio(c, tableWidth)
    {
      var i :| 0 <= i < |cols| && cols[i] == c;
      CapturedRatioAt(cols, tableWidth, i);
    }
  }

  lemma QuotientMonotone(a: real, b: real, tableWidth: real)
    requires a <= b && tableWidth > 0.0
    ensures a / tableWidth * 100.0 <= b / tableWidth * 100.0
  {
    assert (b - a) / tableWidth >= 0.0;
    assert b / tableWidth - a / tableWidth == (b - a) / tableWidth;
  }

  /** A wider column never gets a smaller ratio. */
  lemma RatioMonotone(a: real, b: real, tableWidth: real)
    requires a <= b && tableWidth > 0.0
    ensures ColumnRatioFromWidth(a, tableWidth) <= ColumnRatioFromWidth(b, tableWidth)
  {
    var x, y := a / tableWidth * 100.0, b / tableWidth * 100.0;
    QuotientMonotone(a, b, tableWidth);
    RoundToMonotone(x, y);
  }

  /**
   * A column of width 0 is captured with ratio exactly 0; any other column
   * with at least the ratio of its minimum width and of its current width.
   */
  lemma CapturedRatioBounds(c: Column, tableWidth: real)
    requires tableWidth > 0.0
    ensures c.clientWidth == 0 ==> CapturedRatio(c, tableWidth) == 0.0
    ensures c.clientWidth != 0 ==> CapturedRatio(c, tableWidth) >= ColumnRatioFromWidth(c.minWidth, tableWidth)
    ensures c.clientWidth != 0 ==> CapturedRatio(c, tableWidth) >= ColumnRatioFromWidth(c.clientWidth as real, tableWidth)
  {
    if c.clientWidth != 0 {
      var w := Max(c.clientWidth as real, c.minWidth);
      RatioMonotone(c.minWidth, w, tableWidth);
      RatioMonotone(c.clientWidth as real, w, tableWidth);
    }
  }

  /**
   * Applying a captured ratio at the same table width gives the column back
   * its width (floored at its minimum) up to the two roundings, and a
   * zero-width column width 0.
   */
  lemma CapturedWidthRestored(c: Column, tableWidth: real)
    requires tableWidth > 0.0
    ensures c.clientWidth == 0 ==> ColumnWidthFromRatio(CapturedRatio(c, tableWidth), tableWidth) == 0.0
    ensures c.clientWidth != 0 ==>
      Abs(ColumnWidthFromRatio(CapturedRatio(c, tableWidth), tableWidth) - Max(c.clientWidth as real, c.minWidth))
        <= HalfUnit + HalfUnit * (tableWidth / 100.0)
  {
    if c.clientWidth == 0 {
      assert 0.0 * tableWidth / 100.0 == 0.0;
      assert RoundTo(0.0) == 0.0;
    } else {
      WidthRatioRoundTrip(Max(c.clientWidth as real, c.minWidth), tableWidth);
    }
  }

  lemma ExactRatioAdd(a: real, b: real, tableWidth: real)
    requires tableWidth != 0.0
    ensures ExactRatio(a + b, tableWidth) == ExactRatio(a, tableWidth) + ExactRatio(b, tableWidth)
  {
    assert (a + b) / tableWidth == a / tableWidth + b / tableWidth;
  }

  lemma ErrorsAccumulate(total: real, x: real, exactTotal: real, exact: real, n: nat, h: real)
    requires Abs(total - exactTotal) <= n as real * h
    requires Abs(x - exact) <= h
    ensures Abs(total + x - (exactTotal + exact)) <= (n + 1) as real * h
  {
  }

  /** Summing ratios that each lie within a half unit of a column's exact share. */
  lemma {:induction false} SumOfCapturedShares(s: seq<Column>, m: map<string, real>, tableWidth: real)
    requires tableWidth > 0.0 && AllIdsIn(s, m)
    requires forall c | c in s :: Abs(m[c.id] - ExactRatio(c.clientWidth as real, tableWidth)) <= HalfUnit
    ensures Abs(SumRatios(s, m) - ExactRatio(SumClientWidths(s), tableWidth)) <= |s| as real * HalfUnit
  {
    if s == [] {
      assert ExactRatio(0.0, tableWidth) == 0.0;
    } else {
      var prefix, c := s[..|s| - 1], s[|s| - 1];
      SumOfCapturedShares(prefix, m, tableWidth);
      ExactRatioAdd(SumClientWidths(prefix), c.clientWidth as real, tableWidth);
      ErrorsAccumulate(SumRatios(prefix, m), m[c.id], ExactRatio(SumClientWidths(prefix), tableWidth),
                       ExactRatio(c.clientWidth as real, tableWidth), |prefix|, HalfUnit);
    }
  }

  /** A column wider than its minimum is captured within a half unit of its exact share. */
  lemma CapturedShareOfWideColumn(c: Column, tableWidth: real)
    requires tableWidth > 0.0 && c.clientWidth > 0 && c.clientWidth as real >= c.minWidth
    ensures Abs(CapturedRatio(c, tableWidth) - ExactRatio(c.clientWidth as real, tableWidth)) <= HalfUnit
  {
    assert Max(c.clientWidth as real, c.minWidth) == c.clientWidth as real;
  }

  lemma WholeIsHundred(tableWidth: real)
    requires tableWidth != 0.0
    ensures ExactRatio(tableWidth, tableWidth) == 100.0
  {
  }

  /** The ratios of the columns sum to 100, up to one half unit per column. */
  predicate SumsToHundred(v: seq<Column>, m: map<string, real>)
    requires AllIdsIn(v, m)
  {
    Abs(SumRatios(v, m) - 100.0) <= |v| as real * HalfUnit
  }

  /** Ratios within a half unit of the exact shares of columns that fill the table sum to about 100. */
  lemma SharesOfFullTable(v: seq<Column>, m: map<string, real>, tableWidth: real)
    requires tableWidth > 0.0 && AllIdsIn(v, m) && SumClientWidths(v) == tableWidth
    requires NearExactShares(v, m, tableWidth)
    ensures SumsToHundred(v, m)
  {
    SumOfCapturedShares(v, m, tableWidth);
    WholeIsHundred(tableWidth);
  }

  /** Every visible column that is not below its minimum is captured within a half unit of its exact share. */
  /** Every column's ratio lies within a half unit of its exact share of the table. */
  predicate NearExactShares(v: seq<Column>, m: map<string, real>, tableWidth: real)
    requires tableWidth != 0.0 && AllIdsIn(v, m)
  {
    forall c | c in v :: Abs(m[c.id] - ExactRatio(c.clientWidth as real, tableWidth)) <= HalfUnit
  }

  lemma CapturedVisibleShares(cols: seq<Column>, tableWidth: real)
    requires tableWidth > 0.0 && DistinctIds(cols)
    requires forall c | c in VisibleColumns(cols) :: c.clientWidth > 0 && c.clientWidth as real >= c.minWidth
    ensures AllIdsIn(VisibleColumns(cols), CapturedRatios(cols, tableWidth))
    ensures NearExactShares(VisibleColumns(cols), CapturedRatios(cols, tableWidth), tableWidth)
  {
    var m := CapturedRatios(cols, tableWidth);
    forall c | c in VisibleColumns(cols)
      ensures c.id in m
      ensures Abs(m[c.id] - ExactRatio(c.clientWidth as real, tableWidth)) <= HalfUnit
    {
      var i :| 0 <= i < |cols| && cols[i] == c;
      CapturedRatioAt(cols, tableWidth, i);
      CapturedShareOfWideColumn(c, tableWidth);
    }
  }

  /**
   * When the visible columns exactly fill the table, none is below its
   * minimum and none has width 0, their captured ratios sum to 100 up to
   * one half unit per column.
   */
  lemma CapturedVisibleSum(cols: seq<Column>, tableWidth: real)
    requires tableWidth > 0.0 && DistinctIds(cols)
    requires forall c | c in VisibleColumns(cols) :: c.clientWidth > 0 && c.clientWidth as real >= c.minWidth
    requires SumClientWidths(VisibleColumns(cols)) == tableWidth
    ensures AllIdsIn(VisibleColumns(cols), CapturedRatios(cols, tableWidth))
    ensures SumsToHundred(VisibleColumns(cols), CapturedRatios(cols, tableWidth))
  {
    CapturedVisibleShares(cols, tableWidth);
    SharesOfFullTable(VisibleColumns(cols), CapturedRatios(cols, tableWidth), tableWidth);
  }

  // ---------------------------------------------------------------------------
  // Rebalancing after a change of the table width
  // ---------------------------------------------------------------------------

  /** An auto-resizable column that is not wider than its minimum is pinned at its minimum. */
  predicate IsPinned(c: Column) {
    !(c.clientWidth as real > c.minWidth)
  }

  /** What `recalculateTablePropertiesDueToResizing` needs to compute with numbers only. */
  predicate CanResize(cols: seq<Column>, props: TableProperties, newWidth: real) {
    && DistinctIds(cols)
    && AllIdsIn(FixedColumns(cols), props.columnRatios)
    && AllIdsIn(ResizableColumns(cols), props.columnRatios)
    && (newWidth != 0.0 || (FixedColumns(cols) == [] && ResizableColumns(cols) == []))
    && (SumRatios(ResizableColumns(cols), props.columnRatios) != 0.0
        || forall c | c in ResizableColumns(cols) :: IsPinned(c))
  }

  /**
   * The new ratio of a fixed column: scaled so that its pixel width stays,
   * then rounded; a non-negative ratio stays non-negative.
   */
  function FixedRatio(ratio: real, oldWidth: real, newWidth: real): (r: real)
    requires newWidth != 0.0
    ensures ratio >= 0.0 && oldWidth >= 0.0 && newWidth > 0.0 ==> r >= 0.0
  {
    RoundTo(ratio * oldWidth / newWidth)
  }

  /** The ratio map after the first loop, over the given fixed columns in order. */
  function ScaleFixed(fixed: seq<Column>, m: map<string, real>, oldWidth: real, newWidth: real): (r: map<string, real>)
    requires AllIdsIn(fixed, m) && (fixed == [] || newWidth != 0.0)
    ensures r.Keys == m.Keys
  {
    if fixed == [] then m
    else
      var previous := ScaleFixed(fixed[..|fixed| - 1], m, oldWidth, newWidth);
      var id := fixed[|fixed| - 1].id;
      previous[id := FixedRatio(previous[id], oldWidth, newWidth)]
  }

  /** The new ratio of an auto-resizable column: its share of what the fixed columns leave, or its minimum. */
  function ResizableRatio(c: Column, ratio: real, targetSum: real, oldSum: real, newWidth: real): real
    requires newWidth != 0.0 && (oldSum != 0.0 || IsPinned(c))
  {
    if c.clientWidth as real > c.minWidth then RoundTo(ratio * targetSum / oldSum)
    else ColumnRatioFromWidth(c.minWidth, newWidth)
  }

  predicate CanDistribute(resizable: seq<Column>, m: map<string, real>, oldSum: real, newWidth: real) {
    && AllIdsIn(resizable, m)
    && (resizable == [] || newWidth != 0.0)
    && (oldSum != 0.0 || forall c | c in resizable :: IsPinned(c))
  }

  /** The ratio map after the second loop, over the given auto-resizable columns in order. */
  function Distribute(resizable: seq<Column>, m: map<string, real>, targetSum: real, oldSum: real, newWidth: real): (r: map<string, real>)
    requires CanDistribute(resizable, m, oldSum, newWidth)
    ensures r.Keys == m.Keys
  {
    if resizable == [] then m
    else
      var previous := Distribute(resizable[..|resizable| - 1], m, targetSum, oldSum, newWidth);
      var c := resizable[|resizable| - 1];
      previous[c.id := ResizableRatio(c, previous[c.id], targetSum, oldSum, newWidth)]
  }

  /** One more auto-resizable column processed by the second loop. */
  lemma DistributeStep(resizable: seq<Column>, m: map<string, real>, targetSum: real, oldSum: real, newWidth: real, j: nat)
    requires CanDistribute(resizable, m, oldSum, newWidth) && j < |resizable|
    ensures CanDistribute(resizable[..j], m, oldSum, newWidth)
    ensures CanDistribute(resizable[..j + 1], m, oldSum, newWidth)
    ensures resizable[j].id in Distribute(resizable[..j], m, targetSum, oldSum, newWidth)
    ensures newWidth != 0.0 && (oldSum != 0.0 || IsPinned(resizable[j]))
    ensures Distribute(resizable[..j + 1], m, targetSum, oldSum, newWidth)
            == Distribute(resizable[..j], m, targetSum, oldSum, newWidth)[resizable[j].id :=
                 ResizableRatio(resizable[j], Distribute(resizable[..j], m, targetSum, oldSum, newWidth)[resizable[j].id],
                                targetSum, oldSum, newWidth)]
  {
    assert resizable[..j + 1][..j] == resizable[..j];
    assert resizable[j] in resizable;
  }

  /** `resizableColumnRatiosSum`: the stored ratios of the auto-resizable columns, summed. */
  function OldSum(cols: seq<Column>, props: TableProperties): real
    requires AllIdsIn(ResizableColumns(cols), props.columnRatios)
  {
    SumRatios(ResizableColumns(cols), props.columnRatios)
  }

  /** `newResizableColumnRatiosSum`: what the rescaled fixed columns leave of 100. */
  function TargetSum(cols: seq<Column>, props: TableProperties, newWidth: real): real
    requires CanResize(cols, props, newWidth)
  {
    var scaled := ScaleFixed(FixedColumns(cols), props.columnRatios, props.tableWidth, newWidth);
    100.0 - SumRatios(FixedColumns(cols), scaled)
  }

  /** The record `recalculateTablePropertiesDueToResizing` returns for the new table width. */
  function Rebalanced(cols: seq<Column>, props: TableProperties, newWidth: real): (r: TableProperties)
    requires CanResize(cols, props, newWidth)
    ensures r.tableWidth == newWidth
    ensures r.columnRatios.Keys == props.columnRatios.Keys
  {
    var scaled := ScaleFixed(FixedColumns(cols), props.columnRatios, props.tableWidth, newWidth);
    TableProperties(
      Distribute(ResizableColumns(cols), scaled, TargetSum(cols, props, newWidth), OldSum(cols, props), newWidth),
      newWidth)
  }

  /** One more fixed column processed by the first loop: its rescaled ratio is added to the map and to the running sum. */
  lemma ScaleFixedStep(fixed: seq<Column>, m: map<string, real>, oldWidth: real, newWidth: real, i: nat, before: map<string, real>)
    requires AllIdsIn(fixed, m) && newWidth != 0.0 && DistinctIds(fixed) && i < |fixed|
    requires before == ScaleFixed(fixed[..i], m, oldWidth, newWidth)
    ensures fixed[i].id in before && AllIdsIn(fixed[..i], before)
    ensures var after := before[fixed[i].id := FixedRatio(before[fixed[i].id], oldWidth, newWidth)];
            && after == ScaleFixed(fixed[..i + 1], m, oldWidth, newWidth)
            && AllIdsIn(fixed[..i + 1], after)
            && SumRatios(fixed[..i + 1], after) == SumRatios(fixed[..i], before) + after[fixed[i].id]
  {
    var id := fixed[i].id;
    var after := before[id := FixedRatio(before[id], oldWidth, newWidth)];
    assert fixed[i] in fixed;
    assert fixed[..i + 1][..i] == fixed[..i];
    DistinctIdsPrefix(fixed[..i + 1]);
    SumRatiosAgree(fixed[..i], before, after);
  }

  /** The first loop of `recalculateTablePropertiesDueToResizing`: rescales the fixed columns and sums their new ratios. */
  method ScaleFixedRatios(fixed: seq<Column>, m: map<string, real>, oldWidth: real, newWidth: real)
    returns (columnRatios: map<string, real>, fixedSum: real)
    requires AllIdsIn(fixed, m) && (fixed == [] || newWidth != 0.0) && DistinctIds(fixed)
    ensures columnRatios == ScaleFixed(fixed, m, oldWidth, newWidth)
    ensures AllIdsIn(fixed, columnRatios) && fixedSum == SumRatios(fixed, columnRatios)
  {
    columnRatios := m;
    fixedSum := 0.0;
    for i := 0 to |fixed|
      invariant columnRatios == ScaleFixed(fixed[..i], m, oldWidth, newWidth)
      invariant AllIdsIn(fixed[..i], columnRatios)
      invariant fixedSum == SumRatios(fixed[..i], columnRatios)
    {
      var id := fixed[i].id;
      ScaleFixedStep(fixed, m, oldWidth, newWidth, i, columnRatios);
      columnRatios := columnRatios[id := FixedRatio(columnRatios[id], oldWidth, newWidth)];
      fixedSum := fixedSum + columnRatios[id];
    }
    assert fixed[..|fixed|] == fixed;
  }

  /** The body of the second loop for one column: its share when it is wider than its minimum, else its minimum. */
  method NewResizableRatio(column: Column, ratio: real, targetSum: real, oldSum: real, newWidth: real) returns (r: real)
    requires newWidth != 0.0 && (oldSum != 0.0 || IsPinned(column))
    ensures r == ResizableRatio(column, ratio, targetSum, oldSum, newWidth)
  {
    if column.clientWidth as real > column.minWidth {
      r := RoundTo(ratio * targetSum / oldSum);
    } else {
      r := ColumnRatioFromWidth(column.minWidth, newWidth);
    }
  }

  /** The second loop of `recalculateTablePropertiesDueToResizing`: gives each auto-resizable column its share or its minimum. */
  method DistributeRatios(resizable: seq<Column>, m: map<string, real>, targetSum: real, oldSum: real, newWidth: real)
    returns (columnRatios: map<string, real>)
    requires CanDistribute(resizable, m, oldSum, newWidth)
    ensures columnRatios == Distribute(resizable, m, targetSum, oldSum, newWidth)
  {
    columnRatios := m;
    for j := 0 to |resizable|
      invariant columnRatios == Distribute(resizable[..j], m, targetSum, oldSum, newWidth)
    {
      var column := resizable[j];
      DistributeStep(resizable, m, targetSum, oldSum, newWidth, j);
      var ratio := NewResizableRatio(column, columnRatios[column.id], targetSum, oldSum, newWidth);
      columnRatios := columnRatios[column.id := ratio];
    }
    assert resizable[..|resizable|] == resizable;
  }

  /** `recalculateTablePropertiesDueToResizing` on its inputs: the two loops over the ratio dictionary. */
  method RecalculateForResize(cols: seq<Column>, props: TableProperties, newWidth: real) returns (r: TableProperties)
    requires CanResize(cols, props, newWidth)
    ensures r == Rebalanced(cols, props, newWidth)
  {
    var resizable := ResizableColumns(cols);
    var oldSum := SumRatios(resizable, props.columnRatios);
    var fixed := FixedColumns(cols);
    var scaled, fixedSum := ScaleFixedRatios(fixed, props.columnRatios, props.tableWidth, newWidth);
    var targetSum := 100.0 - fixedSum;
    var columnRatios := DistributeRatios(resizable, scaled, targetSum, oldSum, newWidth);
    r := TableProperties(columnRatios, newWidth);
  }

  lemma ErrorTimes(e: real, h: real, k: real)
    requires Abs(e) <= h
    ensures Abs(e * k) <= h * Abs(k)
  {
    if k >= 0.0 {
      MultiplyMonotone(e, h, k);
      MultiplyMonotone(-h, e, k);
    } else {
      MultiplyMonotone(e, h, -k);
      MultiplyMonotone(-h, e, -k);
    }
  }

  lemma ScaledPixelWidth(ratio: real, oldWidth: real, newWidth: real, newRatio: real)
    requires newWidth != 0.0
    requires Abs(newRatio - ratio * oldWidth / newWidth) <= HalfUnit
    ensures Abs(newRatio * newWidth - ratio * oldWidth) <= HalfUnit * Abs(newWidth)
  {
    var e := newRatio - ratio * oldWidth / newWidth;
    assert newRatio * newWidth - ratio * oldWidth == e * newWidth;
    ErrorTimes(e, HalfUnit, newWidth);
  }

  lemma ScaledPixelWidthBound(ratio: real, oldWidth: real, newWidth: real, newRatio: real)
    requires newWidth != 0.0
    requires Abs(newRatio - ratio * oldWidth / newWidth) <= HalfUnit
    ensures Abs(ExactWidth(newRatio, newWidth) - ExactWidth(ratio, oldWidth)) <= HalfUnit * Abs(newWidth) / 100.0
  {
    ScaledPixelWidth(ratio, oldWidth, newWidth, newRatio);
    var d := newRatio * newWidth - ratio * oldWidth;
    assert ExactWidth(newRatio, newWidth) - ExactWidth(ratio, oldWidth) == d / 100.0;
  }

  /** Rescaling a ratio to a new table width keeps the width it stands for, up to the rounding. */
  lemma FixedRatioKeepsWidth(ratio: real, oldWidth: real, newWidth: real)
    requires newWidth != 0.0
    ensures Abs(ExactWidth(FixedRatio(ratio, oldWidth, newWidth), newWidth) - ExactWidth(ratio, oldWidth))
            <= HalfUnit * Abs(newWidth) / 100.0
  {
    ScaledPixelWidthBound(ratio, oldWidth, newWidth, FixedRatio(ratio, oldWidth, newWidth));
  }

  /** The first loop leaves the ratio of every other id alone. */
  lemma {:induction false} ScaleFixedLeaves(fixed: seq<Column>, m: map<string, real>, oldWidth: real, newWidth: real, k: string)
    requires AllIdsIn(fixed, m) && (fixed == [] || newWidth != 0.0)
    requires k in m && k !in Ids(fixed)
    ensures ScaleFixed(fixed, m, oldWidth, newWidth)[k] == m[k]
  {
    if fixed != [] {
      ScaleFixedLeaves(fixed[..|fixed| - 1], m, oldWidth, newWidth, k);
    }
  }

  /** With distinct ids, the first loop gives each fixed column the scaled ratio of its stored one. */
  lemma {:induction false} ScaleFixedAt(fixed: seq<Column>, m: map<string, real>, oldWidth: real, newWidth: real, c: Column)
    requires AllIdsIn(fixed, m) && newWidth != 0.0 && DistinctIds(fixed)
    requires c in fixed
    ensures ScaleFixed(fixed, m, oldWidth, newWidth)[c.id] == FixedRatio(m[c.id], oldWidth, newWidth)
  {
    var prefix, last := fixed[..|fixed| - 1], fixed[|fixed| - 1];
    DistinctIdsPrefix(fixed);
    if c == last {
      ScaleFixedLeaves(prefix, m, oldWidth, newWidth, c.id);
    } else {
      assert c in prefix;
      ScaleFixedAt(prefix, m, oldWidth, newWidth, c);
      IdsMembership(prefix, last.id);
    }
  }

  /** The second loop leaves the ratio of every other id alone. */
  lemma {:induction false} DistributeLeaves(resizable: seq<Column>, m: map<string, real>, targetSum: real, oldSum: real, newWidth: real, k: string)
    requires CanDistribute(resizable, m, oldSum, newWidth)
    requires k in m && k !in Ids(resizable)
    ensures Distribute(resizable, m, targetSum, oldSum, newWidth)[k] == m[k]
  {
    if resizable != [] {
      DistributeLeaves(resizable[..|resizable| - 1], m, targetSum, oldSum, newWidth, k);
    }
  }

  /** With distinct ids, the second loop gives each auto-resizable column its share or its minimum. */
  lemma {:induction false} DistributeAt(resizable: seq<Column>, m: map<string, real>, targetSum: real, oldSum: real, newWidth: real, c: Column)
    requires CanDistribute(resizable, m, oldSum, newWidth) && DistinctIds(resizable)
    requires c in resizable
    ensures Distribute(resizable, m, targetSum, oldSum, newWidth)[c.id] == ResizableRatio(c, m[c.id], targetSum, oldSum, newWidth)
  {
    var prefix, last := resizable[..|resizable| - 1], resizable[|resizable| - 1];
    DistinctIdsPrefix(resizable);
    if c == last {
      DistributeLeaves(prefix, m, targetSum, oldSum, newWidth, c.id);
    } else {
      assert c in prefix;
      DistributeAt(prefix, m, targetSum, oldSum, newWidth, c);
      IdsMembership(prefix, last.id);
    }
  }

  lemma ResizableColumnsAreNotFixed(cols: seq<Column>)
    requires DistinctIds(cols)
    ensures forall c | c in ResizableColumns(cols) :: c.id !in Ids(FixedColumns(cols))
  {
    forall c | c in ResizableColumns(cols)
      ensures c.id !in Ids(FixedColumns(cols))
    {
      IdsMembership(FixedColumns(cols), c.id);
    }
  }

  lemma FixedColumnsAreNotResizable(cols: seq<Column>)
    requires DistinctIds(cols)
    ensures forall c | c in FixedColumns(cols) :: c.id !in Ids(ResizableColumns(cols))
  {
    forall c | c in FixedColumns(cols)
      ensures c.id !in Ids(ResizableColumns(cols))
    {
      IdsMembership(ResizableColumns(cols), c.id);
    }
  }

  /** Ratios of hidden columns, of columns that are neither fixed nor auto-resizable, and of stale ids stay as stored. */
  lemma RebalancedLeavesOthers(cols: seq<Column>, props: TableProperties, newWidth: real, k: string)
    requires CanResize(cols, props, newWidth)
    requires k in props.columnRatios && k !in Ids(FixedColumns(cols)) && k !in Ids(ResizableColumns(cols))
    ensures Rebalanced(cols, props, newWidth).columnRatios[k] == props.columnRatios[k]
  {
    var fixed, resizable := FixedColumns(cols), ResizableColumns(cols);
    var scaled := ScaleFixed(fixed, props.columnRatios, props.tableWidth, newWidth);
    ScaleFixedLeaves(fixed, props.columnRatios, props.tableWidth, newWidth, k);
    DistributeLeaves(resizable, scaled, TargetSum(cols, props, newWidth), OldSum(cols, props), newWidth, k);
  }

  /** The ratio each fixed column ends up with: its stored ratio, rescaled. */
  lemma RebalancedFixed(cols: seq<Column>, props: TableProperties, newWidth: real, c: Column)
    requires CanResize(cols, props, newWidth)
    requires c in FixedColumns(cols)
    ensures newWidth != 0.0
    ensures Rebalanced(cols, props, newWidth).columnRatios[c.id] == FixedRatio(props.columnRatios[c.id], props.tableWidth, newWidth)
  {
    var fixed, resizable := FixedColumns(cols), ResizableColumns(cols);
    var scaled := ScaleFixed(fixed, props.columnRatios, props.tableWidth, newWidth);
    ScaleFixedAt(fixed, props.columnRatios, props.tableWidth, newWidth, c);
    FixedColumnsAreNotResizable(cols);
    DistributeLeaves(resizable, scaled, TargetSum(cols, props, newWidth), OldSum(cols, props), newWidth, c.id);
  }

  /** The ratio each auto-resizable column ends up with: its share of what the fixed columns leave, or its minimum. */
  lemma RebalancedResizable(cols: seq<Column>, props: TableProperties, newWidth: real, c: Column)
    requires CanResize(cols, props, newWidth)
    requires c in ResizableColumns(cols)
    ensures newWidth != 0.0 && (OldSum(cols, props) != 0.0 || IsPinned(c))
    ensures Rebalanced(cols, props, newWidth).columnRatios[c.id]
            == ResizableRatio(c, props.columnRatios[c.id], TargetSum(cols, props, newWidth), OldSum(cols, props), newWidth)
  {
    var fixed, resizable := FixedColumns(cols), ResizableColumns(cols);
    var scaled := ScaleFixed(fixed, props.columnRatios, props.tableWidth, newWidth);
    ResizableColumnsAreNotFixed(cols);
    ScaleFixedLeaves(fixed, props.columnRatios, props.tableWidth, newWidth, c.id);
    DistributeAt(resizable, scaled, TargetSum(cols, props, newWidth), OldSum(cols, props), newWidth, c);
  }

  lemma ShareOfUnpinned(c: Column, ratio: real, targetSum: real, oldSum: real, newWidth: real, r: real)
    requires newWidth != 0.0 && oldSum != 0.0 && !IsPinned(c)
    requires r == ResizableRatio(c, ratio, targetSum, oldSum, newWidth)
    ensures CloseToScaled(r, ratio, targetSum / oldSum, 1)
  {
    RoundedShareIsScaled(ratio, r, targetSum, oldSum);
  }

  /** An auto-resizable column above its minimum ends up within a half unit of its proportional share. */
  lemma RebalancedShare(cols: seq<Column>, props: TableProperties, newWidth: real, c: Column)
    requires CanResize(cols, props, newWidth)
    requires c in ResizableColumns(cols) && !IsPinned(c) && OldSum(cols, props) != 0.0
    ensures CloseToScaled(Rebalanced(cols, props, newWidth).columnRatios[c.id], props.columnRatios[c.id],
                          TargetSum(cols, props, newWidth) / OldSum(cols, props), 1)
  {
    RebalancedResizable(cols, props, newWidth, c);
    ShareOfUnpinned(c, props.columnRatios[c.id], TargetSum(cols, props, newWidth), OldSum(cols, props), newWidth,
                    Rebalanced(cols, props, newWidth).columnRatios[c.id]);
  }

  /**
   * A fixed column keeps its pixel width across a width change: the width
   * its new ratio stands for at the new table width is the width its old
   * ratio stood for at the old one, up to the rounding.
   */
  lemma RebalancedFixedKeepsWidth(cols: seq<Column>, props: TableProperties, newWidth: real, c: Column)
    requires CanResize(cols, props, newWidth)
    requires c in FixedColumns(cols)
    ensures Abs(ExactWidth(Rebalanced(cols, props, newWidth).columnRatios[c.id], newWidth)
                - ExactWidth(props.columnRatios[c.id], props.tableWidth))
            <= HalfUnit * Abs(newWidth) / 100.0
  {
    RebalancedFixed(cols, props, newWidth, c);
    FixedRatioKeepsWidth(props.columnRatios[c.id], props.tableWidth, newWidth);
  }

  /**
   * An auto-resizable column at or below its minimum width is pinned: its new
   * ratio is that of its minimum width, which applied again gives the minimum
   * width back up to the roundings.
   */
  lemma RebalancedPinnedAtMinimum(cols: seq<Column>, props: TableProperties, newWidth: real, c: Column)
    requires CanResize(cols, props, newWidth) && newWidth > 0.0
    requires c in ResizableColumns(cols) && IsPinned(c)
    ensures Rebalanced(cols, props, newWidth).columnRatios[c.id] == ColumnRatioFromWidth(c.minWidth, newWidth)
    ensures Abs(ColumnWidthFromRatio(Rebalanced(cols, props, newWidth).columnRatios[c.id], newWidth) - c.minWidth)
            <= HalfUnit + HalfUnit * (newWidth / 100.0)
  {
    RebalancedResizable(cols, props, newWidth, c);
    WidthRatioRoundTrip(c.minWidth, newWidth);
  }

  /** `total` lies within `n` half units of `sum * k`. */
  predicate CloseToScaled(total: real, sum: real, k: real, n: nat) {
    Abs(total - sum * k) <= n as real * HalfUnit
  }

  /** Every column's new ratio lies within a half unit of its stored ratio times `k`. */
  predicate NearProportional(s: seq<Column>, r: map<string, real>, m: map<string, real>, k: real)
    requires AllIdsIn(s, r) && AllIdsIn(s, m)
  {
    forall c | c in s :: CloseToScaled(r[c.id], m[c.id], k, 1)
  }

  lemma CloseToScaledEmpty(k: real)
    ensures CloseToScaled(0.0, 0.0, k, 0)
  {
  }

  lemma CloseToScaledAdd(total: real, prefixTotal: real, last: real, sum: real, a: real, b: real, k: real, n: nat)
    requires total == prefixTotal + last && sum == a + b
    requires CloseToScaled(prefixTotal, a, k, n) && CloseToScaled(last, b, k, 1)
    ensures CloseToScaled(total, sum, k, n + 1)
  {
    assert sum * k == a * k + b * k;
  }

  /** Ratios each near their stored ratio times `k` sum to near the stored sum times `k`, one half unit per column. */
  lemma {:induction false} SumNearProportional(s: seq<Column>, r: map<string, real>, m: map<string, real>, k: real)
    requires AllIdsIn(s, r) && AllIdsIn(s, m)
    requires NearProportional(s, r, m, k)
    ensures CloseToScaled(SumRatios(s, r), SumRatios(s, m), k, |s|)
  {
    if s == [] {
      CloseToScaledEmpty(k);
    } else {
      var prefix, c := s[..|s| - 1], s[|s| - 1];
      assert c in s;
      SumNearProportional(prefix, r, m, k);
      CloseToScaledAdd(SumRatios(s, r), SumRatios(prefix, r), r[c.id],
                       SumRatios(s, m), SumRatios(prefix, m), m[c.id], k, |prefix|);
    }
  }

  lemma RoundedShareIsScaled(ratio: real, rounded: real, targetSum: real, oldSum: real)
    requires oldSum != 0.0 && Abs(rounded - ratio * targetSum / oldSum) <= HalfUnit
    ensures CloseToScaled(rounded, ratio, targetSum / oldSum, 1)
  {
    assert ratio * targetSum / oldSum == ratio * (targetSum / oldSum);
  }

  lemma CombineRemainder(fixedSum: real, resizableSum: real, oldSum: real, targetSum: real, n: nat)
    requires oldSum != 0.0 && targetSum == 100.0 - fixedSum
    requires CloseToScaled(resizableSum, oldSum, targetSum / oldSum, n)
    ensures Abs(fixedSum + resizableSum - 100.0) <= n as real * HalfUnit
  {
    assert oldSum * (targetSum / oldSum) == targetSum;
  }

  /** The ratios of the fixed and auto-resizable columns sum to 100, up to one half unit per auto-resizable column. */
  predicate FillsTable(fixed: seq<Column>, resizable: seq<Column>, r: map<string, real>)
    requires AllIdsIn(fixed, r) && AllIdsIn(resizable, r)
  {
    Abs(SumRatios(fixed, r) + SumRatios(resizable, r) - 100.0) <= |resizable| as real * HalfUnit
  }

  /**
   * When no auto-resizable column is pinned and their old ratios do not sum
   * to 0, the new ratios of the fixed and auto-resizable columns sum to 100,
   * up to one half unit per auto-resizable column.
   */
  lemma RebalancedSumsTo100(cols: seq<Column>, props: TableProperties, newWidth: real)
    requires CanResize(cols, props, newWidth)
    requires OldSum(cols, props) != 0.0
    requires forall c | c in ResizableColumns(cols) :: !IsPinned(c)
    ensures AllIdsIn(FixedColumns(cols), Rebalanced(cols, props, newWidth).columnRatios)
    ensures AllIdsIn(ResizableColumns(cols), Rebalanced(cols, props, newWidth).columnRatios)
    ensures FillsTable(FixedColumns(cols), ResizableColumns(cols), Rebalanced(cols, props, newWidth).columnRatios)
  {
    var m, r := props.columnRatios, Rebalanced(cols, props, newWidth).columnRatios;
    var fixed, resizable := FixedColumns(cols), ResizableColumns(cols);
    var scaled := ScaleFixed(fixed, m, props.tableWidth, newWidth);
    var targetSum, oldSum := TargetSum(cols, props, newWidth), OldSum(cols, props);
    FixedColumnsAreNotResizable(cols);
    forall c | c in fixed ensures r[c.id] == scaled[c.id] {
      DistributeLeaves(resizable, scaled, targetSum, oldSum, newWidth, c.id);
    }
    SumRatiosAgree(fixed, r, scaled);
    forall c | c in resizable ensures CloseToScaled(r[c.id], m[c.id], targetSum / oldSum, 1) {
      RebalancedShare(cols, props, newWidth, c);
    }
    assert NearProportional(resizable, r, m, targetSum / oldSum);
    SumNearProportional(resizable, r, m, targetSum / oldSum);
    CombineRemainder(SumRatios(fixed, r), SumRatios(resizable, r), oldSum, targetSum, |resizable|);
  }

  lemma SameWidthScale(ratio: real, width: real)
    requires width != 0.0
    ensures ratio * width / width == ratio
  {
  }

  /** At an unchanged width a rounded ratio of a fixed column is left as it is. */
  lemma FixedRatioAtSameWidth(ratio: real, width: real)
    requires width != 0.0 && OnGrid(ratio)
    ensures FixedRatio(ratio, width, width) == ratio
  {
    SameWidthScale(ratio, width);
  }

  /** The stored ratios of the fixed and auto-resizable columns are all rounded. */
  predicate RatiosOnGrid(cols: seq<Column>, props: TableProperties)
    requires AllIdsIn(FixedColumns(cols), props.columnRatios) && AllIdsIn(ResizableColumns(cols), props.columnRatios)
  {
    && (forall c | c in FixedColumns(cols) :: OnGrid(props.columnRatios[c.id]))
    && (forall c | c in ResizableColumns(cols) :: OnGrid(props.columnRatios[c.id]))
  }

  /** At an unchanged width, the remainder left for the auto-resizable columns is what they held before. */
  lemma SameWidthTarget(cols: seq<Column>, props: TableProperties)
    requires CanResize(cols, props, props.tableWidth) && props.tableWidth != 0.0
    requires RatiosOnGrid(cols, props)
    requires SumRatios(FixedColumns(cols), props.columnRatios) + OldSum(cols, props) == 100.0
    ensures TargetSum(cols, props, props.tableWidth) == OldSum(cols, props)
  {
    var m, w := props.columnRatios, props.tableWidth;
    var fixed := FixedColumns(cols);
    var scaled := ScaleFixed(fixed, m, w, w);
    forall c | c in fixed ensures scaled[c.id] == m[c.id] {
      ScaleFixedAt(fixed, m, w, w, c);
      FixedRatioAtSameWidth(m[c.id], w);
    }
    SumRatiosAgree(fixed, scaled, m);
  }

  lemma UnpinnedShareAtSameSum(c: Column, ratio: real, oldSum: real, newWidth: real, r: real)
    requires newWidth != 0.0 && oldSum != 0.0 && !IsPinned(c) && OnGrid(ratio)
    requires r == ResizableRatio(c, ratio, oldSum, oldSum, newWidth)
    ensures r == ratio
  {
    SameWidthScale(ratio, oldSum);
  }

  /** At an unchanged width an unpinned auto-resizable column keeps its rounded ratio. */
  lemma RebalancedResizableAtSameWidth(cols: seq<Column>, props: TableProperties, c: Column)
    requires CanResize(cols, props, props.tableWidth) && props.tableWidth != 0.0
    requires RatiosOnGrid(cols, props)
    requires TargetSum(cols, props, props.tableWidth) == OldSum(cols, props)
    requires c in ResizableColumns(cols) && !IsPinned(c)
    ensures Rebalanced(cols, props, props.tableWidth).columnRatios[c.id] == props.columnRatios[c.id]
  {
    RebalancedResizable(cols, props, props.tableWidth, c);
    UnpinnedShareAtSameSum(c, props.columnRatios[c.id], OldSum(cols, props), props.tableWidth,
                           Rebalanced(cols, props, props.tableWidth).columnRatios[c.id]);
  }

  /** At an unchanged width a fixed column keeps its rounded ratio. */
  lemma RebalancedFixedAtSameWidth(cols: seq<Column>, props: TableProperties, c: Column)
    requires CanResize(cols, props, props.tableWidth) && props.tableWidth != 0.0
    requires RatiosOnGrid(cols, props)
    requires c in FixedColumns(cols)
    ensures Rebalanced(cols, props, props.tableWidth).columnRatios[c.id] == props.columnRatios[c.id]
  {
    RebalancedFixed(cols, props, props.tableWidth, c);
    FixedRatioAtSameWidth(props.columnRatios[c.id], props.tableWidth);
  }

  /**
   * Rebalancing at an unchanged width changes nothing, provided the stored
   * ratios are already rounded, the fixed and auto-resizable ones sum to
   * exactly 100 and no auto-resizable column is at its minimum.
   */
  lemma RebalancedAtSameWidthIsIdentity(cols: seq<Column>, props: TableProperties)
    requires CanResize(cols, props, props.tableWidth) && props.tableWidth != 0.0
    requires RatiosOnGrid(cols, props)
    requires SumRatios(FixedColumns(cols), props.columnRatios) + OldSum(cols, props) == 100.0
    requires forall c | c in ResizableColumns(cols) :: !IsPinned(c)
    ensures Rebalanced(cols, props, props.tableWidth) == props
  {
    var m, w := props.columnRatios, props.tableWidth;
    var r := Rebalanced(cols, props, w).columnRatios;
    SameWidthTarget(cols, props);
    forall k | k in m ensures r[k] == m[k] {
      if k in Ids(FixedColumns(cols)) {
        IdsMembership(FixedColumns(cols), k);
        var c :| c in FixedColumns(cols) && c.id == k;
        RebalancedFixedAtSameWidth(cols, props, c);
      } else if k in Ids(ResizableColumns(cols)) {
        IdsMembership(ResizableColumns(cols), k);
        var c :| c in ResizableColumns(cols) && c.id == k;
        RebalancedResizableAtSameWidth(cols, props, c);
      } else {
        RebalancedLeavesOthers(cols, props, w, k);
      }
    }
  }

  // ---------------------------------------------------------------------------
  // Reading and writing the stored record
  // ---------------------------------------------------------------------------

  /** The storage key of a table. */
  function KeyOf(table: Table): string {
    StorageKey(table.id, table.path)
  }

  /** The width the table has now. */
  function CurrentWidth(table: Table): real
    reads table
  {
    TableWidth(table.containerWidth, table.headers)
  }

  /** What capturing from the current widths would store. */
  function Captured(table: Table): TableProperties
    reads table
    requires CanCapture(table.headers, CurrentWidth(table))
  {
    TableProperties(CapturedRatios(table.headers, CurrentWidth(table)), CurrentWidth(table))
  }

  /** The record `getTableProperties` returns: the stored one, or else a fresh capture. */
  function StoredOrCaptured(table: Table, storage: LocalStorage): TableProperties
    reads table, storage
    requires CanCapture(table.headers, CurrentWidth(table))
  {
    if KeyOf(table) in storage.items then storage.items[KeyOf(table)] else Captured(table)
  }

  /** `saveTableProperties`: writes the record under the table's key. */
  method SaveTableProperties(table: Table, storage: LocalStorage, props: TableProperties)
    modifies storage
    ensures storage.items == old(storage.items)[KeyOf(table) := props]
  {
    storage.items := storage.items[KeyOf(table) := props];
  }

  /** `calculateTablePropertiesFromCurrentWidths`: captures the ratios at the current width and stores them. */
  method CaptureFromCurrentWidths(table: Table, storage: LocalStorage)
    requires CanCapture(table.headers, CurrentWidth(table))
    modifies storage
    ensures storage.items == old(storage.items)[KeyOf(table) := Captured(table)]
  {
    var tableWidth := TableWidth(table.containerWidth, table.headers);
    var columnRatios := CaptureRatios(table.headers, tableWidth);
    SaveTableProperties(table, storage, TableProperties(columnRatios, tableWidth));
  }

  /** `getTableProperties`: the stored record, captured and stored first when there is none. */
  method GetTableProperties(table: Table, storage: LocalStorage) returns (props: TableProperties)
    requires CanCapture(table.headers, CurrentWidth(table))
    modifies storage
    ensures props == old(StoredOrCaptured(table, storage))
    ensures storage.items == old(storage.items)[KeyOf(table) := props]
  {
    if KeyOf(table) !in storage.items {
      CaptureFromCurrentWidths(table, storage);
    }
    props := storage.items[KeyOf(table)];
  }

  /** `setColumnWidths`, less the deferred style writes: stores the record. */
  method SetColumnWidths(table: Table, storage: LocalStorage, props: TableProperties)
    modifies storage
    ensures storage.items == old(storage.items)[KeyOf(table) := props]
  {
    SaveTableProperties(table, storage, props);
  }

  lemma OverwriteTwice(items: map<string, TableProperties>, key: string, first: TableProperties, second: TableProperties)
    ensures items[key := first][key := second] == items[key := second]
  {
  }

  /** `resizeTable`: rebalances the stored ratios to the current width and stores the result. */
  method ResizeTable(table: Table, storage: LocalStorage)
    requires CanCapture(table.headers, CurrentWidth(table))
    requires CanResize(table.headers, StoredOrCaptured(table, storage), CurrentWidth(table))
    modifies storage
    ensures storage.items == old(storage.items)[KeyOf(table) :=
              Rebalanced(table.headers, old(StoredOrCaptured(table, storage)), CurrentWidth(table))]
  {
    var headers, newTableWidth := table.headers, TableWidth(table.containerWidth, table.headers);
    ghost var stored := StoredOrCaptured(table, storage);
    assert CanResize(headers, stored, newTableWidth);
    ghost var before, key := storage.items, KeyOf(table);
    var props := GetTableProperties(table, storage);
    assert props == stored;
    var rebalanced := RecalculateForResize(headers, props, newTableWidth);
    SetColumnWidths(table, storage, rebalanced);
    OverwriteTwice(before, key, props, rebalanced);
  }
}
