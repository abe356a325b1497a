/**
 * Dragging a resize handle: which pair of neighbouring header columns a drag
 * moves, the rule that accepts or rejects one mouse move, and the state the
 * drag keeps between the mouse-down, mouse-move and mouse-up events. Also the
 * set-up that runs once per table: reconcile the stored ratios with the
 * current width and append the resize handles.
 */
module Drag {
  import opened Results
  import opened Columns
  import opened TableStore
  import opened Resizable

  // ---------------------------------------------------------------------------
  // Choosing the two columns a drag moves
  // ---------------------------------------------------------------------------

  /**
   * Header `i` is the first visible one (`getVisibleColumns(table)[0]`). The
   * source compares elements; header positions stand for the elements here.
   */
  predicate IsFirstVisible(cols: seq<Column>, i: nat)
    requires i < |cols|
  {
    cols[i].visible && forall j | 0 <= j < i :: !cols[j].visible
  }

  /** Header `i` is the last visible one. */
  predicate IsLastVisible(cols: seq<Column>, i: nat)
    requires i < |cols|
  {
    cols[i].visible && forall j | i < j < |cols| :: !cols[j].visible
  }

  /** `data-manual-resizable` is exactly `'false'`, or `data-shown` is exactly `'false'`. */
  predicate Unmovable(c: Column) {
    IsFalse(c.manualResizable) || IsFalse(c.shown)
  }

  /**
   * `isUnfitResizeCurrentColumn`: unmovable, and not the first visible header.
   * An unfit header with a visible one at or before it is not the first header,
   * and a visible one comes before it, so the left walk can always step left.
   */
  predicate IsUnfitCurrent(cols: seq<Column>, i: nat)
    requires i < |cols|
    ensures IsUnfitCurrent(cols, i) && VisibleUpTo(cols, i) ==> i > 0 && VisibleUpTo(cols, i - 1)
  {
    Unmovable(cols[i]) && !IsFirstVisible(cols, i)
  }

  /**
   * `isUnfitResizeNextColumn`: unmovable, and not the last visible header.
   * A visible unfit header always has a visible header after it, so only a
   * hidden unfit header can be the last header.
   */
  predicate IsUnfitNext(cols: seq<Column>, i: nat)
    requires i < |cols|
    ensures IsUnfitNext(cols, i) && cols[i].visible ==> exists j | i < j < |cols| :: cols[j].visible
  {
    Unmovable(cols[i]) && !IsLastVisible(cols, i)
  }

  /** Some header at or before `i` is visible. */
  predicate VisibleUpTo(cols: seq<Column>, i: nat)
    requires i < |cols|
  {
    exists j | 0 <= j <= i :: cols[j].visible
  }

  /**
   * The left walk of the mouse-down handler: from header `i`, step to the
   * previous header while the current one is unfit. With a visible header at
   * or before `i` it never tries to step left of the first header.
   */
  function WalkLeft(cols: seq<Column>, i: nat): (r: nat)
    requires i < |cols| && VisibleUpTo(cols, i)
    ensures r <= i
    decreases i
  {
    if IsUnfitCurrent(cols, i) then WalkLeft(cols, i - 1)
    else i
  }

  /**
   * The left walk stops at the nearest header at or before `i` that is fit:
   * movable, or the first visible header. Every header it passed is unfit.
   */
  lemma {:induction false} WalkLeftStops(cols: seq<Column>, i: nat)
    requires i < |cols| && VisibleUpTo(cols, i)
    ensures !IsUnfitCurrent(cols, WalkLeft(cols, i))
    ensures !Unmovable(cols[WalkLeft(cols, i)]) || IsFirstVisible(cols, WalkLeft(cols, i))
    ensures forall j | WalkLeft(cols, i) < j <= i :: IsUnfitCurrent(cols, j)
    decreases i
  {
    if IsUnfitCurrent(cols, i) {
      WalkLeftStops(cols, i - 1);
    }
  }

  /**
   * One pass through the body of the right walk as written: step to the next
   * header when there is one, otherwise stay where it is.
   */
  function RightStepAsWritten(cols: seq<Column>, j: nat): (r: nat)
    requires j < |cols|
    ensures r < |cols| && (r == j + 1 || (r == j && j == |cols| - 1))
  {
    if j + 1 < |cols| then j + 1 else j
  }

  /**
   * Three headers: A and B shown, C hidden by the menu. The handle of B is
   * pressed. The left walk keeps B; the right walk starts at C, which is unfit
   * (hidden, and not the last visible header), and its body leaves it at C, so
   * the loop as written never ends.
   */
  lemma RightWalkAsWrittenNeverEnds()
    ensures var cols := [
              Column("a", 50.0, 100, Text("true"), Absent, Text("true"), true, 1),
              Column("b", 50.0, 100, Text("true"), Absent, Text("true"), true, 1),
              Column("c", 50.0, 0, Text("true"), Absent, Text("false"), false, 0)];
            && VisibleUpTo(cols, 1) && WalkLeft(cols, 1) == 1
            && IsUnfitNext(cols, 2) && RightStepAsWritten(cols, 2) == 2
  {
    var cols := [
      Column("a", 50.0, 100, Text("true"), Absent, Text("true"), true, 1),
      Column("b", 50.0, 100, Text("true"), Absent, Text("true"), true, 1),
      Column("c", 50.0, 0, Text("true"), Absent, Text("false"), false, 0)];
    assert cols[1].visible;
    assert !IsFirstVisible(cols, 1) by {
      assert cols[0].visible;
    }
    assert !IsLastVisible(cols, 1) || !Unmovable(cols[1]);
  }

  /**
   * The right walk as evidently intended: from header `j`, the first header
   * that is not unfit for the next column, or `None` when the headers run out
   * first, in which case no drag starts.
   */
  function WalkRight(cols: seq<Column>, j: nat): (r: Option<nat>)
    ensures r.Some? ==> j <= r.value < |cols| && !IsUnfitNext(cols, r.value)
    decreases |cols| - j
  {
    if j >= |cols| then None
    else if IsUnfitNext(cols, j) then WalkRight(cols, j + 1)
    else Some(j)
  }

  /**
   * The corrected walk passes only unfit headers, and gives up exactly when
   * every header from `j` on is unfit.
   */
  lemma {:induction false} WalkRightStops(cols: seq<Column>, j: nat)
    ensures WalkRight(cols, j).Some? ==> forall k | j <= k < WalkRight(cols, j).value :: IsUnfitNext(cols, k)
    ensures WalkRight(cols, j).None? <==> forall k | j <= k < |cols| :: IsUnfitNext(cols, k)
    decreases |cols| - j
  {
    if j < |cols| && IsUnfitNext(cols, j) {
      WalkRightStops(cols, j + 1);
    }
  }

  /** With the last visible header still ahead, the corrected walk stops no later than it. */
  lemma {:induction false} WalkRightReachesLastVisible(cols: seq<Column>, j: nat, last: nat)
    requires j <= last < |cols| && IsLastVisible(cols, last)
    ensures WalkRight(cols, j).Some? && WalkRight(cols, j).value <= last
    decreases last - j
  {
    if j < last && IsUnfitNext(cols, j) {
      WalkRightReachesLastVisible(cols, j + 1, last);
    }
  }

  /**
   * Where the corrected walk finds a header, the loop as written stops at the
   * same header: each pass before it steps one header to the right.
   */
  lemma AsWrittenAgreesWhenFound(cols: seq<Column>, j: nat)
    requires WalkRight(cols, j).Some?
    ensures forall k | j <= k < WalkRight(cols, j).value :: IsUnfitNext(cols, k) && RightStepAsWritten(cols, k) == k + 1
    ensures !IsUnfitNext(cols, WalkRight(cols, j).value)
  {
    WalkRightStops(cols, j);
  }

  // ---------------------------------------------------------------------------
  // Accepting a move
  // ---------------------------------------------------------------------------

  /**
   * The `mousemove` rule: the pair of new widths when the move is accepted.
   * Both must stay strictly above their minimum widths and neither column may
   * be marked `data-manual-resizable="false"`.
   */
  function MoveOutcome(current: Column, next: Column, currentWidth: real, nextWidth: real, deltaX: real): (r: Option<(real, real)>)
    ensures r.Some? <==> currentWidth + deltaX > current.minWidth && nextWidth - deltaX > next.minWidth
                         && !IsFalse(current.manualResizable) && !IsFalse(next.manualResizable)
    ensures r.Some? ==> r.value.0 - currentWidth == deltaX && r.value.0 + r.value.1 == currentWidth + nextWidth
  {
    var newCurrent, newNext := currentWidth + deltaX, nextWidth - deltaX;
    if newCurrent > current.minWidth && newNext > next.minWidth
       && !IsFalse(current.manualResizable) && !IsFalse(next.manualResizable)
    then Some((newCurrent, newNext))
    else None
  }

  // ---------------------------------------------------------------------------
  // The drag session
  // ---------------------------------------------------------------------------

  /**
   * The variables the handlers of one table share: where the drag started, the
   * two columns it moves (as header positions) with their starting widths,
   * and whether the `mousemove` handler is registered.
   */
  class DragSession {
    var startX: real
    var current: nat
    var currentWidth: real
    var next: nat
    var nextWidth: real
    var listening: bool

    constructor ()
      ensures !listening
    {
      startX, current, currentWidth, next, nextWidth := 0.0, 0, 0.0, 0, 0.0;
      listening := false;
    }

    /**
     * `mousedown` on the handle of header `target`: walks left to the column
     * to grow, walks right to the column to shrink, records both widths and
     * the pointer position, and registers the move handler. When the right
     * walk finds no column, no drag starts.
     */
    method MouseDown(cols: seq<Column>, target: nat, clientX: real)
      requires target + 1 < |cols| && cols[target].visible
      modifies this
      ensures VisibleUpTo(cols, target)
      ensures WalkRight(cols, WalkLeft(cols, target) + 1).None? ==> unchanged(this)
      ensures WalkRight(cols, WalkLeft(cols, target) + 1).Some? ==>
                && listening && startX == clientX
                && current == WalkLeft(cols, target) && currentWidth == cols[current].clientWidth as real
                && next == WalkRight(cols, current + 1).value && nextWidth == cols[next].clientWidth as real
    {
      assert VisibleUpTo(cols, target) by {
        assert 0 <= target <= target && cols[target].visible;
      }
      var i: nat := target;
      while IsUnfitCurrent(cols, i)
        invariant i <= target && VisibleUpTo(cols, i)
        invariant WalkLeft(cols, i) == WalkLeft(cols, target)
        invariant unchanged(this)
        decreases i
      {
        i := i - 1;
      }
      assert WalkLeft(cols, i) == i;
      var j := i + 1;
      while j < |cols| && IsUnfitNext(cols, j)
        invariant i + 1 <= j <= |cols|
        invariant WalkRight(cols, j) == WalkRight(cols, i + 1)
        invariant unchanged(this)
        decreases |cols| - j
      {
        j := j + 1;
      }
      if j < |cols| {
        assert WalkRight(cols, j) == Some(j);
        startX, current, currentWidth := clientX, i, cols[i].clientWidth as real;
        next, nextWidth := j, cols[j].clientWidth as real;
        listening := true;
      } else {
        assert WalkRight(cols, j) == None;
      }
    }

    /**
     * `mousemove`: the widths the two columns would be given, or `None` when
     * the move is rejected or no drag is in progress. The session is left as
     * it is; the style writes are not modelled.
     */
    method MouseMove(cols: seq<Column>, clientX: real) returns (r: Option<(real, real)>)
      requires listening ==> current < |cols| && next < |cols|
      ensures r.Some? <==> listening
                           && currentWidth + (clientX - startX) > cols[current].minWidth
                           && nextWidth - (clientX - startX) > cols[next].minWidth
                           && !IsFalse(cols[current].manualResizable) && !IsFalse(cols[next].manualResizable)
      ensures r.Some? ==> r.value.0 - currentWidth == clientX - startX
                          && r.value.0 + r.value.1 == currentWidth + nextWidth
    {
      if !listening {
        return None;
      }
      var deltaX := clientX - startX;
      r := MoveOutcome(cols[current], cols[next], currentWidth, nextWidth, deltaX);
    }

    /** `mouseup`: stores the ratios captured from the current widths and unregisters the move handler. */
    method MouseUp(table: Table, storage: LocalStorage)
      requires CanCapture(table.headers, CurrentWidth(table))
      modifies this, storage
      ensures !listening && startX == old(startX) && current == old(current) && next == old(next)
      ensures currentWidth == old(currentWidth) && nextWidth == old(nextWidth)
      ensures storage.items == old(storage.items)[KeyOf(table) := Captured(table)]
    {
      CaptureFromCurrentWidths(table, storage);
      listening := false;
    }
  }

  // ---------------------------------------------------------------------------
  // Set-up
  // ---------------------------------------------------------------------------

  /** The headers after one resize handle is appended to every header but the last. */
  function WithHandles(cols: seq<Column>): (r: seq<Column>)
    ensures |r| == |cols|
    ensures forall i | 0 <= i < |r| ::
              r[i] == cols[i].(handles := if i < |cols| - 1 then cols[i].handles + 1 else cols[i].handles)
  {
    if |cols| <= 1 then cols
    else [cols[0].(handles := cols[0].handles + 1)] + WithHandles(cols[1..])
  }

  /** On headers without handles, exactly the headers other than the last get one. */
  lemma HandlesOnAllButLast(cols: seq<Column>)
    requires forall c | c in cols :: c.handles == 0
    ensures forall i | 0 <= i < |cols| :: WithHandles(cols)[i].handles == 1 <==> i < |cols| - 1
    ensures forall i | 0 <= i < |cols| :: WithHandles(cols)[i].handles <= 1
  {
    forall i | 0 <= i < |cols| ensures cols[i].handles == 0 {
      assert cols[i] in cols;
    }
  }

  /** `createResizeHandlers`: appends a handle to every header except the last. */
  method CreateResizeHandlers(table: Table)
    modifies table
    ensures table.headers == WithHandles(old(table.headers))
    ensures table.containerWidth == old(table.containerWidth) && table.body == old(table.body)
    ensures table.disabled == old(table.disabled)
  {
    var columns := table.headers;
    for index := 0 to |columns|
      invariant |table.headers| == |columns|
      invariant forall i | 0 <= i < index :: table.headers[i] == WithHandles(columns)[i]
      invariant forall i | index <= i < |columns| :: table.headers[i] == columns[i]
      invariant table.containerWidth == old(table.containerWidth) && table.body == old(table.body)
      invariant table.disabled == old(table.disabled)
    {
      if index < |columns| - 1 {
        table.headers := table.headers[index := table.headers[index].(handles := table.headers[index].handles + 1)];
      }
    }
  }

  /**
   * `initResizableTable`: reads (or captures) the stored record; when the
   * table width changed since it was stored, rebalances and stores the result,
   * otherwise stores it back; then appends the handles and sets up a drag
   * session with no drag in progress.
   */
  method InitResizableTable(table: Table, storage: LocalStorage) returns (session: DragSession)
    requires CanCapture(table.headers, CurrentWidth(table))
    requires var stored := StoredOrCaptured(table, storage);
             CurrentWidth(table) != stored.tableWidth ==> CanResize(table.headers, stored, CurrentWidth(table))
    modifies table, storage
    ensures fresh(session) && !session.listening
    ensures table.headers == WithHandles(old(table.headers))
    ensures table.body == old(table.body) && table.disabled == old(table.disabled)
    ensures table.containerWidth == old(table.containerWidth)
    ensures var stored, width := old(StoredOrCaptured(table, storage)), old(CurrentWidth(table));
            storage.items == old(storage.items)[KeyOf(table) :=
              if width != stored.tableWidth then Rebalanced(old(table.headers), stored, width) else stored]
  {
    ghost var before, key := storage.items, KeyOf(table);
    var props := GetTableProperties(table, storage);
    var resized := TableWidth(table.containerWidth, table.headers) != props.tableWidth;
    if resized {
      ResizeTable(table, storage);
      OverwriteTwice(before, key, props, storage.items[key]);
    } else {
      SetColumnWidths(table, storage, props);
      OverwriteTwice(before, key, props, props);
    }
    CreateResizeHandlers(table);
    session := new DragSession();
  }
}
