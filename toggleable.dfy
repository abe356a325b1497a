/**
 * Showing and hiding columns from the header menu: the attributes the cells
 * carry, which columns count as hidden, the checkbox locking rule, and how
 * the stored ratios are reconciled when a column is shown or hidden.
 */
module Toggle {
  import opened Results
  import opened Ratios
  import opened Columns
  import opened TableStore
  import opened Resizable

  // ---------------------------------------------------------------------------
  // Cell attributes
  // ---------------------------------------------------------------------------

  // Euclidean remainder facts for `index % columnCount`.
  lemma MulAtLeast(d: int, n: int)
    requires d >= 1 && n > 0
    ensures d * n >= n
  {
    assert d * n == n + (d - 1) * n;
  }

  lemma ModUnique(a: int, n: int, q: int, r: int)
    requires n > 0 && 0 <= r < n && a == q * n + r
    ensures a % n == r
  {
    var q', r' := a / n, a % n;
    assert a == q' * n + r';
    var d := q - q';
    assert q * n - q' * n == d * n;
    if d >= 1 {
      MulAtLeast(d, n);
    } else if d <= -1 {
      assert (-d) * n == -(d * n);
      MulAtLeast(-d, n);
    }
  }

  lemma ModShift(k: nat, n: nat)
    requires n > 0
    ensures (n + k) % n == k % n
  {
    ModUnique(n + k, n, k / n + 1, k % n);
  }

  lemma ModSmall(i: nat, n: nat)
    requires i < n
    ensures i % n == i
  {
    ModUnique(i, n, 0, i);
  }

  /**
   * The id `setDataAttributesToCells` gives the cell at `index` among all
   * cells: the id of header `index % columnCount`. With no header the lookup
   * is `undefined`, which `setAttribute` writes as the text "undefined".
   */
  function IdAt(ids: seq<string>, index: nat): (id: string)
    ensures |ids| > 0 ==> id in ids
    ensures index < |ids| ==> id == ids[index]
    ensures |ids| == 0 ==> id == "undefined"
  {
    if |ids| == 0 then "undefined"
    else if index < |ids| then ModSmall(index, |ids|); ids[index % |ids|]
    else ids[index % |ids|]
  }

  /**
   * `setDataAttributesToCells`: numbers the cells (the header row first, then
   * the other cells) and gives each the id of its column and `data-shown="true"`.
   * Headers keep their own id; body cell `k` gets the id of header `k % n`.
   */
  method SetDataAttributesToCells(table: Table)
    modifies table
    ensures |table.headers| == |old(table.headers)| && |table.body| == |old(table.body)|
    ensures forall i | 0 <= i < |table.headers| :: table.headers[i] == old(table.headers[i]).(shown := Text("true"))
    ensures forall k | 0 <= k < |table.body| ::
              table.body[k] == old(table.body[k]).(id := IdAt(Ids(old(table.headers)), k), shown := Text("true"))
    ensures table.containerWidth == old(table.containerWidth) && table.disabled == old(table.disabled)
  {
    var columnIds := Ids(table.headers);
    var columnCount := |table.headers|;
    var cellCount := columnCount + |table.body|;
    for index := 0 to cellCount
      invariant |table.headers| == columnCount && |table.body| == cellCount - columnCount
      invariant forall i | 0 <= i < columnCount ::
                  table.headers[i] == if i < index then old(table.headers[i]).(shown := Text("true")) else old(table.headers[i])
      invariant forall k | 0 <= k < |table.body| ::
                  table.body[k] == if columnCount + k < index
                                   then old(table.body[k]).(id := IdAt(columnIds, k), shown := Text("true"))
                                   else old(table.body[k])
      invariant table.containerWidth == old(table.containerWidth) && table.disabled == old(table.disabled)
    {
      var columnId := IdAt(columnIds, index);
      if index < columnCount {
        ModSmall(index, columnCount);
        table.headers := table.headers[index := table.headers[index].(id := columnId, shown := Text("true"))];
      } else {
        var k := index - columnCount;
        if columnCount > 0 {
          ModShift(k, columnCount);
        }
        table.body := table.body[k := table.body[k].(id := columnId, shown := Text("true"))];
      }
    }
  }

  /** A cell of the body sits in the column whose header is at its position modulo the header count. */
  lemma BodyCellColumn(ids: seq<string>, k: nat)
    requires |ids| > 0
    ensures IdAt(ids, k) == ids[k % |ids|] && IdAt(ids, |ids| + k) == IdAt(ids, k)
  {
    ModShift(k, |ids|);
  }

  // ---------------------------------------------------------------------------
  // Hidden columns
  // ---------------------------------------------------------------------------

  /** The ids of the headers whose stored ratio is exactly 0, in header order. */
  function HiddenIds(cols: seq<Column>, ratios: map<string, real>): (r: seq<string>)
    ensures |r| <= |cols|
    ensures forall k :: k in r <==> k in Ids(cols) && k in ratios && ratios[k] == 0.0
  {
    if cols == [] then []
    else
      var prefix, c := cols[..|cols| - 1], cols[|cols| - 1];
      assert Ids(cols) == Ids(prefix) + [c.id];
      if c.id in ratios && ratios[c.id] == 0.0 then HiddenIds(prefix, ratios) + [c.id] else HiddenIds(prefix, ratios)
  }

  /** The ids are collected in header order: one more header adds its id at the end, or nothing. */
  lemma HiddenIdsAppend(cols: seq<Column>, c: Column, ratios: map<string, real>)
    ensures HiddenIds(cols + [c], ratios)
            == HiddenIds(cols, ratios) + if c.id in ratios && ratios[c.id] == 0.0 then [c.id] else []
  {
    assert (cols + [c])[..|cols|] == cols;
  }

  /** `getHiddenColumnIds`: reads (or captures) the stored record and collects the ids with ratio 0. */
  method GetHiddenColumnIds(table: Table, storage: LocalStorage) returns (hiddenIds: seq<string>)
    requires CanCapture(table.headers, CurrentWidth(table))
    modifies storage
    ensures hiddenIds == HiddenIds(table.headers, old(StoredOrCaptured(table, storage)).columnRatios)
    ensures storage.items == old(storage.items)[KeyOf(table) := old(StoredOrCaptured(table, storage))]
  {
    var columns := table.headers;
    var props := GetTableProperties(table, storage);
    var columnRatios := props.columnRatios;
    hiddenIds := [];
    for i := 0 to |columns|
      invariant hiddenIds == HiddenIds(columns[..i], columnRatios)
    {
      assert columns[..i + 1][..i] == columns[..i];
      var columnId := columns[i].id;
      if columnId in columnRatios && columnRatios[columnId] == 0.0 {
        hiddenIds := hiddenIds + [columnId];
      }
    }
    assert columns[..|columns|] == columns;
  }

  function MarkHiddenColumn(c: Column, hidden: seq<string>): Column {
    if c.id in hidden then c.(shown := Text("false")) else c
  }

  function MarkHiddenCell(c: Cell, hidden: seq<string>): Cell {
    if c.id in hidden then c.(shown := Text("false")) else c
  }

  /** Gives `data-shown="false"` to every cell, header or not, whose id is listed. */
  method MarkHiddenCells(table: Table, hidden: seq<string>)
    modifies table
    ensures |table.headers| == |old(table.headers)| && |table.body| == |old(table.body)|
    ensures forall i | 0 <= i < |table.headers| :: table.headers[i] == MarkHiddenColumn(old(table.headers[i]), hidden)
    ensures forall k | 0 <= k < |table.body| :: table.body[k] == MarkHiddenCell(old(table.body[k]), hidden)
    ensures table.containerWidth == old(table.containerWidth) && table.disabled == old(table.disabled)
  {
    var headers, body := table.headers, table.body;
    for i := 0 to |headers|
      invariant |table.headers| == |headers| && table.body == body
      invariant forall j | 0 <= j < |headers| :: table.headers[j] == if j < i then MarkHiddenColumn(headers[j], hidden) else headers[j]
      invariant table.containerWidth == old(table.containerWidth) && table.disabled == old(table.disabled)
    {
      table.headers := table.headers[i := MarkHiddenColumn(headers[i], hidden)];
    }
    for k := 0 to |body|
      invariant |table.body| == |body| && |table.headers| == |headers|
      invariant forall j | 0 <= j < |headers| :: table.headers[j] == MarkHiddenColumn(headers[j], hidden)
      invariant forall j | 0 <= j < |body| :: table.body[j] == if j < k then MarkHiddenCell(body[j], hidden) else body[j]
      invariant table.containerWidth == old(table.containerWidth) && table.disabled == old(table.disabled)
    {
      table.body := table.body[k := MarkHiddenCell(body[k], hidden)];
    }
  }

  /** `setDataShownToHiddenCells`: every cell of a column whose stored ratio is 0 gets `data-shown="false"`. */
  method SetDataShownToHiddenCells(table: Table, storage: LocalStorage)
    requires CanCapture(table.headers, CurrentWidth(table))
    modifies table, storage
    ensures var hidden := HiddenIds(old(table.headers), old(StoredOrCaptured(table, storage)).columnRatios);
            && |table.headers| == |old(table.headers)| && |table.body| == |old(table.body)|
            && (forall i | 0 <= i < |table.headers| :: table.headers[i] == MarkHiddenColumn(old(table.headers[i]), hidden))
            && (forall k | 0 <= k < |table.body| :: table.body[k] == MarkHiddenCell(old(table.body[k]), hidden))
    ensures table.containerWidth == old(table.containerWidth) && table.disabled == old(table.disabled)
    ensures storage.items == old(storage.items)[KeyOf(table) := old(StoredOrCaptured(table, storage))]
  {
    var hidden := GetHiddenColumnIds(table, storage);
    MarkHiddenCells(table, hidden);
  }

  // ---------------------------------------------------------------------------
  // Showing and hiding the cells of a column
  // ---------------------------------------------------------------------------

  function ShownText(show: bool): Attr {
    if show then Text("true") else Text("false")
  }

  /** A header after its column is shown (`show`) or hidden: the `hidden` class and `data-shown` follow. */
  function MarkColumn(c: Column, id: string, show: bool): Column {
    if c.id == id then c.(visible := show, shown := ShownText(show)) else c
  }

  function MarkCell(c: Cell, id: string, show: bool): Cell {
    if c.id == id then c.(visible := show, shown := ShownText(show)) else c
  }

  /** Marking the cells of one column changes no header's id. */
  lemma MarkKeepsIds(cols: seq<Column>, marked: seq<Column>, id: string, show: bool)
    requires |marked| == |cols| && forall i | 0 <= i < |cols| :: marked[i] == MarkColumn(cols[i], id, show)
    ensures Ids(marked) == Ids(cols)
    ensures DistinctIds(cols) ==> DistinctIds(marked)
  {
  }

  /** The cell updates shared by `showColumn` and `hideColumn`, over every cell carrying the id. */
  method MarkCells(table: Table, id: string, show: bool)
    modifies table
    ensures |table.headers| == |old(table.headers)| && |table.body| == |old(table.body)|
    ensures forall i | 0 <= i < |table.headers| :: table.headers[i] == MarkColumn(old(table.headers[i]), id, show)
    ensures forall k | 0 <= k < |table.body| :: table.body[k] == MarkCell(old(table.body[k]), id, show)
    ensures table.containerWidth == old(table.containerWidth) && table.disabled == old(table.disabled)
  {
    var headers, body := table.headers, table.body;
    for i := 0 to |headers|
      invariant |table.headers| == |headers| && table.body == body
      invariant forall j | 0 <= j < |headers| :: table.headers[j] == if j < i then MarkColumn(headers[j], id, show) else headers[j]
      invariant table.containerWidth == old(table.containerWidth) && table.disabled == old(table.disabled)
    {
      table.headers := table.headers[i := MarkColumn(headers[i], id, show)];
    }
    for k := 0 to |body|
      invariant |table.body| == |body| && |table.headers| == |headers|
      invariant forall j | 0 <= j < |headers| :: table.headers[j] == MarkColumn(headers[j], id, show)
      invariant forall j | 0 <= j < |body| :: table.body[j] == if j < k then MarkCell(body[j], id, show) else body[j]
      invariant table.containerWidth == old(table.containerWidth) && table.disabled == old(table.disabled)
    {
      table.body := table.body[k := MarkCell(body[k], id, show)];
    }
  }

  /** The checkbox states after the checkbox of every id in `ids` is set to `locked`. */
  function SetDisabled(disabled: map<string, bool>, ids: seq<string>, locked: bool): (r: map<string, bool>)
    ensures forall k :: k in r <==> k in disabled || k in ids
    ensures forall k | k in ids :: r[k] == locked
    ensures forall k | k in disabled && k !in ids :: r[k] == disabled[k]
  {
    if ids == [] then disabled
    else SetDisabled(disabled, ids[..|ids| - 1], locked)[ids[|ids| - 1] := locked]
  }

  /**
   * The checkbox states `lockOrUnlockCheckboxes` leaves for the given headers:
   * with exactly one visible auto-resizable column its checkbox is disabled,
   * with more all of theirs are enabled, and no other checkbox changes.
   */
  function Locked(headers: seq<Column>, disabled: map<string, bool>): (r: map<string, bool>)
    ensures var open := Filter(VisibleColumns(headers), AutoResizable);
            && (forall k :: k in r <==> k in disabled || k in Ids(open))
            && (forall k | k in Ids(open) :: r[k] == (|open| == 1))
            && (forall k | k in disabled && k !in Ids(open) :: r[k] == disabled[k])
  {
    var open := Filter(VisibleColumns(headers), AutoResizable);
    SetDisabled(disabled, Ids(open), |open| == 1)
  }

  /** `lockOrUnlockCheckboxes`: the loop over the visible auto-resizable columns. */
  method LockOrUnlockCheckboxes(table: Table)
    modifies table
    ensures table.disabled == Locked(old(table.headers), old(table.disabled))
    ensures table.headers == old(table.headers) && table.body == old(table.body)
    ensures table.containerWidth == old(table.containerWidth)
  {
    var open := Filter(VisibleColumns(table.headers), AutoResizable);
    var ids := Ids(open);
    for i := 0 to |open|
      invariant table.headers == old(table.headers) && table.body == old(table.body)
      invariant table.containerWidth == old(table.containerWidth)
      invariant table.disabled == SetDisabled(old(table.disabled), ids[..i], |open| == 1)
    {
      assert ids[..i + 1][..i] == ids[..i];
      if |open| == 1 {
        table.disabled := table.disabled[open[i].id := true];
      } else if |open| > 1 {
        table.disabled := table.disabled[open[i].id := false];
      }
    }
    assert ids[..|open|] == ids;
  }

  /** `showColumn`: shows every cell of the column, then re-applies the checkbox locking. */
  method ShowColumn(table: Table, id: string)
    modifies table
    ensures |table.headers| == |old(table.headers)| && |table.body| == |old(table.body)|
    ensures forall i | 0 <= i < |table.headers| :: table.headers[i] == MarkColumn(old(table.headers[i]), id, true)
    ensures forall k | 0 <= k < |table.body| :: table.body[k] == MarkCell(old(table.body[k]), id, true)
    ensures table.disabled == Locked(table.headers, old(table.disabled))
    ensures table.containerWidth == old(table.containerWidth)
  {
    MarkCells(table, id, true);
    LockOrUnlockCheckboxes(table);
  }

  /** `hideColumn`: hides every cell of the column, then re-applies the checkbox locking. */
  method HideColumn(table: Table, id: string)
    modifies table
    ensures |table.headers| == |old(table.headers)| && |table.body| == |old(table.body)|
    ensures forall i | 0 <= i < |table.headers| :: table.headers[i] == MarkColumn(old(table.headers[i]), id, false)
    ensures forall k | 0 <= k < |table.body| :: table.body[k] == MarkCell(old(table.body[k]), id, false)
    ensures table.disabled == Locked(table.headers, old(table.disabled))
    ensures table.containerWidth == old(table.containerWidth)
  {
    MarkCells(table, id, false);
    LockOrUnlockCheckboxes(table);
  }

  // ---------------------------------------------------------------------------
  // Reconciling the ratios after a column is shown or hidden
  // ---------------------------------------------------------------------------

  /**
   * Where the source throws or computes `NaN`/`Infinity` instead of ratios:
   * no header has the id, the stored table width is 0, or a ratio it adds to
   * is missing.
   */
  datatype ToggleError = NoSuchColumn | ZeroTableWidth | MissingRatio

  /** What the shrink loop takes off the largest ratio on each pass. */
  const ShrinkStep: real := 0.1

  /** `keys` is what `Object.keys` gives for a map with key set `ks`: each key once, in some order. */
  predicate KeyOrder(keys: seq<string>, ks: set<string>) {
    && (forall k | k in keys :: k in ks)
    && (forall k | k in ks :: k in keys)
    && (forall i, j | 0 <= i < j < |keys| :: keys[i] != keys[j])
  }

  /**
   * The position of the key the `reduce` in the shrink loop picks: one with
   * the largest ratio, and the last of those, since a tie keeps the later key.
   */
  function MaxKeyIndex(keys: seq<string>, m: map<string, real>): (i: nat)
    requires keys != [] && forall k | k in keys :: k in m
    ensures i < |keys|
    ensures forall j | 0 <= j < |keys| :: m[keys[j]] <= m[keys[i]]
    ensures forall j | i < j < |keys| :: m[keys[j]] < m[keys[i]]
  {
    if |keys| == 1 then 0
    else
      var prefix, last := keys[..|keys| - 1], |keys| - 1;
      var p := MaxKeyIndex(prefix, m);
      assert forall j | 0 <= j < last :: keys[j] == prefix[j];
      if m[keys[p]] > m[keys[last]] then p else last
  }

  /** A bound on the passes the shrink loop still makes from a running sum. */
  function ShrinkBound(sum: real): nat {
    if sum <= 100.0 then 0 else ((sum - 100.0) * 10.0).Floor + 1
  }

  /**
   * The shrink loop: while the running sum is above 100, take `ShrinkStep`
   * off the ratio of the key `MaxKeyIndex` picks, and off the running sum.
   * Gives the ratios and the running sum it ends with.
   */
  function Shrink(m: map<string, real>, keys: seq<string>, sum: real): (r: (map<string, real>, real))
    requires forall k | k in keys :: k in m
    requires sum > 100.0 ==> keys != []
    ensures r.0.Keys == m.Keys
    ensures r.1 <= 100.0
    ensures sum > 100.0 ==> r.1 > 100.0 - ShrinkStep
    ensures sum <= 100.0 ==> r == (m, sum)
    ensures forall k | k in m :: r.0[k] <= m[k]
    decreases ShrinkBound(sum)
  {
    if sum <= 100.0 then (m, sum)
    else
      var k := keys[MaxKeyIndex(keys, m)];
      Shrink(m[k := m[k] - ShrinkStep], keys, sum - ShrinkStep)
  }

  /** One pass of the shrink loop: what is left to do is the shrink from the new state, and the bound drops. */
  lemma ShrinkOnce(m: map<string, real>, keys: seq<string>, sum: real)
    requires forall k | k in keys :: k in m
    requires sum > 100.0 && keys != []
    ensures var k := keys[MaxKeyIndex(keys, m)];
            && ShrinkBound(sum - ShrinkStep) < ShrinkBound(sum)
            && Shrink(m[k := m[k] - ShrinkStep], keys, sum - ShrinkStep) == Shrink(m, keys, sum)
  {
  }

  /** Changing the ratio of one header id changes the sum over distinct headers by the difference. */
  lemma {:induction false} SumRatiosUpdate(cols: seq<Column>, m: map<string, real>, k: string, v: real)
    requires DistinctIds(cols) && AllIdsIn(cols, m) && k in Ids(cols)
    ensures AllIdsIn(cols, m[k := v])
    ensures SumRatios(cols, m[k := v]) == SumRatios(cols, m) - m[k] + v
  {
    var prefix, c := cols[..|cols| - 1], cols[|cols| - 1];
    DistinctIdsPrefix(cols);
    assert Ids(cols) == Ids(prefix) + [c.id];
    if c.id == k {
      forall d | d in prefix ensures m[k := v][d.id] == m[d.id] {
        IdsMembership(prefix, d.id);
      }
      SumRatiosAgree(prefix, m[k := v], m);
    } else {
      SumRatiosUpdate(prefix, m, k, v);
    }
  }

  /**
   * When every key is a header id and the running sum starts as the sum over
   * the headers, it stays that sum, so the headers end up summing to at most 100.
   */
  lemma {:induction false} ShrinkTracksHeaders(cols: seq<Column>, m: map<string, real>, keys: seq<string>, sum: real)
    requires DistinctIds(cols) && AllIdsIn(cols, m)
    requires forall k | k in keys :: k in m && k in Ids(cols)
    requires sum > 100.0 ==> keys != []
    requires sum == SumRatios(cols, m)
    ensures AllIdsIn(cols, Shrink(m, keys, sum).0)
    ensures SumRatios(cols, Shrink(m, keys, sum).0) == Shrink(m, keys, sum).1 <= 100.0
    decreases ShrinkBound(sum)
  {
    if sum > 100.0 {
      var k := keys[MaxKeyIndex(keys, m)];
      SumRatiosUpdate(cols, m, k, m[k] - ShrinkStep);
      ShrinkTracksHeaders(cols, m[k := m[k] - ShrinkStep], keys, sum - ShrinkStep);
    }
  }

  /** The `while (columnRatiosSum > 100)` loop of the show branch. */
  method ShrinkRatios(columnRatios: map<string, real>, keys: seq<string>, columnRatiosSum: real)
    returns (ratios: map<string, real>, sum: real)
    requires forall k | k in keys :: k in columnRatios
    requires columnRatiosSum > 100.0 ==> keys != []
    ensures (ratios, sum) == Shrink(columnRatios, keys, columnRatiosSum)
  {
    ratios, sum := columnRatios, columnRatiosSum;
    while sum > 100.0
      invariant forall k | k in keys :: k in ratios
      invariant sum > 100.0 ==> keys != []
      invariant Shrink(ratios, keys, sum) == Shrink(columnRatios, keys, columnRatiosSum)
      decreases ShrinkBound(sum)
    {
      var maxColumnId := keys[MaxKeyIndex(keys, ratios)];
      ShrinkOnce(ratios, keys, sum);
      ratios := ratios[maxColumnId := ratios[maxColumnId] - ShrinkStep];
      sum := sum - ShrinkStep;
    }
  }

  /**
   * The columns that share a hidden column's ratio: the visible headers whose
   * `data-auto-resizable` is exactly `'true'`, other than the target, in order.
   */
  function Recipients(cols: seq<Column>, id: string): (r: seq<Column>)
    ensures |r| <= |cols|
    ensures forall c :: c in r <==> c in cols && InClass(c, AutoResizable) && c.id != id
  {
    if cols == [] then []
    else
      var prefix, c := cols[..|cols| - 1], cols[|cols| - 1];
      Recipients(prefix, id) + if InClass(c, AutoResizable) && c.id != id then [c] else []
  }

  /** Appending a column whose id is new keeps the ids distinct. */
  lemma DistinctAppend(cols: seq<Column>, c: Column)
    requires DistinctIds(cols) && forall d | d in cols :: d.id != c.id
    ensures DistinctIds(cols + [c])
  {
    var longer := cols + [c];
    forall i, j | 0 <= i < j < |longer| ensures longer[i].id != longer[j].id {
      if j < |cols| {
        assert longer[i] == cols[i] && longer[j] == cols[j];
      } else {
        assert longer[i] in cols;
      }
    }
  }

  /** The recipients of distinct headers have distinct ids. */
  lemma {:induction false} RecipientsDistinctIds(cols: seq<Column>, id: string)
    requires DistinctIds(cols)
    ensures DistinctIds(Recipients(cols, id))
  {
    if cols != [] {
      var prefix, c := cols[..|cols| - 1], cols[|cols| - 1];
      DistinctIdsPrefix(cols);
      RecipientsDistinctIds(prefix, id);
      if InClass(c, AutoResizable) && c.id != id {
        var rest := Recipients(prefix, id);
        forall d | d in rest ensures d.id != c.id {
          IdsMembership(prefix, d.id);
        }
        DistinctAppend(rest, c);
      }
    }
  }

  /** The recipients of distinct headers have distinct ids, none of them the target's. */
  lemma RecipientsDistinct(cols: seq<Column>, id: string)
    requires DistinctIds(cols)
    ensures DistinctIds(Recipients(cols, id)) && id !in Ids(Recipients(cols, id))
  {
    RecipientsDistinctIds(cols, id);
    IdsMembership(Recipients(cols, id), id);
  }

  /** The ratios after each recipient has been given `share` more (the `+=` loop). */
  function Spread(recipients: seq<Column>, m: map<string, real>, share: real): (r: map<string, real>)
    requires AllIdsIn(recipients, m)
    ensures r.Keys == m.Keys
  {
    if recipients == [] then m
    else
      var prefix, c := recipients[..|recipients| - 1], recipients[|recipients| - 1];
      var before := Spread(prefix, m, share);
      before[c.id := before[c.id] + share]
  }

  /** An entry that is not a recipient's is left alone. */
  lemma {:induction false} SpreadLeavesOthers(recipients: seq<Column>, m: map<string, real>, share: real, k: string)
    requires AllIdsIn(recipients, m) && k in m && k !in Ids(recipients)
    ensures Spread(recipients, m, share)[k] == m[k]
  {
    if recipients != [] {
      var prefix := recipients[..|recipients| - 1];
      assert Ids(recipients) == Ids(prefix) + [recipients[|recipients| - 1].id];
      AllIdsInPrefix(recipients, m, |prefix|);
      SpreadLeavesOthers(prefix, m, share, k);
    }
  }

  /** With distinct ids, every recipient ends up exactly `share` above its old ratio. */
  lemma {:induction false} SpreadGivesShare(recipients: seq<Column>, m: map<string, real>, share: real)
    requires AllIdsIn(recipients, m) && DistinctIds(recipients)
    ensures forall c | c in recipients :: Spread(recipients, m, share)[c.id] == m[c.id] + share
  {
    if recipients != [] {
      var prefix, c := recipients[..|recipients| - 1], recipients[|recipients| - 1];
      DistinctIdsPrefix(recipients);
      SpreadGivesShare(prefix, m, share);
      AllIdsInPrefix(recipients, m, |prefix|);
      SpreadLeavesOthers(prefix, m, share, c.id);
      forall d | d in recipients ensures Spread(recipients, m, share)[d.id] == m[d.id] + share {
        if d != c {
          var i :| 0 <= i < |recipients| && recipients[i] == d;
          assert d in prefix by {
            assert i < |prefix| && prefix[i] == d;
          }
          IdsMembership(prefix, d.id);
        }
      }
    }
  }

  /**
   * The hide branch: each of the `n` recipients gets `target / n` more, then
   * the target gets 0. With no recipient only the target changes.
   */
  function HiddenRatios(cols: seq<Column>, m: map<string, real>, id: string): (r: Result<map<string, real>, ToggleError>)
    ensures r.Ok? ==> r.value.Keys == m.Keys + {id}
  {
    var recipients := Recipients(cols, id);
    var n := |recipients|;
    if n == 0 then Ok(m[id := 0.0])
    else if id !in m || !AllIdsIn(recipients, m) then Err(MissingRatio)
    else Ok(Spread(recipients, m, m[id] / n as real)[id := 0.0])
  }

  /**
   * The show branch: the target gets the ratio of its minimum width at the
   * stored table width; when every header has a ratio, the shrink loop then
   * runs on the sum over the headers. (A header without a ratio makes that
   * sum `NaN`, and the loop does not run.)
   */
  function ShownRatios(cols: seq<Column>, props: TableProperties, target: Column, keys: seq<string>): (r: Result<map<string, real>, ToggleError>)
    requires KeyOrder(keys, props.columnRatios.Keys + {target.id})
    ensures r.Ok? ==> r.value.Keys == props.columnRatios.Keys + {target.id}
    ensures r == Err(ZeroTableWidth) <==> props.tableWidth == 0.0
  {
    if props.tableWidth == 0.0 then Err(ZeroTableWidth)
    else
      var m := props.columnRatios[target.id := ColumnRatioFromWidth(target.minWidth, props.tableWidth)];
      if AllIdsIn(cols, m) then Ok(Shrink(m, keys, SumRatios(cols, m)).0) else Ok(m)
  }

  /**
   * A JavaScript number as far as the show branch at a stored table width of
   * 0 needs it: a finite value, or positive infinity, which absorbs any
   * finite addend.
   */
  datatype Number = Finite(value: real) | Infinity

  function Plus(a: Number, b: Number): Number {
    if a.Finite? && b.Finite? then Finite(a.value + b.value) else Infinity
  }

  function Minus(a: Number, b: real): Number {
    if a.Finite? then Finite(a.value - b) else Infinity
  }

  predicate Above100(a: Number) {
    a.Infinity? || a.value > 100.0
  }

  /**
   * `getColumnRatioFromWidth` as written, for a positive minimum width: at a
   * table width of 0 the quotient is positive infinity, which `roundTo`
   * returns unchanged.
   */
  function RatioFromWidthAsWritten(width: real, tableWidth: real): (r: Number)
    requires width > 0.0
    ensures r == Infinity <==> tableWidth == 0.0
    ensures tableWidth != 0.0 ==> Abs(r.value - ExactRatio(width, tableWidth)) <= HalfUnit
  {
    if tableWidth == 0.0 then Infinity else Finite(ColumnRatioFromWidth(width, tableWidth))
  }

  /**
   * The show branch as written, at a stored table width of 0 and a target
   * with a positive minimum width: whatever the other headers' ratios sum to,
   * the running sum is infinite, so the loop condition holds, and one pass
   * leaves both the sum and the target's ratio where they were. The shrink
   * loop never ends.
   */
  lemma ShrinkAsWrittenNeverEndsAtZeroWidth(others: real, minWidth: real)
    requires minWidth > 0.0
    ensures var ratio := RatioFromWidthAsWritten(minWidth, 0.0);
            var sum := Plus(Finite(others), ratio);
            && Above100(sum)
            && Minus(sum, ShrinkStep) == sum
            && Minus(ratio, ShrinkStep) == ratio
  {
  }

  /**
   * `recalculateTablePropertiesDueToToggleColumn` on the headers after the
   * cells were updated: the show branch when the target's `data-shown` is now
   * exactly `'true'`, the hide branch otherwise.
   */
  function Toggled(cols: seq<Column>, props: TableProperties, id: string, keys: seq<string>): (r: Result<TableProperties, ToggleError>)
    requires KeyOrder(keys, props.columnRatios.Keys + {id})
    ensures r.Ok? ==> r.value.tableWidth == props.tableWidth
    ensures r.Ok? ==> r.value.columnRatios.Keys == props.columnRatios.Keys + {id}
    ensures r == Err(NoSuchColumn) <==> id !in Ids(cols)
  {
    if id !in Ids(cols) then Err(NoSuchColumn)
    else
      var target := ColumnWithId(cols, id);
      var ratios := if IsTrue(target.shown) then ShownRatios(cols, props, target, keys) else HiddenRatios(cols, props.columnRatios, id);
      match ratios
      case Err(e) => Err(e)
      case Ok(m) => Ok(TableProperties(m, props.tableWidth))
  }

  /** The ratio a header has after the hide branch: 0 for the target, `share` more for a recipient. */
  function SharedRatio(c: Column, m: map<string, real>, id: string, share: real): real
    requires c.id in m
  {
    if c.id == id then 0.0 else if InClass(c, AutoResizable) then m[c.id] + share else m[c.id]
  }

  /** `total` is `base` with `share` added `count` times and `taken` taken off. */
  predicate SumShifted(total: real, base: real, count: nat, share: real, taken: real) {
    total == base + count as real * share - taken
  }

  lemma SumShiftedEmpty(share: real)
    ensures SumShifted(0.0, 0.0, 0, share, 0.0)
  {
  }

  lemma SumShiftedAdd(total: real, prefixTotal: real, last: real, base: real, prefixBase: real, lastBase: real,
                      count: nat, prefixCount: nat, share: real, taken: real, prefixTaken: real)
    requires total == prefixTotal + last && base == prefixBase + lastBase
    requires SumShifted(prefixTotal, prefixBase, prefixCount, share, prefixTaken)
    requires || (count == prefixCount + 1 && last == lastBase + share && taken == prefixTaken)
             || (count == prefixCount && last == 0.0 && taken == prefixTaken + lastBase)
             || (count == prefixCount && last == lastBase && taken == prefixTaken)
    ensures SumShifted(total, base, count, share, taken)
  {
    assert (prefixCount + 1) as real * share == prefixCount as real * share + share;
  }

  /** The part of the target's old ratio that the sum over `cols` loses: all of it when the target is among them. */
  function Taken(cols: seq<Column>, m: map<string, real>, id: string): real
    requires id in m
  {
    if id in Ids(cols) then m[id] else 0.0
  }

  /**
   * Over distinct headers, sharing changes the sum by `share` per recipient,
   * less the target's old ratio.
   */
  lemma {:induction false} SumAfterSharing(cols: seq<Column>, m: map<string, real>, r: map<string, real>, id: string, share: real)
    requires DistinctIds(cols) && AllIdsIn(cols, m) && AllIdsIn(cols, r) && id in m
    requires forall c | c in cols :: r[c.id] == SharedRatio(c, m, id, share)
    ensures SumShifted(SumRatios(cols, r), SumRatios(cols, m), |Recipients(cols, id)|, share, Taken(cols, m, id))
  {
    if cols == [] {
      SumShiftedEmpty(share);
    } else {
      var prefix, c := cols[..|cols| - 1], cols[|cols| - 1];
      DistinctIdsPrefix(cols);
      SumAfterSharing(prefix, m, r, id, share);
      assert c in cols;
      assert Ids(cols) == Ids(prefix) + [c.id];
      SumShiftedAdd(SumRatios(cols, r), SumRatios(prefix, r), r[c.id], SumRatios(cols, m), SumRatios(prefix, m), m[c.id],
                    |Recipients(cols, id)|, |Recipients(prefix, id)|, share, Taken(cols, m, id), Taken(prefix, m, id));
    }
  }

  lemma ShareOfWhole(total: real, n: nat)
    requires n > 0
    ensures n as real * (total / n as real) == total
  {
  }

  lemma SharingKeepsTotal(total: real, base: real, n: nat, taken: real)
    requires n > 0 && SumShifted(total, base, n, taken / n as real, taken)
    ensures total == base
  {
    ShareOfWhole(taken, n);
  }

  /** The hide branch with recipients on headers that all have a ratio: the spread ratios, then 0 for the target. */
  lemma HideResult(cols: seq<Column>, props: TableProperties, id: string, keys: seq<string>)
    requires KeyOrder(keys, props.columnRatios.Keys + {id})
    requires AllIdsIn(cols, props.columnRatios)
    requires id in Ids(cols) && !IsTrue(ColumnWithId(cols, id).shown)
    requires |Recipients(cols, id)| > 0
    ensures id in props.columnRatios && AllIdsIn(Recipients(cols, id), props.columnRatios)
    ensures Toggled(cols, props, id, keys)
            == Ok(TableProperties(Spread(Recipients(cols, id), props.columnRatios,
                                         props.columnRatios[id] / |Recipients(cols, id)| as real)[id := 0.0],
                                  props.tableWidth))
  {
    IdsMembership(cols, id);
    forall c | c in Recipients(cols, id) ensures c.id in props.columnRatios {
      assert c in cols;
    }
  }

  /** What the hide branch gives each header. */
  lemma SharedPerHeader(cols: seq<Column>, m: map<string, real>, id: string, share: real, r: map<string, real>)
    requires DistinctIds(cols) && AllIdsIn(cols, m) && AllIdsIn(Recipients(cols, id), m)
    requires r == Spread(Recipients(cols, id), m, share)[id := 0.0]
    ensures AllIdsIn(cols, r)
    ensures forall c | c in cols :: r[c.id] == SharedRatio(c, m, id, share)
  {
    var recipients := Recipients(cols, id);
    RecipientsDistinct(cols, id);
    SpreadGivesShare(recipients, m, share);
    forall c | c in cols ensures r[c.id] == SharedRatio(c, m, id, share) {
      if c.id != id && !InClass(c, AutoResizable) {
        IdsMembership(recipients, c.id);
        SpreadLeavesOthers(recipients, m, share, c.id);
      }
    }
  }

  /** Sharing the target's whole ratio among its recipients keeps the sum over the headers. */
  lemma SharedSumKept(cols: seq<Column>, m: map<string, real>, r: map<string, real>, id: string, n: nat)
    requires DistinctIds(cols) && AllIdsIn(cols, m) && AllIdsIn(cols, r) && id in m && id in Ids(cols)
    requires n == |Recipients(cols, id)| && n > 0
    requires forall c | c in cols :: r[c.id] == SharedRatio(c, m, id, m[id] / n as real)
    ensures SumRatios(cols, r) == SumRatios(cols, m)
  {
    SumAfterSharing(cols, m, r, id, m[id] / n as real);
    SharingKeepsTotal(SumRatios(cols, r), SumRatios(cols, m), n, Taken(cols, m, id));
  }

  /** Each recipient gets the share on top of its old ratio. */
  lemma RecipientsGetShare(cols: seq<Column>, m: map<string, real>, id: string, share: real, r: map<string, real>)
    requires AllIdsIn(cols, m) && AllIdsIn(cols, r)
    requires forall c | c in cols :: r[c.id] == SharedRatio(c, m, id, share)
    ensures AllIdsIn(Recipients(cols, id), m) && AllIdsIn(Recipients(cols, id), r)
    ensures forall c | c in Recipients(cols, id) :: r[c.id] == m[c.id] + share
  {
    forall c | c in Recipients(cols, id) ensures c.id in m && c.id in r && r[c.id] == m[c.id] + share {
      assert c in cols;
    }
  }

  /** The hide branch keeps the sum over the headers. */
  lemma SharedOverHeaders(cols: seq<Column>, m: map<string, real>, id: string, n: nat, share: real, r: map<string, real>)
    requires DistinctIds(cols) && AllIdsIn(cols, m) && id in m && id in Ids(cols)
    requires n == |Recipients(cols, id)| && n > 0 && share == m[id] / n as real
    requires AllIdsIn(Recipients(cols, id), m) && r == Spread(Recipients(cols, id), m, share)[id := 0.0]
    ensures AllIdsIn(cols, r)
    ensures forall c | c in Recipients(cols, id) :: r[c.id] == m[c.id] + share
    ensures SumRatios(cols, r) == SumRatios(cols, m)
  {
    SharedPerHeader(cols, m, id, share, r);
    RecipientsGetShare(cols, m, id, share, r);
    SharedSumKept(cols, m, r, id, n);
  }

  /**
   * Hiding a shown column with at least one recipient: the target gets 0,
   * each recipient an equal part of the target's old ratio, every other
   * entry stays, and the sum over the headers is unchanged.
   */
  lemma HideSharesOut(cols: seq<Column>, props: TableProperties, id: string, keys: seq<string>)
    requires KeyOrder(keys, props.columnRatios.Keys + {id})
    requires DistinctIds(cols) && AllIdsIn(cols, props.columnRatios)
    requires id in Ids(cols) && !IsTrue(ColumnWithId(cols, id).shown)
    requires |Recipients(cols, id)| > 0
    ensures var m, n := props.columnRatios, |Recipients(cols, id)|;
            var r := Toggled(cols, props, id, keys);
            && id in m && r.Ok? && r.value.columnRatios[id] == 0.0
            && (forall c | c in Recipients(cols, id) :: r.value.columnRatios[c.id] == m[c.id] + m[id] / n as real)
            && (forall k | k in m && k != id && k !in Ids(Recipients(cols, id)) :: r.value.columnRatios[k] == m[k])
            && AllIdsIn(cols, r.value.columnRatios)
            && SumRatios(cols, r.value.columnRatios) == SumRatios(cols, m)
  {
    HideResult(cols, props, id, keys);
    var m, n := props.columnRatios, |Recipients(cols, id)|;
    SharedOverHeaders(cols, m, id, n, m[id] / n as real, Spread(Recipients(cols, id), m, m[id] / n as real)[id := 0.0]);
    forall k | k in m && k != id && k !in Ids(Recipients(cols, id))
      ensures Spread(Recipients(cols, id), m, m[id] / n as real)[k] == m[k]
    {
      SpreadLeavesOthers(Recipients(cols, id), m, m[id] / n as real, k);
    }
  }

  /**
   * Showing a column when every key is a header id: the headers' ratios end
   * up summing to at most 100, and no ratio other than the target's grows.
   */
  lemma ShowFitsHeaders(cols: seq<Column>, props: TableProperties, id: string, keys: seq<string>)
    requires KeyOrder(keys, props.columnRatios.Keys + {id})
    requires DistinctIds(cols) && AllIdsIn(cols, props.columnRatios)
    requires forall k | k in props.columnRatios :: k in Ids(cols)
    requires id in Ids(cols) && IsTrue(ColumnWithId(cols, id).shown) && props.tableWidth != 0.0
    ensures var r := Toggled(cols, props, id, keys);
            && r.Ok? && AllIdsIn(cols, r.value.columnRatios)
            && SumRatios(cols, r.value.columnRatios) <= 100.0
            && (forall k | k in props.columnRatios && k != id :: r.value.columnRatios[k] <= props.columnRatios[k])
  {
    var target := ColumnWithId(cols, id);
    var m := props.columnRatios[id := ColumnRatioFromWidth(target.minWidth, props.tableWidth)];
    assert AllIdsIn(cols, m);
    ShrinkTracksHeaders(cols, m, keys, SumRatios(cols, m));
  }

  /**
   * Showing a column whose minimum ratio still fits: the target gets the
   * ratio of its minimum width and no other entry changes.
   */
  lemma ShowWithinHundred(cols: seq<Column>, props: TableProperties, id: string, keys: seq<string>)
    requires KeyOrder(keys, props.columnRatios.Keys + {id})
    requires id in Ids(cols) && IsTrue(ColumnWithId(cols, id).shown) && props.tableWidth != 0.0
    requires var m := props.columnRatios[id := ColumnRatioFromWidth(ColumnWithId(cols, id).minWidth, props.tableWidth)];
             AllIdsIn(cols, m) && SumRatios(cols, m) <= 100.0
    ensures var r := Toggled(cols, props, id, keys);
            && r.Ok? && r.value.columnRatios[id] == ColumnRatioFromWidth(ColumnWithId(cols, id).minWidth, props.tableWidth)
            && forall k | k in props.columnRatios && k != id :: r.value.columnRatios[k] == props.columnRatios[k]
  {
  }

  /**
   * `recalculateTablePropertiesDueToToggleColumn`: reads (or captures) the
   * stored record, then updates its ratios in place in the branch the
   * target's `data-shown` selects.
   */
  method RecalculateForToggle(table: Table, storage: LocalStorage, id: string, keys: seq<string>)
    returns (r: Result<TableProperties, ToggleError>)
    requires CanCapture(table.headers, CurrentWidth(table))
    requires KeyOrder(keys, StoredOrCaptured(table, storage).columnRatios.Keys + {id})
    modifies storage
    ensures r == Toggled(table.headers, old(StoredOrCaptured(table, storage)), id, keys)
    ensures storage.items == old(storage.items)[KeyOf(table) := old(StoredOrCaptured(table, storage))]
  {
    ghost var stored := StoredOrCaptured(table, storage);
    var columns := table.headers;
    var props := GetTableProperties(table, storage);
    assert props == stored;
    if id !in Ids(columns) {
      return Err(NoSuchColumn);
    }
    var target := ColumnWithId(columns, id);
    var columnRatios: Result<map<string, real>, ToggleError>;
    if IsTrue(target.shown) {
      columnRatios := ShowBranch(columns, props, target, keys);
    } else {
      columnRatios := HideBranch(columns, props.columnRatios, id);
    }
    if columnRatios.Err? {
      return Err(columnRatios.error);
    }
    r := Ok(TableProperties(columnRatios.value, props.tableWidth));
  }

  /** The show branch, updating the ratios in place. */
  method ShowBranch(columns: seq<Column>, props: TableProperties, target: Column, keys: seq<string>)
    returns (r: Result<map<string, real>, ToggleError>)
    requires KeyOrder(keys, props.columnRatios.Keys + {target.id})
    ensures r == ShownRatios(columns, props, target, keys)
  {
    if props.tableWidth == 0.0 {
      return Err(ZeroTableWidth);
    }
    var columnRatios := props.columnRatios[target.id := ColumnRatioFromWidth(target.minWidth, props.tableWidth)];
    if AllIdsIn(columns, columnRatios) {
      var columnRatiosSum := SumRatios(columns, columnRatios);
      columnRatios, columnRatiosSum := ShrinkRatios(columnRatios, keys, columnRatiosSum);
    }
    r := Ok(columnRatios);
  }

  /** The hide branch, updating the ratios in place. */
  method HideBranch(columns: seq<Column>, columnRatios: map<string, real>, id: string)
    returns (r: Result<map<string, real>, ToggleError>)
    ensures r == HiddenRatios(columns, columnRatios, id)
  {
    var recipients := Recipients(columns, id);
    var n := |recipients|;
    var ratios := columnRatios;
    if n > 0 {
      if id !in ratios || !AllIdsIn(recipients, ratios) {
        return Err(MissingRatio);
      }
      IdsMembership(recipients, id);
      ratios := SpreadRatios(recipients, ratios, id);
    }
    r := Ok(ratios[id := 0.0]);
  }

  /** The `+=` loop of the hide branch: each recipient gets the target's ratio divided by their number. */
  method SpreadRatios(recipients: seq<Column>, columnRatios: map<string, real>, id: string) returns (ratios: map<string, real>)
    requires recipients != [] && id in columnRatios && AllIdsIn(recipients, columnRatios) && id !in Ids(recipients)
    ensures ratios == Spread(recipients, columnRatios, columnRatios[id] / |recipients| as real)
  {
    var n := |recipients|;
    ghost var share := columnRatios[id] / n as real;
    IdsMembership(recipients, id);
    ratios := columnRatios;
    for i := 0 to n
      invariant ratios == Spread(recipients[..i], columnRatios, share)
      invariant ratios[id] == columnRatios[id]
    {
      var columnId := recipients[i].id;
      assert recipients[i] in recipients;
      SpreadStep(recipients, columnRatios, share, i);
      ratios := ratios[columnId := ratios[columnId] + ratios[id] / n as real];
    }
    assert recipients[..n] == recipients;
  }

  /** One more recipient adds `share` to that recipient's ratio. */
  lemma SpreadStep(recipients: seq<Column>, m: map<string, real>, share: real, i: nat)
    requires i < |recipients| && AllIdsIn(recipients, m)
    ensures AllIdsIn(recipients[..i], m) && AllIdsIn(recipients[..i + 1], m)
    ensures var before := Spread(recipients[..i], m, share);
            Spread(recipients[..i + 1], m, share) == before[recipients[i].id := before[recipients[i].id] + share]
  {
    AllIdsInPrefix(recipients, m, i);
    AllIdsInPrefix(recipients, m, i + 1);
    var longer := recipients[..i + 1];
    assert longer[..|longer| - 1] == recipients[..i] && longer[|longer| - 1] == recipients[i];
    SpreadLast(longer, m, share);
  }

  /** `Spread` unfolded once: the last recipient gets `share` on top of what the others left. */
  lemma SpreadLast(recipients: seq<Column>, m: map<string, real>, share: real)
    requires recipients != [] && AllIdsIn(recipients, m) && AllIdsIn(recipients[..|recipients| - 1], m)
    ensures var before, c := Spread(recipients[..|recipients| - 1], m, share), recipients[|recipients| - 1];
            c.id in before && Spread(recipients, m, share) == before[c.id := before[c.id] + share]
  {
    assert recipients[|recipients| - 1] in recipients;
  }

  lemma AllIdsInPrefix(cols: seq<Column>, m: map<string, real>, j: nat)
    requires j <= |cols| && AllIdsIn(cols, m)
    ensures AllIdsIn(cols[..j], m)
  {
    forall c | c in cols[..j] ensures c.id in m {
      assert c in cols;
    }
  }

  /** After the cells are updated, the target's `data-shown` says whether it was shown. */
  lemma MarkedTargetShown(cols: seq<Column>, marked: seq<Column>, id: string, show: bool)
    requires |marked| == |cols| && forall i | 0 <= i < |cols| :: marked[i] == MarkColumn(cols[i], id, show)
    requires id in Ids(cols)
    ensures id in Ids(marked) && (IsTrue(ColumnWithId(marked, id).shown) <==> show)
  {
    MarkKeepsIds(cols, marked, id, show);
    var c := ColumnWithId(marked, id);
    var i :| 0 <= i < |marked| && marked[i] == c;
    assert c.shown == ShownText(show);
  }

  /** Capturing gives one entry per header id, whatever the widths. */
  lemma CapturedKeysFollowIds(a: seq<Column>, aWidth: real, b: seq<Column>, bWidth: real)
    requires CanCapture(a, aWidth) && CanCapture(b, bWidth) && Ids(a) == Ids(b)
    ensures CapturedRatios(a, aWidth).Keys == CapturedRatios(b, bWidth).Keys
  {
  }

  /**
   * The first half of `toggleColumn`: shows or hides the column as the
   * checkbox says. The ids the stored ratios would be captured for stay the same.
   */
  method FlipVisibility(table: Table, storage: LocalStorage, id: string, checked: bool)
    requires table.containerWidth > 0
    modifies table
    ensures |table.headers| == |old(table.headers)|
    ensures forall i | 0 <= i < |table.headers| :: table.headers[i] == MarkColumn(old(table.headers[i]), id, checked)
    ensures |table.body| == |old(table.body)|
    ensures forall k | 0 <= k < |table.body| :: table.body[k] == MarkCell(old(table.body[k]), id, checked)
    ensures table.disabled == Locked(table.headers, old(table.disabled))
    ensures table.containerWidth == old(table.containerWidth)
    ensures id in Ids(old(table.headers)) ==> id in Ids(table.headers) && (IsTrue(ColumnWithId(table.headers, id).shown) <==> checked)
    ensures CanCapture(table.headers, CurrentWidth(table))
    ensures StoredOrCaptured(table, storage).columnRatios.Keys == old(StoredOrCaptured(table, storage)).columnRatios.Keys
  {
    ghost var storedBefore := StoredOrCaptured(table, storage);
    ghost var headersBefore, widthBefore := table.headers, CurrentWidth(table);
    if checked {
      ShowColumn(table, id);
    } else {
      HideColumn(table, id);
    }
    MarkKeepsIds(headersBefore, table.headers, id, checked);
    if id in Ids(headersBefore) {
      MarkedTargetShown(headersBefore, table.headers, id, checked);
    }
    if KeyOf(table) in storage.items {
      assert StoredOrCaptured(table, storage) == storedBefore;
    } else {
      CapturedKeysFollowIds(headersBefore, widthBefore, table.headers, CurrentWidth(table));
    }
  }

  /** The second half of `toggleColumn`: recalculates the ratios and stores them when that succeeds. */
  method RecalculateAndSave(table: Table, storage: LocalStorage, id: string, keys: seq<string>)
    requires CanCapture(table.headers, CurrentWidth(table))
    requires KeyOrder(keys, StoredOrCaptured(table, storage).columnRatios.Keys + {id})
    modifies storage
    ensures var stored := old(StoredOrCaptured(table, storage));
            var r := Toggled(table.headers, stored, id, keys);
            storage.items == old(storage.items)[KeyOf(table) := if r.Ok? then r.value else stored]
  {
    ghost var stored, itemsBefore := StoredOrCaptured(table, storage), storage.items;
    var r := RecalculateForToggle(table, storage, id, keys);
    if r.Ok? {
      SetColumnWidths(table, storage, r.value);
      OverwriteTwice(itemsBefore, KeyOf(table), stored, r.value);
    }
  }

  /**
   * `toggleColumn`: for a menu checkbox with a non-empty id, shows or hides
   * the column as the checkbox says, then recalculates the ratios from the
   * updated headers and stores them. The branch is chosen from the state
   * after the cells were updated, so showing runs the show branch.
   */
  method ToggleColumn(table: Table, storage: LocalStorage, id: string, checked: bool, keys: seq<string>)
    requires table.containerWidth > 0
    requires KeyOrder(keys, StoredOrCaptured(table, storage).columnRatios.Keys + {id})
    modifies table, storage
    ensures id == "" ==> unchanged(table) && unchanged(storage)
    ensures id != "" ==> |table.headers| == |old(table.headers)|
                         && forall i | 0 <= i < |table.headers| :: table.headers[i] == MarkColumn(old(table.headers[i]), id, checked)
    ensures id != "" ==> |table.body| == |old(table.body)|
                         && forall k | 0 <= k < |table.body| :: table.body[k] == MarkCell(old(table.body[k]), id, checked)
    ensures id != "" ==> table.disabled == Locked(table.headers, old(table.disabled))
                         && table.containerWidth == old(table.containerWidth)
    ensures id != "" && id in Ids(old(table.headers)) ==>
              id in Ids(table.headers) && (IsTrue(ColumnWithId(table.headers, id).shown) <==> checked)
    ensures id != "" ==>
              && CanCapture(table.headers, CurrentWidth(table))
              && var stored := if KeyOf(table) in old(storage.items) then old(storage.items)[KeyOf(table)] else Captured(table);
                 && KeyOrder(keys, stored.columnRatios.Keys + {id})
                 && var r := Toggled(table.headers, stored, id, keys);
                    storage.items == old(storage.items)[KeyOf(table) := if r.Ok? then r.value else stored]
  {
    if id == "" {
      return;
    }
    FlipVisibility(table, storage, id, checked);
    RecalculateAndSave(table, storage, id, keys);
  }
}
