/** The body of a rows event as the master prints it, and the proof that `CTable::update` reads it back. */
module RowImages {
  import opened Numbers
  import opened Memory
  import opened Bits
  import opened Values
  import opened RowEvents
  import opened TableMaps
  import opened Tables

  /** A column of a written row: NULL, or the bytes of its value. */
  type Cell = Option<seq<byte>>

  /**
   * A written row, as an image of the first `count` columns of its table, with the bits that fill up the last byte of
   * its null bitmap. The columns that the image leaves out are NULL in `cells`.
   */
  datatype Image = Image(cells: seq<Cell>, count: nat, padding: seq<bool>)

  /** A row of the event; an insert or delete has no `after`. */
  datatype Change = Change(before: Image, after: Image)

  function Bytes(n: nat): nat { (n + 7) / 8 }

  ghost predicate LayoutOk(tm: TableMap) {
    && 1 <= |tm.types| <= 48
    && forall i | 0 <= i < |tm.types| :: Supported(tm.types[i], MetaAt(tm, i))
  }

  ghost predicate CellFits(tm: TableMap, i: nat, cell: Cell)
    requires LayoutOk(tm) && i < |tm.types|
  {
    cell.Some? ==> Fits(tm.types[i], MetaAt(tm, i), cell.value)
  }

  ghost predicate ImageOk(tm: TableMap, im: Image)
    requires LayoutOk(tm)
  {
    && |im.cells| == |tm.types| && 1 <= im.count <= |tm.types|
    && |im.padding| == 8 * Bytes(im.count) - im.count
    && (forall i | im.count <= i < |tm.types| :: im.cells[i].None?)
    && forall i | 0 <= i < |tm.types| :: CellFits(tm, i, im.cells[i])
  }

  function PrintCell(tm: TableMap, i: nat, cell: Cell): seq<byte> {
    if cell.Some? then PrintField(At(tm.types, i), MetaAt(tm, i), cell.value) else []
  }

  /** The non-null fields of columns `i..`. */
  function PrintCells(tm: TableMap, cells: seq<Cell>, i: nat): seq<byte>
    requires i <= |cells|
    decreases |cells| - i
  {
    if i == |cells| then [] else PrintCell(tm, i, cells[i]) + PrintCells(tm, cells, i + 1)
  }

  function NullBits(im: Image): seq<bool> {
    seq(im.count, i requires 0 <= i < im.count => i >= |im.cells| || im.cells[i].None?) + im.padding
  }

  function PrintImage(tm: TableMap, im: Image): seq<byte> {
    LEBytes(BitsVal(NullBits(im)), Bytes(im.count)) + PrintCells(tm, im.cells, 0)
  }

  function PrintChange(tm: TableMap, update: bool, c: Change): seq<byte> {
    PrintImage(tm, c.before) + (if update then PrintImage(tm, c.after) else [])
  }

  function PrintChanges(tm: TableMap, update: bool, cs: seq<Change>): seq<byte> {
    if cs == [] then [] else PrintChange(tm, update, cs[0]) + PrintChanges(tm, update, cs[1..])
  }

  // ---------------------------------------------------------------- slices of arbitrary bytes

  /** The slice of a value lies between `lo` and `hi`; a null value has none. */
  ghost predicate Within(v: Value, lo: nat, hi: nat) {
    v.storage.Some? ==> lo <= v.storage.value && SliceEnd(v) <= hi
  }

  /** The slices of a row, left to right from `lo` to `hi`, do not overlap. */
  ghost predicate InOrder(values: Row, lo: nat, hi: nat) {
    && (forall j | 0 <= j < |values| :: Within(values[j], lo, hi))
    && forall j, k | 0 <= j < k < |values| && values[j].storage.Some? && values[k].storage.Some? ::
         SliceEnd(values[j]) <= values[k].storage.value
  }

  /** Column `i`, decoded at `data`, is a BLOB whose 4-byte length makes its extent wrap. */
  ghost predicate Wraps(tm: TableMap, m: seq<byte>, i: nat, data: nat) {
    At(tm.types, i) == TYPE_BLOB && MetaAt(tm, i) == 4 && LE(m, data, 4) >= TWO32 - 4
  }

  /** No column from `i` on wraps where the cursor of `DecodeColumns` finds it. */
  ghost predicate NoneWraps(tm: TableMap, m: seq<byte>, i: nat, n: nat, used: nat, present: nat, data: nat, size: int)
    requires i <= n
    decreases n - i
  {
    i == n ||
    (var here := size > 0 && Bit(used, i) && Bit(present, i);
      var w := if here then WidthAt(tm, m, i, data) else 0;
      (here ==> !Wraps(tm, m, i, data)) && NoneWraps(tm, m, i + 1, n, used, present, data + w, size - w))
  }

  /** One decoded field: its slice starts near the field, and stays in its extent exactly when it does not wrap. */
  lemma FieldSlice(tm: TableMap, m: seq<byte>, i: nat, data: nat)
    requires LayoutOk(tm) && i < |tm.types|
    ensures var v, w := FieldAt(tm, m, i, data), WidthAt(tm, m, i, data);
      && v.storage.Some? && data <= v.storage.value <= data + 4
      && (Wraps(tm, m, i, data) ==> SliceEnd(v) > data + w + 4)
      && (!Wraps(tm, m, i, data) ==> Within(v, data, data + w))
  {
    hide FieldSize, MetaAt, Value.Tune, LE;
    SliceEndsAtExtent(tm.types[i], m, data, MetaAt(tm, i), Blank(i));
    SliceStart(tm.types[i], m, data, MetaAt(tm, i), Blank(i));
    if Wraps(tm, m, i, data) {
      WrappedSlice(m, data, Blank(i));
    }
  }

  lemma SliceStart(t: byte, m: seq<byte>, p: nat, metadata: uint32, v: Value)
    requires Supported(t, metadata)
    ensures var r := v.Tune(t, m, p, metadata, FieldSize(t, m, p, metadata));
      r.storage.Some? && p <= r.storage.value <= p + 4
  {
    hide FieldSize, Value.Tune, LE;
    if Prefixed(t, metadata) {
      PrefixedExtent(t, m, p, metadata, v);
    } else {
      FixedTune(t, m, p, metadata, v);
    }
  }

  lemma WrappedSlice(m: seq<byte>, p: nat, v: Value)
    requires LE(m, p, 4) >= TWO32 - 4
    ensures var n := FieldSize(TYPE_BLOB, m, p, 4); SliceEnd(v.Tune(TYPE_BLOB, m, p, 4, n)) > p + n + 4
  {
    hide FieldSize, Value.Tune, LE;
    PrefixedExtent(TYPE_BLOB, m, p, 4, v);
  }

  /** The cursor only moves forward, and no slice starts before it. */
  lemma {:induction false} SlicesAhead(tm: TableMap, m: seq<byte>, i: nat, used: nat, present: nat,
                                       data: nat, size: int)
    requires LayoutOk(tm) && i <= |tm.types|
    ensures var r := DecodeColumns(tm, m, i, |tm.types|, used, present, data, size);
      data <= r.data && Ahead(r.values, data)
    decreases |tm.types| - i
  {
    hide *;
    var n := |tm.types|;
    if i == n {
      NoSlices(tm, m, n, used, present, data, size);
      return;
    }
    DecodeStep(tm, m, i, n, used, present, data, size);
    var here := size > 0 && Bit(used, i) && Bit(present, i);
    var w := if here then WidthAt(tm, m, i, data) else 0;
    SlicesAhead(tm, m, i + 1, used, present, data + w, size - w);
    if here {
      FieldSlice(tm, m, i, data);
    } else {
      BlankWithin(i, data);
    }
    var rest := DecodeColumns(tm, m, i + 1, n, used, present, data + w, size - w);
    AheadCons(if here then FieldAt(tm, m, i, data) else Blank(i), rest.values, data, data + w);
  }

  ghost predicate Ahead(values: Row, lo: nat) {
    forall j | 0 <= j < |values| && values[j].storage.Some? :: lo <= values[j].storage.value
  }

  lemma AheadCons(v: Value, rest: Row, lo: nat, mid: nat)
    requires (v.storage.Some? ==> lo <= v.storage.value) && Ahead(rest, mid) && lo <= mid
    ensures Ahead([v] + rest, lo)
  {
    var all := [v] + rest;
    forall j | 0 <= j < |all| && all[j].storage.Some?
      ensures lo <= all[j].storage.value
    {
      assert j > 0 ==> all[j] == rest[j - 1];
    }
  }

  /** A slice starts close to `data`, or nothing is left of the row. */
  ghost predicate StartsSoon(values: Row, data: nat, end: nat) {
    data == end || exists j :: 0 <= j < |values| && values[j].storage.Some? && values[j].storage.value <= data + 4
  }

  lemma {:induction false} NextSlice(tm: TableMap, m: seq<byte>, i: nat, used: nat, present: nat, data: nat, size: int)
    requires LayoutOk(tm) && i <= |tm.types|
    ensures var r := DecodeColumns(tm, m, i, |tm.types|, used, present, data, size); StartsSoon(r.values, data, r.data)
    decreases |tm.types| - i
  {
    hide *;
    var n := |tm.types|;
    if i == n {
      NoSlices(tm, m, n, used, present, data, size);
      EndsAtOnce([], data);
      return;
    }
    DecodeStep(tm, m, i, n, used, present, data, size);
    var here := size > 0 && Bit(used, i) && Bit(present, i);
    if here {
      FieldSlice(tm, m, i, data);
      var w := WidthAt(tm, m, i, data);
      var rest := DecodeColumns(tm, m, i + 1, n, used, present, data + w, size - w);
      StartsWith(FieldAt(tm, m, i, data), rest.values, data, rest.data);
    } else {
      NextSlice(tm, m, i + 1, used, present, data, size);
      var rest := DecodeColumns(tm, m, i + 1, n, used, present, data, size);
      StartsLater(Blank(i), rest.values, data, rest.data);
    }
  }

  lemma EndsAtOnce(values: Row, data: nat)
    ensures StartsSoon(values, data, data)
  {
  }

  lemma StartsWith(v: Value, rest: Row, data: nat, end: nat)
    requires v.storage.Some? && v.storage.value <= data + 4
    ensures StartsSoon([v] + rest, data, end)
  {
    assert ([v] + rest)[0] == v;
  }

  lemma StartsLater(v: Value, rest: Row, data: nat, end: nat)
    requires StartsSoon(rest, data, end)
    ensures StartsSoon([v] + rest, data, end)
  {
    if data != end {
      var j :| 0 <= j < |rest| && rest[j].storage.Some? && rest[j].storage.value <= data + 4;
      assert ([v] + rest)[j + 1] == rest[j];
    }
  }

  /** A slice that reaches beyond what follows it breaks the order. */
  lemma SliceTooLong(v: Value, rest: Row, lo: nat, mid: nat, hi: nat)
    requires v.storage.Some? && SliceEnd(v) > mid + 4 && StartsSoon(rest, mid, hi)
    ensures !InOrder([v] + rest, lo, hi)
  {
    var all := [v] + rest;
    assert all[0] == v;
    if mid == hi {
      assert InOrder(all, lo, hi) ==> Within(all[0], lo, hi);
    } else {
      var j :| 0 <= j < |rest| && rest[j].storage.Some? && rest[j].storage.value <= mid + 4;
      assert all[j + 1] == rest[j];
    }
  }

  lemma InOrderCons(v: Value, rest: Row, lo: nat, mid: nat, hi: nat)
    requires Within(v, lo, mid) && InOrder(rest, mid, hi) && lo <= mid <= hi
    ensures InOrder([v] + rest, lo, hi)
  {
    var all := [v] + rest;
    forall j | 0 <= j < |all|
      ensures Within(all[j], lo, hi)
    {
      assert j > 0 ==> all[j] == rest[j - 1] && Within(rest[j - 1], mid, hi);
    }
    forall j, k | 0 <= j < k < |all| && all[j].storage.Some? && all[k].storage.Some?
      ensures SliceEnd(all[j]) <= all[k].storage.value
    {
      assert all[k] == rest[k - 1] && Within(rest[k - 1], mid, hi);
      assert j > 0 ==> all[j] == rest[j - 1];
    }
  }

  lemma InOrderTail(v: Value, rest: Row, lo: nat, mid: nat, hi: nat)
    requires InOrder([v] + rest, lo, hi) && Ahead(rest, mid)
    ensures InOrder(rest, mid, hi)
  {
    var all := [v] + rest;
    forall j | 0 <= j < |rest|
      ensures Within(rest[j], mid, hi)
    {
      assert all[j + 1] == rest[j] && Within(all[j + 1], lo, hi);
    }
    forall j, k | 0 <= j < k < |rest| && rest[j].storage.Some? && rest[k].storage.Some?
      ensures SliceEnd(rest[j]) <= rest[k].storage.value
    {
      assert all[j + 1] == rest[j] && all[k + 1] == rest[k];
    }
  }

  /**
   * Whatever the bytes and bitmaps: the slices of successive columns are disjoint, in order, and inside what was
   * consumed, if and only if no decoded column is a BLOB whose length makes its extent wrap.
   */
  lemma {:induction false} SlicesInOrder(tm: TableMap, m: seq<byte>, i: nat, used: nat, present: nat,
                                         data: nat, size: int)
    requires LayoutOk(tm) && i <= |tm.types|
    ensures var n := |tm.types|; var r := DecodeColumns(tm, m, i, n, used, present, data, size);
      data <= r.data && (InOrder(r.values, data, r.data) <==> NoneWraps(tm, m, i, n, used, present, data, size))
    decreases |tm.types| - i
  {
    hide *;
    var n := |tm.types|;
    if i == n {
      NoSlices(tm, m, n, used, present, data, size);
      return;
    }
    DecodeStep(tm, m, i, n, used, present, data, size);
    NoneWrapsStep(tm, m, i, n, used, present, data, size);
    var here := size > 0 && Bit(used, i) && Bit(present, i);
    var w := if here then WidthAt(tm, m, i, data) else 0;
    var v := if here then FieldAt(tm, m, i, data) else Blank(i);
    var rest := DecodeColumns(tm, m, i + 1, n, used, present, data + w, size - w);
    SlicesInOrder(tm, m, i + 1, used, present, data + w, size - w);
    SlicesAhead(tm, m, i + 1, used, present, data + w, size - w);
    if here {
      FieldSlice(tm, m, i, data);
    } else {
      BlankWithin(i, data);
    }
    if here && Wraps(tm, m, i, data) {
      NextSlice(tm, m, i + 1, used, present, data + w, size - w);
      SliceTooLong(v, rest.values, data, data + w, rest.data);
    } else if InOrder(rest.values, data + w, rest.data) {
      InOrderCons(v, rest.values, data, data + w, rest.data);
    } else if InOrder([v] + rest.values, data, rest.data) {
      InOrderTail(v, rest.values, data, data + w, rest.data);
    }
  }

  lemma NoneWrapsStep(tm: TableMap, m: seq<byte>, i: nat, n: nat, used: nat, present: nat, data: nat, size: int)
    requires i < n
    ensures var here := size > 0 && Bit(used, i) && Bit(present, i);
      var w := if here then WidthAt(tm, m, i, data) else 0;
      NoneWraps(tm, m, i, n, used, present, data, size) <==>
        (here ==> !Wraps(tm, m, i, data)) && NoneWraps(tm, m, i + 1, n, used, present, data + w, size - w)
  {
    hide Wraps, WidthAt, Bit;
  }

  lemma NoSlices(tm: TableMap, m: seq<byte>, n: nat, used: nat, present: nat, data: nat, size: int)
    ensures DecodeColumns(tm, m, n, n, used, present, data, size) == RowRead([], data, size)
    ensures InOrder([], data, data) && Ahead([], data) && NoneWraps(tm, m, n, n, used, present, data, size)
  {
  }

  lemma BlankWithin(i: nat, lo: nat)
    ensures Within(Blank(i), lo, lo) && Blank(i).storage.None?
  {
  }

  /** An input on which the order breaks: one LONGBLOB column, and a stored length of 2^32 - 4. */
  lemma WideBlobWraps()
    ensures var tm, m := TableMap(1, [100], [116], [TYPE_BLOB], [4]), [252, 255, 255, 255];
      var r := DecodeColumns(tm, m, 0, 1, 1, 1, 0, 4);
      LayoutOk(tm) && LE(m, 0, 4) == TWO32 - 4 && !InOrder(r.values, 0, r.data)
  {
    var tm, m: seq<byte> := TableMap(1, [100], [116], [TYPE_BLOB], [4]), [252, 255, 255, 255];
    assert MetaOffset(tm.types, 0) == 0;
    LE1(tm.metadata, 0);
    LE2(m, 2);
    assert LE(m, 0, 4) == 252 + 256 * (255 + 256 * LE(m, 2, 2)) == TWO32 - 4;
    hide FieldSize, Value.Tune, LE, InOrder, DecodeColumns, WidthAt;
    SlicesInOrder(tm, m, 0, 1, 1, 0, 4);
  }

  // ---------------------------------------------------------------- reading it back

  /** The decoded value shows the written cell, under the column's own type and metadata. */
  ghost predicate ShowsCell(tm: TableMap, m: seq<byte>, i: nat, v: Value, cell: Cell) {
    && v.pos == i
    && v.Content(m) == cell
    && (v.IsNull() <==> cell.None?)
    && (cell.Some? ==>
          && v.ftype == RealType(At(tm.types, i), MetaAt(tm, i)) && v.metadata == MetaAt(tm, i) && !v.nullFlag
          && v.storage.Some? && v.size == |cell.value| && Holds(m, v.storage.value, cell.value))
  }

  ghost predicate Shows(tm: TableMap, m: seq<byte>, row: Row, cells: seq<Cell>) {
    |row| == |cells| && forall i | 0 <= i < |row| :: ShowsCell(tm, m, i, row[i], cells[i])
  }

  ghost predicate AllShow(tm: TableMap, m: seq<byte>, rows: seq<Row>, images: seq<seq<Cell>>) {
    |rows| == |images| && forall i | 0 <= i < |rows| :: Shows(tm, m, rows[i], images[i])
  }

  /** The first `k` of `n` columns are in the image, and the bits past the last column keep the count in its byte. */
  ghost predicate LeadingMask(mask: nat, k: nat, n: nat) {
    && 1 <= k <= n && mask < Pow(2, 8 * Bytes(n))
    && (forall i | 0 <= i < k :: Bit(mask, i)) && (forall i | k <= i < n :: !Bit(mask, i))
    && Bytes(Popcount(mask)) == Bytes(k)
  }

  lemma LeadingBound(mask: nat, k: nat, n: nat)
    requires LeadingMask(mask, k, n) && n <= 48
    ensures mask < 0x1_0000_0000_0000 && 1 <= k <= Popcount(mask) <= 48
  {
    hide Popcount, Bit, Pow;
    PowMono(2, 8 * Bytes(n), 48);
    Pow2Of64();
    PopcountLower(mask, k);
    PopcountBound(mask, 48);
  }

  /**
   * The condition on the count is exact: reading takes the bytes of a bitmap of `k` columns if and only if the
   * population count rounds up to as many.
   */
  lemma BitmapTaken(m: seq<byte>, data: nat, len: uint64, mask: uint64, k: nat)
    requires mask < 0x1_0000_0000_0000 && 1 <= k <= Popcount(mask)
    ensures ColumnMask(m, data, len, MaskCount(PackCount(mask))).ptr == data + Bytes(k) <==>
      Bytes(Popcount(mask)) == Bytes(k)
  {
    hide LE, PackCount, Popcount, BitmapWidth;
    PackedMask(mask, 0);
    WidthIsExact(Popcount(mask));
  }

  lemma CellRoundTrip(tm: TableMap, m: seq<byte>, i: nat, cell: Cell, data: nat)
    requires LayoutOk(tm) && i < |tm.types| && cell.Some? && CellFits(tm, i, cell)
    requires Holds(m, data, PrintCell(tm, i, cell))
    ensures WidthAt(tm, m, i, data) == |PrintCell(tm, i, cell)| >= 1
    ensures ShowsCell(tm, m, i, FieldAt(tm, m, i, data), cell)
  {
    hide MetaAt, FieldSize, PrintField, Fits, Supported;
    FieldRoundTrip(tm.types[i], m, data, MetaAt(tm, i), cell.value, Blank(i));
  }

  lemma PrintedWidth(tm: TableMap, i: nat, cell: Cell)
    requires LayoutOk(tm) && i < |tm.types| && CellFits(tm, i, cell)
    ensures PrintCell(tm, i, cell) == [] <==> cell.None?
  {
    if cell.Some? {
      var m := PrintCell(tm, i, cell);
      assert Holds(m, 0, m);
      CellRoundTrip(tm, m, i, cell, 0);
    }
  }

  /** What reading columns `i..` should yield. */
  ghost predicate ReadBack(tm: TableMap, m: seq<byte>, cells: seq<Cell>, i: nat, data: nat, size: int, r: RowRead)
    requires i <= |cells|
  {
    && |r.values| == |cells| - i
    && r.data == data + |PrintCells(tm, cells, i)|
    && r.size == size - |PrintCells(tm, cells, i)|
    && forall j | i <= j < |cells| :: ShowsCell(tm, m, j, r.values[j - i], cells[j])
  }

  lemma ReadBackStep(tm: TableMap, m: seq<byte>, cells: seq<Cell>, i: nat, data: nat, size: int,
                     v: Value, rest: RowRead)
    requires i < |cells| && ShowsCell(tm, m, i, v, cells[i])
    requires var w := |PrintCell(tm, i, cells[i])|; ReadBack(tm, m, cells, i + 1, data + w, size - w, rest)
    ensures ReadBack(tm, m, cells, i, data, size, RowRead([v] + rest.values, rest.data, rest.size))
  {
    hide ShowsCell, PrintCell;
    assert PrintCells(tm, cells, i) == PrintCell(tm, i, cells[i]) + PrintCells(tm, cells, i + 1);
    forall j | i <= j < |cells|
      ensures ShowsCell(tm, m, j, ([v] + rest.values)[j - i], cells[j])
    {
      if j > i {
        assert ([v] + rest.values)[j - i] == rest.values[j - (i + 1)];
      }
    }
  }

  lemma {:induction false} ColumnsRoundTrip(tm: TableMap, m: seq<byte>, im: Image, i: nat, used: nat, present: nat,
                                            data: nat, size: int)
    requires LayoutOk(tm) && ImageOk(tm, im) && i <= |tm.types|
    requires forall j | 0 <= j < |tm.types| :: Bit(used, j) && Bit(present, j) <==> im.cells[j].Some?
    requires Holds(m, data, PrintCells(tm, im.cells, i)) && |PrintCells(tm, im.cells, i)| <= size
    ensures ReadBack(tm, m, im.cells, i, data, size, DecodeColumns(tm, m, i, |tm.types|, used, present, data, size))
    decreases |tm.types| - i
  {
    hide *;
    LayoutAndImage(tm, im);
    if i == |tm.types| {
      ReadBackEnd(tm, m, im.cells, used, present, data, size);
      return;
    }
    var cell := im.cells[i];
    var here := PrintCell(tm, i, cell);
    PrintCellsStep(tm, im.cells, i);
    DecodeStep(tm, m, i, |tm.types|, used, present, data, size);
    HoldsConcat(m, data, here, PrintCells(tm, im.cells, i + 1));
    PrintedWidth(tm, i, cell);
    if cell.Some? {
      CellRoundTrip(tm, m, i, cell, data);
    } else {
      BlankShows(tm, m, i);
    }
    ColumnsRoundTrip(tm, m, im, i + 1, used, present, data + |here|, size - |here|);
    ReadBackStep(tm, m, im.cells, i, data, size, if cell.Some? then FieldAt(tm, m, i, data) else Blank(i),
                 DecodeColumns(tm, m, i + 1, |tm.types|, used, present, data + |here|, size - |here|));
  }

  lemma LayoutAndImage(tm: TableMap, im: Image)
    requires LayoutOk(tm) && ImageOk(tm, im)
    ensures 1 <= |im.cells| == |tm.types| <= 48
    ensures forall i | 0 <= i < |tm.types| :: CellFits(tm, i, im.cells[i])
  {
  }

  lemma ReadBackEnd(tm: TableMap, m: seq<byte>, cells: seq<Cell>, used: nat, present: nat, data: nat, size: int)
    ensures ReadBack(tm, m, cells, |cells|, data, size,
                     DecodeColumns(tm, m, |cells|, |cells|, used, present, data, size))
  {
    hide ShowsCell;
  }

  lemma PrintCellsStep(tm: TableMap, cells: seq<Cell>, i: nat)
    requires i < |cells|
    ensures PrintCells(tm, cells, i) == PrintCell(tm, i, cells[i]) + PrintCells(tm, cells, i + 1)
  {
  }

  lemma DecodeStep(tm: TableMap, m: seq<byte>, i: nat, n: nat, used: nat, present: nat, data: nat, size: int)
    requires i < n
    ensures var here := size > 0 && Bit(used, i) && Bit(present, i);
      var w := if here then WidthAt(tm, m, i, data) else 0;
      var rest := DecodeColumns(tm, m, i + 1, n, used, present, data + w, size - w);
      DecodeColumns(tm, m, i, n, used, present, data, size) ==
        RowRead([if here then FieldAt(tm, m, i, data) else Blank(i)] + rest.values, rest.data, rest.size)
  {
  }

  lemma BlankShows(tm: TableMap, m: seq<byte>, i: nat)
    ensures ShowsCell(tm, m, i, Blank(i), None)
  {
  }

  lemma PresentBits(im: Image, j: nat)
    requires j < im.count <= 64 && j < |im.cells| && BitsVal(NullBits(im)) < TWO64
    ensures Bit(Not64(BitsVal(NullBits(im))), j) <==> im.cells[j].Some?
  {
    hide Bit, BitsVal;
    BitsValBit(NullBits(im), j);
    Not64Bit(BitsVal(NullBits(im)), j);
  }

  lemma NullsBound(im: Image)
    requires im.count <= 48 && |im.padding| == 8 * Bytes(im.count) - im.count
    ensures BitsVal(NullBits(im)) < Pow(256, Bytes(im.count)) && BitsVal(NullBits(im)) < TWO64
  {
    hide BitsVal, Pow;
    var k := Bytes(im.count);
    BitsValBound(NullBits(im));
    assert |NullBits(im)| == 8 * k;
    Pow256(k);
    PowMono(2, 8 * k, 64);
    Pow2Of64();
  }

  /** The width computed from a mask with `k` leading columns. */
  lemma MaskWidth(mask: uint64, k: nat, n: nat)
    requires LeadingMask(mask, k, n) && n <= 48
    ensures MaskCount(PackCount(mask)) <= 48
    ensures BitmapWidth(MaskCount(PackCount(mask))) == Bytes(k) && 1 <= Bytes(k) <= 6
  {
    hide Popcount, PackCount, BitmapWidth;
    LeadingBound(mask, k, n);
    PackedMask(mask, 0);
    WidthIsExact(Popcount(mask));
    assert 1 <= k <= 48;
  }

  /** The printed bitmap is read at its full width and taken off the event. */
  lemma BitmapRoundTrip(m: seq<byte>, im: Image, mask: uint64, n: nat, data: nat, len: uint64)
    requires n <= 48 && LeadingMask(mask, im.count, n) && |im.padding| == 8 * Bytes(im.count) - im.count
    requires Holds(m, data, LEBytes(BitsVal(NullBits(im)), Bytes(im.count))) && Bytes(im.count) <= len
    ensures BitsVal(NullBits(im)) < TWO64
    ensures var k := Bytes(im.count);
      ColumnMask(m, data, len, MaskCount(PackCount(mask))) == MaskRead(BitsVal(NullBits(im)), data + k, len - k)
  {
    hide *;
    MaskWidth(mask, im.count, n);
    LeadingCount(mask, im.count, n);
    NullsBound(im);
    LERoundTrip(m, data, Bytes(im.count), BitsVal(NullBits(im)));
    MaskReadIs(m, data, len, MaskCount(PackCount(mask)), Bytes(im.count));
  }

  lemma LeadingCount(mask: uint64, k: nat, n: nat)
    requires LeadingMask(mask, k, n)
    ensures 1 <= k <= n
  {
  }

  lemma MaskReadIs(m: seq<byte>, data: nat, len: uint64, n: uint64, k: nat)
    requires BitmapWidth(n) == k && 1 <= k <= 6 && k <= len
    ensures LE(m, data, k) < TWO64
    ensures ColumnMask(m, data, len, n) == MaskRead(LE(m, data, k), data + k, len - k)
  {
    hide LE, BitmapWidth;
    MaskBound(m, data, k);
    SmallMod(len - k, TWO64);
  }

  lemma ImageRoundTrip(tm: TableMap, m: seq<byte>, im: Image, mask: uint64, row: Row, data: nat, len: uint64)
    requires LayoutOk(tm) && ImageOk(tm, im) && LeadingMask(mask, im.count, |tm.types|) && |row| == |tm.types|
    requires Holds(m, data, PrintImage(tm, im)) && |PrintImage(tm, im)| <= len < 0x8000_0000_0000_0000
    ensures var r := ReadImage(tm, m, |tm.types|, PackCount(mask), row, data, len);
      && Shows(tm, m, r.row, im.cells)
      && r.data == data + |PrintImage(tm, im)| && r.len == len - |PrintImage(tm, im)|
  {
    var n, k := |tm.types|, im.count;
    var nulls := BitsVal(NullBits(im));
    hide BitsVal, Bit, Pow, LE, LEBytes, PackCount, PrintCells, DecodeColumns, ColumnMask, MaskBits, MaskCount, Not64;
    hide Supported, MetaAt, CellFits, ShowsCell, LeadingMask, Popcount;
    HoldsConcat(m, data, LEBytes(nulls, Bytes(k)), PrintCells(tm, im.cells, 0));
    BitmapRoundTrip(m, im, mask, n, data, len);
    var used, present := MaskBits(PackCount(mask)), Not64(nulls);
    forall j | 0 <= j < n
      ensures Bit(used, j) && Bit(present, j) <==> im.cells[j].Some?
    {
      UsedBit(mask, k, n, j);
      if j < k {
        PresentBits(im, j);
      }
    }
    ColumnsRoundTrip(tm, m, im, 0, used, present, data + Bytes(k), len - Bytes(k));
  }

  lemma UsedBit(mask: uint64, k: nat, n: nat, j: nat)
    requires LeadingMask(mask, k, n) && j < n <= 48
    ensures Bit(MaskBits(PackCount(mask)), j) <==> j < k
  {
    hide Popcount, PackCount, MaskBits, Pow;
    LeadingBound(mask, k, n);
    PackedMask(mask, j);
  }

  /** Old images of the first `k` columns, new ones of the first `k'`. */
  ghost predicate ChangesOk(tm: TableMap, update: bool, cs: seq<Change>, k: nat, k': nat)
    requires LayoutOk(tm)
  {
    forall c | c in cs ::
      && ImageOk(tm, c.before) && c.before.count == k
      && (update ==> ImageOk(tm, c.after) && c.after.count == k')
  }

  function Befores(cs: seq<Change>): seq<seq<Cell>> {
    seq(|cs|, i requires 0 <= i < |cs| => cs[i].before.cells)
  }

  function Afters(cs: seq<Change>): seq<seq<Cell>> {
    seq(|cs|, i requires 0 <= i < |cs| => cs[i].after.cells)
  }

  /** The event describes images of the first columns of the table, and its masks are those of the printed bitmaps. */
  ghost predicate LeadingImages(tm: TableMap, ev: RowsEvent, before: uint64, after: uint64, k: nat, k': nat) {
    && ev.ncolumns == |tm.types|
    && LeadingMask(before, k, |tm.types|) && ev.used == PackCount(before)
    && (ev.IsUpdate() ==> LeadingMask(after, k', |tm.types|) && ev.after == PackCount(after))
  }

  lemma LeadingImagesAdvance(tm: TableMap, ev: RowsEvent, before: uint64, after: uint64, k: nat, k': nat)
    requires |tm.types| <= 48 && LeadingImages(tm, ev, before, after, k, k')
    ensures ev.Advances()
  {
    hide Popcount, PackCount, LeadingMask;
    LeadingBound(before, k, |tm.types|);
    PackedMask(before, 0);
  }

  /** An image of all columns is one of the first `n` of `n`, whatever the bits past the last column. */
  lemma FullIsLeading(mask: uint64, n: nat)
    requires 1 <= n <= 48 && mask < Pow(2, 8 * Bytes(n)) && forall i | 0 <= i < n :: Bit(mask, i)
    ensures LeadingMask(mask, n, n)
  {
    hide Popcount, Bit, Pow, BitmapWidth;
    PaddingIndependence(mask, n);
    WidthIsExact(Popcount(mask));
  }

  /** What reading the changes `cs` should yield. */
  ghost predicate RowsBack(tm: TableMap, m: seq<byte>, update: bool, cs: seq<Change>, r: RowsRead) {
    && AllShow(tm, m, r.rows, Befores(cs))
    && AllShow(tm, m, r.newRows, if update then Afters(cs) else [])
    && |r.row| == |tm.types|
  }

  lemma ShowsMore(tm: TableMap, m: seq<byte>, row: Row, cells: seq<Cell>, rows: seq<Row>, images: seq<seq<Cell>>)
    requires images != [] && Shows(tm, m, row, images[0]) && AllShow(tm, m, rows, images[1..])
    ensures AllShow(tm, m, [row] + rows, images)
  {
    hide Shows;
    forall i | 0 <= i < |images|
      ensures Shows(tm, m, ([row] + rows)[i], images[i])
    {
      if i > 0 {
        assert images[i] == images[1..][i - 1];
      }
    }
  }

  lemma RowsBackStep(tm: TableMap, m: seq<byte>, update: bool, cs: seq<Change>, b: Row, a: Row, r: RowsRead)
    requires cs != [] && Shows(tm, m, b, cs[0].before.cells) && (update ==> Shows(tm, m, a, cs[0].after.cells))
    requires RowsBack(tm, m, update, cs[1..], r)
    ensures RowsBack(tm, m, update, cs,
                     RowsRead([b] + r.rows, if update then [a] + r.newRows else r.newRows, r.row))
  {
    hide Shows, AllShow;
    assert Befores(cs)[1..] == Befores(cs[1..]) && Afters(cs)[1..] == Afters(cs[1..]);
    ShowsMore(tm, m, b, cs[0].before.cells, r.rows, Befores(cs));
    if update {
      ShowsMore(tm, m, a, cs[0].after.cells, r.newRows, Afters(cs));
    }
  }

  lemma RowsBackEnd(tm: TableMap, ev: RowsEvent, row: Row, data: nat)
    requires |row| == |tm.types|
    ensures RowsBack(tm, ev.mem, ev.IsUpdate(), [], ReadRows(tm, ev, row, data, 0))
  {
  }

  lemma ReadRowsStep(tm: TableMap, ev: RowsEvent, row: Row, data: nat, len: uint64)
    requires ev.Advances() && len > 0
    ensures var b := ReadImage(tm, ev.mem, ev.ncolumns, ev.used, row, data, len);
      var a := ReadImage(tm, ev.mem, ev.ncolumns, ev.after, b.row, b.data, b.len);
      var last := if ev.IsUpdate() then a else b;
      b.len > 0 || !ev.IsUpdate() ==>
        var rest := ReadRows(tm, ev, last.row, last.data, last.len);
        ReadRows(tm, ev, row, data, len) ==
          RowsRead([b.row] + rest.rows, if ev.IsUpdate() then [a.row] + rest.newRows else rest.newRows, rest.row)
  {
    hide ReadImage;
  }

  lemma AdvancingEnds(ev: RowsEvent, n: uint64)
    requires ev.Advances()
    ensures ev.EndsFrom(n)
  {
  }

  /** The pieces of a printed change, each where it is read. */
  lemma ChangeLayout(tm: TableMap, m: seq<byte>, update: bool, cs: seq<Change>, data: nat)
    requires cs != [] && Holds(m, data, PrintChanges(tm, update, cs))
    ensures var b, rest := PrintImage(tm, cs[0].before), PrintChanges(tm, update, cs[1..]);
      var a := if update then PrintImage(tm, cs[0].after) else [];
      && Holds(m, data, b) && Holds(m, data + |b|, a) && Holds(m, data + |b| + |a|, rest)
      && |PrintChanges(tm, update, cs)| == |b| + |a| + |rest|
  {
    hide PrintImage, Holds;
    var b, rest := PrintImage(tm, cs[0].before), PrintChanges(tm, update, cs[1..]);
    var a := if update then PrintImage(tm, cs[0].after) else [];
    assert PrintChanges(tm, update, cs) == (b + a) + rest;
    HoldsConcat(m, data, b + a, rest);
    HoldsConcat(m, data, b, a);
  }

  lemma ChangeOk(tm: TableMap, update: bool, cs: seq<Change>, k: nat, k': nat)
    requires LayoutOk(tm) && ChangesOk(tm, update, cs, k, k') && cs != []
    ensures ImageOk(tm, cs[0].before) && cs[0].before.count == k && PrintImage(tm, cs[0].before) != []
    ensures update ==> ImageOk(tm, cs[0].after) && cs[0].after.count == k' && PrintImage(tm, cs[0].after) != []
    ensures ChangesOk(tm, update, cs[1..], k, k')
  {
    hide CellFits, Supported;
    assert cs[0] in cs;
  }

  lemma Layout48(tm: TableMap)
    requires LayoutOk(tm)
    ensures 1 <= |tm.types| <= 48
  {
  }

  /** `ImageRoundTrip`, for the masks of an event. */
  lemma EventImage(tm: TableMap, ev: RowsEvent, before: uint64, after: uint64, k: nat, k': nat, new': bool, im: Image,
                   row: Row, data: nat, len: uint64)
    requires LayoutOk(tm) && LeadingImages(tm, ev, before, after, k, k') && ImageOk(tm, im) && |row| == |tm.types|
    requires (new' ==> ev.IsUpdate()) && im.count == if new' then k' else k
    requires Holds(ev.mem, data, PrintImage(tm, im)) && |PrintImage(tm, im)| <= len < 0x8000_0000_0000_0000
    ensures var r := ReadImage(tm, ev.mem, ev.ncolumns, if new' then ev.after else ev.used, row, data, len);
      && Shows(tm, ev.mem, r.row, im.cells) && |r.row| == |tm.types|
      && r.data == data + |PrintImage(tm, im)| && r.len == len - |PrintImage(tm, im)|
  {
    hide LayoutOk, PrintImage, ReadImage, PackCount, LeadingMask, ShowsCell, CellFits;
    ImageRoundTrip(tm, ev.mem, im, if new' then after else before, row, data, len);
  }

  /**
   * Round trip: reading the printed body of an event gives back the printed rows, old images in `rows` and, for an
   * update, new images in `newRows`, in order, whether the last row ends in fields or in nulls. The images are of the
   * first `k` and `k'` columns, all of them or fewer; a column that they leave out is null.
   */
  lemma {:induction false} RowsRoundTrip(tm: TableMap, ev: RowsEvent, before: uint64, after: uint64, k: nat, k': nat,
                                         cs: seq<Change>, row: Row, data: nat, len: uint64)
    requires LayoutOk(tm) && LeadingImages(tm, ev, before, after, k, k') && |row| == |tm.types|
    requires ChangesOk(tm, ev.IsUpdate(), cs, k, k')
    requires Holds(ev.mem, data, PrintChanges(tm, ev.IsUpdate(), cs))
    requires len == |PrintChanges(tm, ev.IsUpdate(), cs)| < 0x8000_0000_0000_0000
    ensures ev.Advances()
    ensures RowsBack(tm, ev.mem, ev.IsUpdate(), cs, ReadRows(tm, ev, row, data, len))
    decreases |cs|
  {
    hide *;
    Layout48(tm);
    LeadingImagesAdvance(tm, ev, before, after, k, k');
    if cs == [] {
      NoChanges(tm, ev.IsUpdate());
      RowsBackEnd(tm, ev, row, data);
      return;
    }
    ChangeLayout(tm, ev.mem, ev.IsUpdate(), cs, data);
    ChangeOk(tm, ev.IsUpdate(), cs, k, k');
    EventImage(tm, ev, before, after, k, k', false, cs[0].before, row, data, len);
    var b := ReadImage(tm, ev.mem, ev.ncolumns, ev.used, row, data, len);
    var last := b;
    if ev.IsUpdate() {
      EventImage(tm, ev, before, after, k, k', true, cs[0].after, b.row, b.data, b.len);
      last := ReadImage(tm, ev.mem, ev.ncolumns, ev.after, b.row, b.data, b.len);
    }
    ReadRowsStep(tm, ev, row, data, len);
    AdvancingEnds(ev, last.len);
    RowsRoundTrip(tm, ev, before, after, k, k', cs[1..], last.row, last.data, last.len);
    RowsBackStep(tm, ev.mem, ev.IsUpdate(), cs, b.row, last.row, ReadRows(tm, ev, last.row, last.data, last.len));
  }

  lemma NoChanges(tm: TableMap, update: bool)
    ensures PrintChanges(tm, update, []) == []
  {
  }
}
