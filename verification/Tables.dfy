/** Watched tables: the cached layout, and the loop that turns the body of a rows event into rows. */
module Tables {
  import opened Numbers
  import opened Memory
  import opened Bits
  import opened Values
  import opened RowEvents
  import opened TableMaps

  type Row = seq<Value>

  function Blank(i: nat): Value { Value(TYPE_NULL, None, 0, 0, true, i) }

  function Blanks(n: nat): Row { seq(n, i requires 0 <= i < n => Blank(i)) }

  // ---------------------------------------------------------------- one row image

  datatype RowRead = RowRead(values: Row, data: nat, size: int)

  /** Column `i`, decoded from the bytes at `data`. */
  function FieldAt(tm: TableMap, m: seq<byte>, i: nat, data: nat): (v: Value)
    ensures v.pos == i
  {
    Blank(i).Tune(At(tm.types, i), m, data, MetaAt(tm, i), WidthAt(tm, m, i, data))
  }

  function WidthAt(tm: TableMap, m: seq<byte>, i: nat, data: nat): uint32 {
    FieldSize(At(tm.types, i), m, data, MetaAt(tm, i))
  }

  /** Columns `i..n` of an image with `size` bytes left at `data`. */
  function DecodeColumns(tm: TableMap, m: seq<byte>, i: nat, n: nat, used: nat, present: nat, data: nat, size: int)
    : (r: RowRead)
    requires i <= n
    ensures |r.values| == n - i && r.size <= size
    decreases n - i
  {
    if i == n then RowRead([], data, size)
    else if size > 0 && Bit(used, i) && Bit(present, i) then
      var w := WidthAt(tm, m, i, data);
      var rest := DecodeColumns(tm, m, i + 1, n, used, present, data + w, size - w);
      RowRead([FieldAt(tm, m, i, data)] + rest.values, rest.data, rest.size)
    else
      var rest := DecodeColumns(tm, m, i + 1, n, used, present, data, size);
      RowRead([Blank(i)] + rest.values, rest.data, rest.size)
  }

  /** `rest` completes `done` to `full`. */
  ghost predicate Continues(full: RowRead, done: Row, rest: RowRead) {
    full == RowRead(done + rest.values, rest.data, rest.size)
  }

  lemma ContinueColumns(tm: TableMap, m: seq<byte>, i: nat, n: nat, used: nat, present: nat, data: nat, size: int,
                        full: RowRead, done: Row)
    requires i < n && Continues(full, done, DecodeColumns(tm, m, i, n, used, present, data, size))
    ensures var here := size > 0 && Bit(used, i) && Bit(present, i);
      Continues(full, done + [if here then FieldAt(tm, m, i, data) else Blank(i)],
                DecodeColumns(tm, m, i + 1, n, used, present,
                              if here then data + WidthAt(tm, m, i, data) else data,
                              if here then size - WidthAt(tm, m, i, data) else size))
  {
  }

  /** The working row after its first columns were decoded; a column it has no room for has no meaning in the source. */
  function Overwrite(row: Row, values: Row): (r: Row)
    ensures |r| == |row|
  {
    if |values| <= |row| then values + row[|values|..] else values[..|row|]
  }

  datatype ImageRead = ImageRead(row: Row, data: nat, len: uint64)

  /** The null bitmap, whose width follows from the image's population count, and then the columns. */
  function ReadImage(tm: TableMap, m: seq<byte>, n: nat, packed: uint64, row: Row, data: nat, len: uint64): ImageRead {
    var nulls := ColumnMask(m, data, len, MaskCount(packed));
    var r := DecodeColumns(tm, m, 0, n, MaskBits(packed), Not64(nulls.mask), nulls.ptr, Signed64(nulls.len));
    ImageRead(Overwrite(row, r.values), r.data, if r.size < 0 then 0 else r.size)
  }

  lemma {:induction false} NothingPresent(tm: TableMap, m: seq<byte>, i: nat, n: nat, used: nat, data: nat, size: int)
    requires i <= n
    ensures var r := DecodeColumns(tm, m, i, n, used, 0, data, size); r.data == data && r.size == size
    decreases n - i
  {
    if i < n {
      BitZero(i);
      NothingPresent(tm, m, i + 1, n, used, data, size);
    }
  }

  /**
   * Reading an image consumes something when its population count is in 1..48, even when `len` wraps. Otherwise it
   * consumes nothing, and ends the event if `len` is negative as a signed number.
   */
  lemma ImageConsumes(tm: TableMap, m: seq<byte>, n: nat, packed: uint64, row: Row, data: nat, len: uint64)
    requires 0 < len
    ensures var r := ReadImage(tm, m, n, packed, row, data, len);
      && r.len <= len
      && (1 <= MaskCount(packed) <= 48 ==> r.len < len)
      && (!(1 <= MaskCount(packed) <= 48) ==>
            r.data == data && r.len == if len < 0x8000_0000_0000_0000 then len else 0)
  {
    assert Not64(MINUS_ONE) == 0;
    hide *;
    var nulls := BitmapLen(m, data, len, packed);
    if !(1 <= MaskCount(packed) <= 48) {
      NothingPresent(tm, m, 0, n, MaskBits(packed), data, Signed64(len));
    }
    ImageLen(tm, m, n, packed, row, data, len);
  }

  lemma BitmapLen(m: seq<byte>, data: nat, len: uint64, packed: uint64) returns (r: MaskRead)
    requires 0 < len
    ensures r == ColumnMask(m, data, len, MaskCount(packed))
    ensures 1 <= MaskCount(packed) <= 48 ==> Signed64(r.len) < len
    ensures !(1 <= MaskCount(packed) <= 48) ==> r == MaskRead(MINUS_ONE, data, len)
    ensures Signed64(len) <= len
    ensures if len < 0x8000_0000_0000_0000 then Signed64(len) == len else Signed64(len) < 0
  {
    hide LE, BitmapWidth;
    r := ColumnMask(m, data, len, MaskCount(packed));
    var k := MaskCount(packed);
    assert k < 256;
    WidthIsExact(k);
  }

  lemma ImageLen(tm: TableMap, m: seq<byte>, n: nat, packed: uint64, row: Row, data: nat, len: uint64)
    ensures var nulls := ColumnMask(m, data, len, MaskCount(packed));
      var r := DecodeColumns(tm, m, 0, n, MaskBits(packed), Not64(nulls.mask), nulls.ptr, Signed64(nulls.len));
      var im := ReadImage(tm, m, n, packed, row, data, len);
      im.len == (if r.size < 0 then 0 else r.size) && im.data == r.data && r.size <= Signed64(nulls.len)
  {
    hide DecodeColumns, ColumnMask, MaskBits, Not64, Overwrite;
  }

  // ---------------------------------------------------------------- all images of an event

  datatype RowsRead = RowsRead(rows: seq<Row>, newRows: seq<Row>, row: Row)

  /** The row loop of `CTable::update` from `len` bytes at `data` on; `row` is the working row. */
  function ReadRows(tm: TableMap, ev: RowsEvent, row: Row, data: nat, len: uint64): RowsRead
    requires ev.EndsFrom(len)
    decreases len
  {
    if len == 0 then RowsRead([], [], row)
    else
      ImageConsumes(tm, ev.mem, ev.ncolumns, ev.used, row, data, len);
      var before := ReadImage(tm, ev.mem, ev.ncolumns, ev.used, row, data, len);
      if before.len == 0 then RowsRead([before.row], [], before.row)
      else if ev.IsUpdate() then
        ImageConsumes(tm, ev.mem, ev.ncolumns, ev.after, before.row, before.data, before.len);
        var after := ReadImage(tm, ev.mem, ev.ncolumns, ev.after, before.row, before.data, before.len);
        var rest := ReadRows(tm, ev, after.row, after.data, after.len);
        RowsRead([before.row] + rest.rows, [after.row] + rest.newRows, rest.row)
      else
        var rest := ReadRows(tm, ev, before.row, before.data, before.len);
        RowsRead([before.row] + rest.rows, rest.newRows, rest.row)
  }

  /** `rest` completes the rows read so far to `full`. */
  ghost predicate RowsContinue(full: RowsRead, rows: seq<Row>, newRows: seq<Row>, rest: RowsRead) {
    full == RowsRead(rows + rest.rows, newRows + rest.newRows, rest.row)
  }

  /** One turn of the row loop. */
  lemma ContinueRows(tm: TableMap, ev: RowsEvent, row: Row, data: nat, len: uint64,
                     full: RowsRead, rows: seq<Row>, newRows: seq<Row>)
    requires ev.EndsFrom(len) && len > 0
    requires RowsContinue(full, rows, newRows, ReadRows(tm, ev, row, data, len))
    ensures var before := ReadImage(tm, ev.mem, ev.ncolumns, ev.used, row, data, len);
      if before.len == 0 then RowsContinue(full, rows + [before.row], newRows, RowsRead([], [], before.row))
      else if ev.IsUpdate() then
        var after := ReadImage(tm, ev.mem, ev.ncolumns, ev.after, before.row, before.data, before.len);
        && after.len < len && ev.EndsFrom(after.len)
        && RowsContinue(full, rows + [before.row], newRows + [after.row],
                        ReadRows(tm, ev, after.row, after.data, after.len))
      else
        && before.len < len && ev.EndsFrom(before.len)
        && RowsContinue(full, rows + [before.row], newRows, ReadRows(tm, ev, before.row, before.data, before.len))
  {
    hide ReadImage;
    ImageConsumes(tm, ev.mem, ev.ncolumns, ev.used, row, data, len);
    var before := ReadImage(tm, ev.mem, ev.ncolumns, ev.used, row, data, len);
    if before.len > 0 {
      ImageConsumes(tm, ev.mem, ev.ncolumns, ev.after, before.row, before.data, before.len);
    }
  }

  /** Whatever the bytes: new images only for updates, and at most one old image without its new one. */
  lemma {:induction false} RowsShape(tm: TableMap, ev: RowsEvent, row: Row, data: nat, len: uint64)
    requires ev.EndsFrom(len)
    ensures var r := ReadRows(tm, ev, row, data, len);
      && (len > 0 ==> r.rows != [])
      && if ev.IsUpdate() then |r.newRows| <= |r.rows| <= |r.newRows| + 1 else r.newRows == []
    decreases len
  {
    if len > 0 {
      ImageConsumes(tm, ev.mem, ev.ncolumns, ev.used, row, data, len);
      var before := ReadImage(tm, ev.mem, ev.ncolumns, ev.used, row, data, len);
      if before.len == 0 {
      } else if ev.IsUpdate() {
        ImageConsumes(tm, ev.mem, ev.ncolumns, ev.after, before.row, before.data, before.len);
        var after := ReadImage(tm, ev.mem, ev.ncolumns, ev.after, before.row, before.data, before.len);
        RowsShape(tm, ev, after.row, after.data, after.len);
      } else {
        RowsShape(tm, ev, before.row, before.data, before.len);
      }
    }
  }

  /** One iteration of the row loop: the working row and what is left of the event. */
  function Turn(tm: TableMap, ev: RowsEvent, im: ImageRead): ImageRead {
    if im.len == 0 then im
    else
      var before := ReadImage(tm, ev.mem, ev.ncolumns, ev.used, im.row, im.data, im.len);
      if before.len == 0 || !ev.IsUpdate() then before
      else ReadImage(tm, ev.mem, ev.ncolumns, ev.after, before.row, before.data, before.len)
  }

  function Turns(tm: TableMap, ev: RowsEvent, im: ImageRead, n: nat): ImageRead
    decreases n
  {
    if n == 0 then im else Turns(tm, ev, Turn(tm, ev, im), n - 1)
  }

  /** An iteration of the loop consumes something, or ends where it began; `EndsFrom` says which. */
  lemma LoopStandsStill(tm: TableMap, ev: RowsEvent, im: ImageRead)
    requires 0 < im.len
    ensures var r := Turn(tm, ev, im);
      if ev.EndsFrom(im.len) then r.len < im.len && ev.EndsFrom(r.len) else r.data == im.data && r.len == im.len
  {
    hide ReadImage;
    ImageConsumes(tm, ev.mem, ev.ncolumns, ev.used, im.row, im.data, im.len);
    var before := ReadImage(tm, ev.mem, ev.ncolumns, ev.used, im.row, im.data, im.len);
    if before.len > 0 {
      ImageConsumes(tm, ev.mem, ev.ncolumns, ev.after, before.row, before.data, before.len);
    }
  }

  lemma {:induction false} TurnsEnd(tm: TableMap, ev: RowsEvent, im: ImageRead) returns (n: nat)
    requires ev.EndsFrom(im.len)
    ensures Turns(tm, ev, im, n).len == 0
    decreases im.len
  {
    hide Turn;
    if im.len == 0 {
      n := 0;
    } else {
      LoopStandsStill(tm, ev, im);
      n := TurnsEnd(tm, ev, Turn(tm, ev, im));
      n := n + 1;
    }
  }

  lemma {:induction false} TurnsForever(tm: TableMap, ev: RowsEvent, im: ImageRead, n: nat)
    requires !ev.EndsFrom(im.len)
    ensures Turns(tm, ev, im, n).len == im.len
    decreases n
  {
    hide Turn;
    if n > 0 {
      LoopStandsStill(tm, ev, im);
      TurnsForever(tm, ev, Turn(tm, ev, im), n - 1);
    }
  }

  /** The row loop ends if and only if nothing is left, the length has wrapped, or an image consumes something. */
  lemma LoopEnds(tm: TableMap, ev: RowsEvent, im: ImageRead)
    ensures (exists n: nat :: Turns(tm, ev, im, n).len == 0) <==> ev.EndsFrom(im.len)
  {
    if ev.EndsFrom(im.len) {
      var n := TurnsEnd(tm, ev, im);
    } else {
      forall n: nat
        ensures Turns(tm, ev, im, n).len != 0
      {
        TurnsForever(tm, ev, im, n);
      }
    }
  }

  lemma {:induction false} DecodedPositions(tm: TableMap, m: seq<byte>, i: nat, n: nat, used: nat, present: nat,
                                            data: nat, size: int)
    requires i <= n
    ensures forall j | 0 <= j < n - i :: DecodeColumns(tm, m, i, n, used, present, data, size).values[j].pos == i + j
    decreases n - i
  {
    hide FieldAt, WidthAt, Bit;
    if i < n {
      var here := size > 0 && Bit(used, i) && Bit(present, i);
      var w := if here then WidthAt(tm, m, i, data) else 0;
      DecodedPositions(tm, m, i + 1, n, used, present, data + w, size - w);
    }
  }

  /** Once the bytes have run out, every later column is null, whatever the bitmaps say. */
  lemma {:induction false} ExhaustedIsNull(tm: TableMap, m: seq<byte>, i: nat, n: nat, used: nat, present: nat,
                                           data: nat, size: int)
    requires i <= n && size <= 0
    ensures var r := DecodeColumns(tm, m, i, n, used, present, data, size);
      r.data == data && r.size == size && forall j | i <= j < n :: r.values[j - i] == Value(6, None, 0, 0, true, j)
    decreases n - i
  {
    if i < n {
      ExhaustedIsNull(tm, m, i + 1, n, used, present, data, size);
      var r := DecodeColumns(tm, m, i, n, used, present, data, size);
      var r' := DecodeColumns(tm, m, i + 1, n, used, present, data, size);
      forall j | i <= j < n
        ensures r.values[j - i] == Blank(j)
      {
        assert j > i ==> r.values[j - i] == r'.values[j - (i + 1)];
      }
    }
  }

  /** A value of column `j`: null, or decoded under that column's own type and metadata. */
  ghost predicate OwnColumn(tm: TableMap, used: nat, present: nat, j: nat, v: Value) {
    || v == Blank(j)
    || (Bit(used, j) && Bit(present, j) && v.pos == j && v.metadata == MetaAt(tm, j)
        && v.ftype == RealType(At(tm.types, j), MetaAt(tm, j)) && v.storage.Some?)
  }

  lemma FieldIsOwn(tm: TableMap, m: seq<byte>, used: nat, present: nat, j: nat, data: nat)
    requires Bit(used, j) && Bit(present, j)
    ensures OwnColumn(tm, used, present, j, FieldAt(tm, m, j, data))
  {
    hide MetaAt, FieldSize, Bit;
  }

  ghost predicate OwnColumns(tm: TableMap, used: nat, present: nat, i: nat, values: Row)
    decreases |values|
  {
    values == [] || (OwnColumn(tm, used, present, i, values[0]) && OwnColumns(tm, used, present, i + 1, values[1..]))
  }

  /** Metadata pairing: whichever columns before it are null or unused, a column is read with its own metadata. */
  lemma {:induction false} MetadataPairing(tm: TableMap, m: seq<byte>, i: nat, n: nat, used: nat, present: nat,
                                           data: nat, size: int)
    requires i <= n
    ensures OwnColumns(tm, used, present, i, DecodeColumns(tm, m, i, n, used, present, data, size).values)
    decreases n - i
  {
    hide OwnColumn, FieldAt, WidthAt, Bit, Blank;
    if i < n {
      var here := size > 0 && Bit(used, i) && Bit(present, i);
      var w := if here then WidthAt(tm, m, i, data) else 0;
      var rest := DecodeColumns(tm, m, i + 1, n, used, present, data + w, size - w).values;
      MetadataPairing(tm, m, i + 1, n, used, present, data + w, size - w);
      if here {
        FieldIsOwn(tm, m, used, present, i, data);
      } else {
        BlankIsOwn(tm, used, present, i);
      }
      assert DecodeColumns(tm, m, i, n, used, present, data, size).values[1..] == rest;
    }
  }

  lemma BlankIsOwn(tm: TableMap, used: nat, present: nat, j: nat)
    ensures OwnColumn(tm, used, present, j, Blank(j))
  {
  }

  /** Reading an image keeps the length of the working row and the position of every value in it. */
  lemma ImageKeepsShape(tm: TableMap, m: seq<byte>, n: nat, packed: uint64, row: Row, data: nat, len: uint64)
    ensures var r := ReadImage(tm, m, n, packed, row, data, len);
      |r.row| == |row| && (Positioned(row, |row|) ==> Positioned(r.row, |row|))
  {
    hide DecodeColumns, ColumnMask, MaskBits, Not64;
    var nulls := ColumnMask(m, data, len, MaskCount(packed));
    DecodedPositions(tm, m, 0, n, MaskBits(packed), Not64(nulls.mask), nulls.ptr, Signed64(nulls.len));
  }

  lemma {:induction false} RowsKeepShape(tm: TableMap, ev: RowsEvent, row: Row, data: nat, len: uint64)
    requires ev.EndsFrom(len)
    ensures var r := ReadRows(tm, ev, row, data, len);
      |r.row| == |row| && (Positioned(row, |row|) ==> Positioned(r.row, |row|))
    decreases len
  {
    hide ReadImage, Positioned;
    if len > 0 {
      ImageConsumes(tm, ev.mem, ev.ncolumns, ev.used, row, data, len);
      ImageKeepsShape(tm, ev.mem, ev.ncolumns, ev.used, row, data, len);
      var b := ReadImage(tm, ev.mem, ev.ncolumns, ev.used, row, data, len);
      if b.len == 0 {
      } else if ev.IsUpdate() {
        ImageConsumes(tm, ev.mem, ev.ncolumns, ev.after, b.row, b.data, b.len);
        ImageKeepsShape(tm, ev.mem, ev.ncolumns, ev.after, b.row, b.data, b.len);
        var a := ReadImage(tm, ev.mem, ev.ncolumns, ev.after, b.row, b.data, b.len);
        RowsKeepShape(tm, ev, a.row, a.data, a.len);
      } else {
        RowsKeepShape(tm, ev, b.row, b.data, b.len);
      }
    }
  }

  /** When the event has every column of the working row, nothing of that row survives. */
  lemma RowsForgetTheLast(tm: TableMap, ev: RowsEvent, row: Row, row': Row, data: nat, len: uint64)
    requires ev.EndsFrom(len) && |row| == |row'| <= ev.ncolumns
    ensures var r, r' := ReadRows(tm, ev, row, data, len), ReadRows(tm, ev, row', data, len);
      r.rows == r'.rows && r.newRows == r'.newRows && (len > 0 ==> r.row == r'.row)
  {
    if len > 0 {
      ImageConsumes(tm, ev.mem, ev.ncolumns, ev.used, row, data, len);
      ImageForgets(tm, ev.mem, ev.ncolumns, ev.used, row, row', data, len);
      hide ReadImage;
    }
  }

  lemma ImageForgets(tm: TableMap, m: seq<byte>, n: nat, packed: uint64, row: Row, row': Row, data: nat, len: uint64)
    requires |row| == |row'| <= n
    ensures ReadImage(tm, m, n, packed, row, data, len) == ReadImage(tm, m, n, packed, row', data, len)
  {
    hide DecodeColumns, ColumnMask, MaskBits, MaskCount, Not64;
    assert |row| == n ==> row[n..] == row'[n..];
  }

  lemma ImageKeepsTail(tm: TableMap, m: seq<byte>, n: nat, packed: uint64, row: Row, data: nat, len: uint64)
    requires n <= |row|
    ensures var r := ReadImage(tm, m, n, packed, row, data, len).row; |r| == |row| && r[n..] == row[n..]
  {
    hide DecodeColumns, ColumnMask, MaskBits, MaskCount, Not64;
  }

  /** The first row of an event keeps what the working row holds past the event's columns. */
  lemma FirstRowKeepsTail(tm: TableMap, ev: RowsEvent, row: Row, data: nat, len: uint64)
    requires len > 0 && ev.EndsFrom(len) && ev.ncolumns <= |row|
    ensures var rows := ReadRows(tm, ev, row, data, len).rows;
      rows != [] && |rows[0]| == |row| && rows[0][ev.ncolumns..] == row[ev.ncolumns..]
  {
    ImageConsumes(tm, ev.mem, ev.ncolumns, ev.used, row, data, len);
    ImageKeepsTail(tm, ev.mem, ev.ncolumns, ev.used, row, data, len);
    hide ReadImage;
  }

  /** Both working rows make the event yield the same rows. */
  ghost predicate SameRows(tm: TableMap, ev: RowsEvent, row: Row, row': Row, data: nat, len: uint64)
    requires ev.EndsFrom(len)
  {
    var r, r' := ReadRows(tm, ev, row, data, len), ReadRows(tm, ev, row', data, len);
    r.rows == r'.rows && r.newRows == r'.newRows
  }

  /**
   * No value of an earlier row or event shows in the rows of an event, whatever the working row of `k` columns held,
   * if and only if the event has at least `k` columns.
   */
  lemma RowsForgetExactly(tm: TableMap, ev: RowsEvent, data: nat, len: uint64, k: nat)
    requires len > 0 && ev.EndsFrom(len)
    ensures (forall row: Row, row': Row | |row| == k && |row'| == k :: SameRows(tm, ev, row, row', data, len)) <==>
      k <= ev.ncolumns
  {
    hide ReadRows;
    if k <= ev.ncolumns {
      forall row: Row, row': Row | |row| == k && |row'| == k
        ensures SameRows(tm, ev, row, row', data, len)
      {
        RowsForgetTheLast(tm, ev, row, row', data, len);
      }
    } else {
      var n, row := ev.ncolumns, Blanks(k);
      var row' := row[n := row[n].(metadata := 1)];
      FirstRowKeepsTail(tm, ev, row, data, len);
      FirstRowKeepsTail(tm, ev, row', data, len);
      assert row[n..][0] != row'[n..][0];
      assert !SameRows(tm, ev, row, row', data, len);
    }
  }

  // ---------------------------------------------------------------- the table object

  datatype TableState = TableState(tuned: bool, tm: TableMap, row: Row, rows: seq<Row>, newRows: seq<Row>)

  /** `CTable::tune`: nothing while tuned; else parse, and cache the layout if it is usable. */
  function TuneTable(t: TableState, copy: seq<byte>): TableState {
    var tm := ParseMap(copy);
    if t.tuned then t
    else if tm.Valid() then t.(tuned := true, tm := tm, row := Resized(t.row, tm.types))
    else t.(tm := tm)
  }

  /** `vector::resize`, then every element gets its position and the type of its column. */
  function Resized(row: Row, types: seq<byte>): Row {
    seq(|types|, i requires 0 <= i < |types| => (if i < |row| then row[i] else Blank(i)).(pos := i, ftype := types[i]))
  }

  /** A parsed map tunes the table if and only if it names a database and a table and has columns. */
  lemma MapUsable(t: TableState, copy: seq<byte>)
    requires !t.tuned
    ensures var tm, r := ParseMap(copy), TuneTable(t, copy);
      && (r.tuned <==> tm.db != [] && tm.name != [] && tm.types != [])
      && r.tm == tm && r.rows == t.rows && r.newRows == t.newRows
      && if !r.tuned then r.row == t.row
         else
           && |r.row| == |tm.types|
           && forall i | 0 <= i < |r.row| :: r.row[i].pos == i && r.row[i].ftype == tm.types[i]
  {
    hide ParseMap;
  }

  predicate Matches(t: TableState, ev: RowsEvent) { t.tm.id == ev.tableId }

  /** `CTable::update`: an event with another id changes nothing, not even the rows of the previous event. */
  function UpdateTable(t: TableState, ev: RowsEvent): TableState
    requires Matches(t, ev) ==> ev.Ends()
  {
    if !Matches(t, ev) then t
    else
      var r := ReadRows(t.tm, ev, t.row, ev.data, ev.len);
      t.(row := r.row, rows := r.rows, newRows := r.newRows)
  }

  function FreshTable(): TableState { TableState(false, TableMap(0, [], [], [], []), [], [], []) }

  predicate Positioned(row: Row, n: nat) {
    n <= |row| && forall i | 0 <= i < n :: row[i].pos == i
  }

  lemma CursorsStart(types: seq<byte>)
    ensures MetaOffset(types, 0) == 0 && ShiftedOne(0) == 1
  {
  }

  lemma DecodeNone(tm: TableMap, m: seq<byte>, n: nat, used: nat, present: nat, data: nat, size: int)
    ensures DecodeColumns(tm, m, n, n, used, present, data, size) == RowRead([], data, size)
  {
  }

  /** `1 << i` in 64 bits. */
  function ShiftedOne(i: nat): uint64 {
    Pow2Of64();
    if i < 64 then (PowMono(2, i, 63); Pow(2, i)) else 0
  }

  lemma ShiftedTest(used: nat, present: nat, i: nat)
    requires used < TWO64
    ensures And(And(used, present), ShiftedOne(i)) != 0 <==> Bit(used, i) && Bit(present, i)
    ensures ShiftedOne(i + 1) == ShiftedOne(i) * 2 % TWO64
  {
    hide And, Bit;
    Pow2Of64();
    if i < 64 {
      AndShifted(And(used, present), i);
      AndBit(used, present, i);
      PowMono(2, i, 63);
      if i < 63 {
        PowMono(2, i + 1, 63);
      }
    } else {
      HighBit(used, 64, i);
      AndZero(And(used, present));
    }
  }

  lemma AndZero(m: nat)
    ensures And(m, 0) == 0
  {
  }

  lemma {:induction false} HighBit(m: nat, w: nat, i: nat)
    requires m < Pow(2, w) && w <= i
    ensures !Bit(m, i)
    decreases i
  {
    if w == 0 {
      BitZero(i);
    } else {
      HighBit(m / 2, w - 1, i - 1);
    }
  }

  class Table {
    var tuned: bool
    var tm: TableMap
    var row: Row
    var rows: seq<Row>
    var newRows: seq<Row>

    /** A freshly watched table: ids start at 0 and no layout is cached. */
    constructor ()
      ensures View() == FreshTable()
    {
      tuned, tm, row, rows, newRows := false, TableMap(0, [], [], [], []), [], [], [];
    }

    function View(): TableState
      reads this
    {
      TableState(tuned, tm, row, rows, newRows)
    }

    method SetTuned(b: bool)
      modifies `tuned
      ensures View() == old(View()).(tuned := b)
    {
      tuned := b;
    }

    method Tune(m: seq<byte>, size: nat, useChecksum: bool) returns (rc: int)
      modifies `tuned, `tm, `row
      ensures rc == 0
      ensures View() == TuneTable(old(View()), MapCopy(m, size, useChecksum))
    {
      if tuned {
        return 0;
      }
      TuneMap(MapCopy(m, size, useChecksum));
      if tm.Valid() {
        TuneRow();
        tuned := true;
      }
      return 0;
    }

    /** The working row gets the length of the layout, and then every value its position and its type. */
    method TuneRow()
      modifies `row
      ensures row == Resized(old(row), tm.types)
    {
      var n := |tm.types|;
      row := if |row| <= n then row + seq(n - |row|, _ => Blank(0)) else row[..n];
      ghost var grown := row;
      for i := 0 to n
        invariant |row| == n
        invariant forall j | 0 <= j < i :: row[j] == grown[j].(pos := j, ftype := tm.types[j])
        invariant forall j | i <= j < n :: row[j] == grown[j]
      {
        row := row[i := row[i].(pos := i)];
        row := row[i := row[i].(ftype := tm.types[i])];
      }
    }

    /** `CTableMapLogEvent::tune`: a pointer moves over the private copy of the event. */
    method TuneMap(copy: seq<byte>)
      modifies `tm
      ensures tm == ParseMap(copy)
    {
      hide CString, Slice;
      var p := POST_HEADER;
      var len := At(copy, p);
      p := p + 1;
      var dbName := CString(copy, p);
      p := p + len + 1;
      len := At(copy, p);
      p := p + 1;
      var tableName := CString(copy, p);
      p := p + len + 1;
      var columns := NetFieldLength(copy, p);
      p := columns.ptr + columns.value;
      var metadata := NetFieldLength(copy, p);
      p := metadata.ptr;
      tm := TableMap(MapId(copy), dbName, tableName,
                     Slice(copy, columns.ptr, columns.value), Slice(copy, p, metadata.value));
    }

    /** On an event with the table's id, the loop must end and the working row have room for the columns. */
    method Update(rlev: RowLogEvent) returns (rc: int)
      requires rlev.valid && tm.id == rlev.tableId ==> rlev.View().Ends() && Positioned(row, rlev.ncolumns)
      modifies `row, `rows, `newRows
      ensures !rlev.valid ==> rc == -1 && View() == old(View())
      ensures rlev.valid ==> rc == (if Matches(old(View()), rlev.View()) then 0 else -1)
      ensures rlev.valid ==> View() == UpdateTable(old(View()), rlev.View())
    {
      hide ReadImage, Positioned, RowsEvent.EndsFrom;
      if !rlev.valid || tm.id != rlev.tableId {
        return -1;
      }
      ghost var ev := rlev.View();
      ghost var full := ReadRows(tm, ev, row, ev.data, ev.len);
      var data, len := rlev.data, rlev.len;
      rows, newRows := [], [];
      while len > 0
        invariant Positioned(row, rlev.ncolumns) && rlev.View() == ev && ev.EndsFrom(len)
        invariant RowsContinue(full, rows, newRows, ReadRows(tm, ev, row, data, len))
        decreases len
      {
        ContinueRows(tm, ev, row, data, len, full, rows, newRows);
        data, len := ReadOne(rlev, rlev.usedColumnsMask, data, len);
        rows := rows + [row];
        if len == 0 {
          break;
        }
        if rlev.etype == UPDATE_ROWS_EVENT || rlev.etype == UPDATE_ROWS_V2_EVENT {
          data, len := ReadOne(rlev, rlev.usedColumnsAfterimageMask, data, len);
          newRows := newRows + [row];
        }
      }
      return if len == 0 then 0 else -1;
    }

    /** One image: its null bitmap, then `UpdateRow`. */
    method ReadOne(rlev: RowLogEvent, packed: uint64, data: nat, len: uint64) returns (data': nat, len': uint64)
      requires Positioned(row, rlev.ncolumns)
      modifies `row
      ensures ImageRead(row, data', len') ==
        ReadImage(tm, rlev.buffer, rlev.ncolumns, packed, old(row), data, len)
      ensures Positioned(row, rlev.ncolumns)
    {
      var bitmap := ColumnMask(rlev.buffer, data, len, MaskCount(packed));
      data', len' := UpdateRow(rlev.buffer, bitmap.ptr, bitmap.len, rlev.ncolumns,
                               MaskBits(packed), Not64(bitmap.mask));
    }

    /** Three cursors move together: the row bytes, the metadata, and the bit of the column. */
    method UpdateRow(m: seq<byte>, pdata: nat, plen: uint64, ncolumns: uint64, usedMask: uint64, presentMask: uint64)
      returns (data: nat, len: uint64)
      requires Positioned(row, ncolumns)
      modifies `row
      ensures var r := DecodeColumns(tm, m, 0, ncolumns, usedMask, presentMask, pdata, Signed64(plen));
        && row == r.values + old(row)[ncolumns..]
        && data == r.data && len == (if r.size < 0 then 0 else r.size)
      ensures Positioned(row, ncolumns)
    {
      CursorsStart(tm.types);
      hide FieldAt, WidthAt, DecodeColumns, MetaOffset, ShiftedOne, And, Bit;
      ghost var full := DecodeColumns(tm, m, 0, ncolumns, usedMask, presentMask, pdata, Signed64(plen));
      var size := Signed64(plen);
      data := pdata;
      var pmetadata, bit := 0, 1;
      var i := 0;
      while i < ncolumns
        invariant 0 <= i <= ncolumns && Positioned(row, ncolumns)
        invariant row[ncolumns..] == old(row)[ncolumns..]
        invariant size > 0 ==> pmetadata == MetaOffset(tm.types, i) && bit == ShiftedOne(i)
        invariant Continues(full, row[..i], DecodeColumns(tm, m, i, ncolumns, usedMask, presentMask, data, size))
      {
        ghost var before, data0, size0 := row, data, size;
        var present := false;
        if size > 0 {
          ShiftedTest(usedMask, presentMask, i);
          present := And(And(usedMask, presentMask), bit) != 0;
          bit := bit * 2 % TWO64;
        }
        data, size, pmetadata := UpdateColumn(m, i, data, size, pmetadata, present);
        ContinueColumns(tm, m, i, ncolumns, usedMask, presentMask, data0, size0, full, before[..i]);
        assert row[..i + 1] == before[..i] + [if present then FieldAt(tm, m, i, data0) else Blank(i)];
        i := i + 1;
      }
      assert row == row[..ncolumns] + row[ncolumns..];
      DecodeNone(tm, m, ncolumns, usedMask, presentMask, data, size);
      len := if size < 0 then 0 else size;
    }

    /** One turn of the column loop. */
    method UpdateColumn(m: seq<byte>, i: nat, data: nat, size: int, pmetadata: nat, present: bool)
      returns (data': nat, size': int, pmetadata': nat)
      requires i < |row| && row[i].pos == i
      requires present ==> size > 0
      requires size > 0 ==> pmetadata == MetaOffset(tm.types, i)
      modifies `row
      ensures row == old(row)[i := if present then FieldAt(tm, m, i, data) else Blank(i)]
      ensures data' == (if present then data + WidthAt(tm, m, i, data) else data)
      ensures size' == (if present then size - WidthAt(tm, m, i, data) else size)
      ensures size > 0 ==> pmetadata' == MetaOffset(tm.types, i + 1)
    {
      data', size', pmetadata' := data, size, pmetadata;
      if size <= 0 {
        row := row[i := row[i].Reset()];
        return;
      }
      var t := At(tm.types, i);
      LEBelow32(tm.metadata, pmetadata, MetadataSize(t));
      var metadata := LE(tm.metadata, pmetadata, MetadataSize(t));
      pmetadata' := pmetadata + MetadataSize(t);
      row := row[i := row[i].Reset()];
      if present {
        var length := FieldSize(t, m, data, metadata);
        row := row[i := row[i].Tune(t, m, data, metadata, length)];
        data' := data + length;
        size' := size - length;
      }
    }
  }
}
