/** Rows events: length-encoded numbers, column bitmaps with their cached population count, and the event header. */
module RowEvents {
  import opened Numbers
  import opened Memory
  import opened Bits
  import opened Values

  const WRITE_ROWS_EVENT: byte := 23
  const UPDATE_ROWS_EVENT: byte := 24
  const WRITE_ROWS_V2_EVENT: byte := 30
  const UPDATE_ROWS_V2_EVENT: byte := 31
  const DELETE_ROWS_V2_EVENT: byte := 32

  const HEADER_LEN: nat := 19
  const EVENT_TYPE_OFFSET: nat := 4

  const MINUS_ONE: uint64 := 0xFFFF_FFFF_FFFF_FFFF
  const TWO56 := 0x100_0000_0000_0000

  // ---------------------------------------------------------------- column bitmaps

  /** Bytes of a bitmap of `n` bits, computed in 64 bits and kept in 8. */
  function BitmapWidth(n: uint64): byte { (n + 7) % TWO64 / 8 % 256 }

  datatype MaskRead = MaskRead(mask: uint64, ptr: nat, len: uint64)

  function ColumnMask(m: seq<byte>, ptr: nat, len: uint64, n: uint64): MaskRead {
    var l := BitmapWidth(n);
    if 1 <= l <= 6 then (MaskBound(m, ptr, l); MaskRead(LE(m, ptr, l), ptr + l, Sub64(len, l)))
    else MaskRead(MINUS_ONE, ptr, len)
  }

  lemma MaskBound(m: seq<byte>, p: nat, l: nat)
    requires l <= 6
    ensures LE(m, p, l) < 0x1_0000_0000_0000 && LE(m, p, l) < Pow(2, 8 * l)
  {
    LEBound(m, p, l);
    Pow256(l);
    PowMono(2, 8 * l, 48);
    Pow2Of64();
  }

  lemma WidthIsExact(n: uint64)
    requires n <= 2040
    ensures BitmapWidth(n) == (n + 7) / 8 && (1 <= BitmapWidth(n) <= 6 <==> 1 <= n <= 48)
  {
  }

  /**
   * For every column count: reading succeeds exactly when the width, cut to eight bits, is 1 to 6. That is the
   * intended answer, 1 to 48 columns, exactly for the counts up to 48 and those that are refused.
   */
  lemma MaskAccepted(m: seq<byte>, ptr: nat, len: uint64, n: uint64)
    ensures var r, width := ColumnMask(m, ptr, len, n), (n + 7) % TWO64 / 8 % 256;
      && (r.mask != MINUS_ONE <==> 1 <= width <= 6)
      && (r.mask != MINUS_ONE ==> r.ptr == ptr + width && r.len == Sub64(len, width))
      && ((r.mask != MINUS_ONE <==> 1 <= n <= 48) <==> (n <= 48 || !(1 <= width <= 6)))
  {
    hide LE;
    if 1 <= BitmapWidth(n) <= 6 {
      MaskBound(m, ptr, BitmapWidth(n));
    }
    if n <= 48 {
      WidthIsExact(n);
    }
  }

  /** When reading succeeds, bit `i` of the bytes it takes is bit `i % 8` of byte `i / 8`. */
  lemma MaskPacking(m: seq<byte>, ptr: nat, len: uint64, n: uint64)
    ensures var r, width := ColumnMask(m, ptr, len, n), (n + 7) % TWO64 / 8 % 256;
      r.mask != MINUS_ONE ==>
        forall i | 0 <= i < 8 * width :: Bit(r.mask, i) <==> Bit(At(m, ptr + i / 8), i % 8)
    ensures n <= 2040 ==> (ColumnMask(m, ptr, len, n).mask != MINUS_ONE <==> 1 <= n <= 48)
    ensures 1 <= n <= 48 ==> (n + 7) % TWO64 / 8 % 256 == (n + 7) / 8 && n <= 8 * ((n + 7) / 8)
  {
    hide LE, Bit, BitmapWidth, ColumnMask;
    MaskAccepted(m, ptr, len, n);
    if n <= 2040 {
      WidthIsExact(n);
      WidthOf(n);
    }
    if ColumnMask(m, ptr, len, n).mask != MINUS_ONE {
      var l := (n + 7) % TWO64 / 8 % 256;
      ReadIs(m, ptr, len, n, l);
      forall i | 0 <= i < 8 * l
        ensures Bit(LE(m, ptr, l), i) <==> Bit(At(m, ptr + i / 8), i % 8)
      {
        LEBit(m, ptr, l, i);
      }
    }
  }

  lemma WidthOf(n: uint64)
    ensures BitmapWidth(n) == (n + 7) % TWO64 / 8 % 256
  {
  }

  lemma ReadIs(m: seq<byte>, ptr: nat, len: uint64, n: uint64, l: nat)
    requires 1 <= l <= 6 && l == (n + 7) % TWO64 / 8 % 256
    ensures ColumnMask(m, ptr, len, n).mask == LE(m, ptr, l)
  {
    hide LE;
  }

  /** The first count past 48 that is not refused: 2049 columns, a bitmap of 257 bytes, are read from one byte. */
  lemma MaskWidthWraps(m: seq<byte>, ptr: nat, len: uint64, n: uint64)
    requires 48 < n < 2049
    ensures ColumnMask(m, ptr, len, n).mask == MINUS_ONE
    ensures ColumnMask(m, ptr, len, 2049).mask != MINUS_ONE && ColumnMask(m, ptr, len, 2049).ptr == ptr + 1
  {
    MaskAccepted(m, ptr, len, n);
    MaskAccepted(m, ptr, len, 2049);
  }

  /** The low 56 bits of the mask, with the mask's population count in the top byte. */
  function PackCount(mask: uint64): (r: uint64) {
    PopcountBelow(mask);
    mask % TWO56 + Popcount(mask) * TWO56
  }

  lemma PopcountBelow(mask: uint64)
    ensures Popcount(mask) <= 64
  {
    Pow2Of64();
    PopcountBound(mask, 64);
  }

  method UpdateN1Bits(mask: uint64) returns (r: uint64)
    ensures r == PackCount(mask)
  {
    PopcountBelow(mask);
    var m, nbits, more := mask, 0, true;
    while more
      invariant nbits + Popcount(m) == Popcount(mask)
      invariant !more ==> m == 0
      decreases m, more
    {
      if m % 2 == 1 {
        nbits := nbits + 1;
      }
      m := m / 2;
      more := m != 0;
    }
    Pow2Of64();
    AndLow(mask, 56);
    OrDisjoint(mask % TWO56, nbits, 56);
    r := Or(And(mask, TWO56 - 1), nbits * TWO56);
  }

  /** The accessor for the bits. Its constant has sixteen hexadecimal digits, so it strips nothing. */
  function MaskBits(packed: uint64): uint64 {
    Pow2Of64();
    AndLow(packed, 64);
    And(packed, MINUS_ONE)
  }

  function MaskCount(packed: uint64): nat { packed / TWO56 }

  lemma PackedSum(mask: uint64)
    requires mask < 0x1_0000_0000_0000
    ensures Popcount(mask) <= 48 && PackCount(mask) == mask + Popcount(mask) * TWO56
  {
    hide Popcount;
    Pow2Of64();
    PopcountBound(mask, 48);
    SmallMod(mask, TWO56);
  }

  /**
   * For a bitmap of up to 48 columns, the count accessor gives the exact population count and, although the accessor
   * leaves the count in the top byte, every bit below 56 is still the bitmap's.
   */
  lemma PackedMask(mask: uint64, i: nat)
    requires mask < 0x1_0000_0000_0000
    ensures MaskBits(PackCount(mask)) == PackCount(mask)
    ensures MaskCount(PackCount(mask)) == Popcount(mask) <= 48
    ensures i < 56 ==> (Bit(MaskBits(PackCount(mask)), i) <==> Bit(mask, i))
  {
    PackedSum(mask);
    var packed := PackCount(mask);
    Pow2Of64();
    AndLow(packed, 64);
    SmallMod(packed, TWO64);
    ModUnique(packed, TWO56, Popcount(mask), mask);
    if i < 56 {
      BitLow(mask, Popcount(mask), 56, i);
    }
  }

  /** The count byte is what a test of bits 56 to 63 sees. Only counts from 2049 on get that far. */
  lemma CountByteIsVisible(mask: uint64, i: nat)
    requires mask < 0x1_0000_0000_0000 && i < 8
    ensures Bit(MaskBits(PackCount(mask)), 56 + i) <==> Bit(Popcount(mask), i)
  {
    PackedSum(mask);
    PackedMask(mask, 0);
    Pow2Of64();
    BitHigh(mask, Popcount(mask), 56, 56 + i);
  }

  lemma SameWidth(n: nat, k: nat)
    requires 1 <= n <= 48 && n <= k <= 8 * ((n + 7) / 8)
    ensures k <= 48 && BitmapWidth(k) == (n + 7) / 8 == BitmapWidth(n)
  {
    hide BitmapWidth;
    WidthIsExact(n);
    SameQuotient(n, k);
    WidthIsExact(k);
  }

  lemma SameQuotient(n: nat, k: nat)
    requires 1 <= n <= 48 && n <= k <= 8 * ((n + 7) / 8)
    ensures k <= 48 && (k + 7) / 8 == (n + 7) / 8
  {
  }

  /** A full image of `n` columns with any padding bits: the bitmap width computed from the count is that of `n`. */
  lemma PaddingIndependence(mask: uint64, n: nat)
    requires 1 <= n <= 48 && mask < Pow(2, 8 * ((n + 7) / 8))
    requires forall i | 0 <= i < n :: Bit(mask, i)
    ensures n <= Popcount(mask) <= 48
    ensures BitmapWidth(Popcount(mask)) == (n + 7) / 8 == BitmapWidth(n)
  {
    hide *;
    var l := (n + 7) / 8;
    PopcountLower(mask, n);
    PopcountBound(mask, 8 * l);
    SameWidth(n, Popcount(mask));
  }

  // ---------------------------------------------------------------- which bit of the null bitmap is a column's

  /** How many of the columns before `i` are in the image. */
  function Rank(used: nat, i: nat): nat
    decreases i
  {
    if i == 0 then 0 else Rank(used, i - 1) + (if Bit(used, i - 1) then 1 else 0)
  }

  ghost predicate InitialSegment(used: nat, n: nat) {
    forall i, j :: 0 <= i < j < n && Bit(used, j) ==> Bit(used, i)
  }

  lemma {:induction false} RankFull(used: nat, i: nat)
    requires forall j | 0 <= j < i :: Bit(used, j)
    ensures Rank(used, i) == i
    decreases i
  {
    if i > 0 {
      RankFull(used, i - 1);
      assert Bit(used, i - 1);
    }
  }

  lemma {:induction false} RankShort(used: nat, i: nat, j: nat)
    requires i < j && !Bit(used, i)
    ensures Rank(used, j) < j
    decreases j
  {
    RankBound(used, j - 1);
    if i < j - 1 {
      RankShort(used, i, j - 1);
    }
  }

  lemma {:induction false} RankBound(used: nat, i: nat)
    ensures Rank(used, i) <= i
    decreases i
  {
    if i > 0 {
      RankBound(used, i - 1);
    }
  }

  /**
   * The null bitmap holds one bit per column of the image, and this reader looks a column up by its index in the
   * table. The two agree for every null bitmap exactly when the columns of the image come first in the table.
   */
  lemma NullBitLookup(used: nat, n: nat)
    ensures (forall nulls: nat, i: nat :: i < n && Bit(used, i) ==> (Bit(nulls, i) <==> Bit(nulls, Rank(used, i))))
      <==> InitialSegment(used, n)
  {
    if InitialSegment(used, n) {
      forall nulls: nat, i: nat | i < n && Bit(used, i)
        ensures Bit(nulls, i) <==> Bit(nulls, Rank(used, i))
      {
        RankFull(used, i);
      }
    } else {
      var i, j :| 0 <= i < j < n && Bit(used, j) && !Bit(used, i);
      RankShort(used, i, j);
      var nulls := Pow(2, j);
      BitHigh(0, 1, j, j);
      var r := Rank(used, j);
      BitLow(0, 1, j, r);
      BitZero(r);
      assert Bit(nulls, j) && !Bit(nulls, r);
    }
  }

  // ---------------------------------------------------------------- length-encoded numbers

  datatype LenRead = LenRead(value: uint64, ptr: nat)

  function NetFieldLength(m: seq<byte>, p: nat): LenRead {
    if At(m, p) < 251 then LenRead(At(m, p), p + 1)
    else if At(m, p) == 251 then LenRead(MINUS_ONE, p + 1)
    else if At(m, p) == 252 then (LEBelow32(m, p + 1, 2); LenRead(LE(m, p + 1, 2), p + 3))
    else if At(m, p) == 253 then (LEBelow32(m, p + 1, 3); LenRead(LE(m, p + 1, 3), p + 4))
    else (LEBelow32(m, p + 1, 4); LenRead(LE(m, p + 1, 4), p + 9))
  }

  /** A number as the master writes it. */
  function PrintLength(v: uint64): (s: seq<byte>)
    ensures 1 <= |s| <= 9
  {
    if v < 251 then [v]
    else if v < 0x1_0000 then [252] + LEBytes(v, 2)
    else if v < 0x100_0000 then [253] + LEBytes(v, 3)
    else [254] + LEBytes(v, 8)
  }

  lemma {:induction false} LEPrefix(v: nat, j: nat, k: nat)
    requires j <= k
    ensures LEBytes(v, k)[..j] == LEBytes(v, j)
    decreases j
  {
    if j > 0 {
      LEPrefix(v / 256, j - 1, k - 1);
    }
  }

  lemma LowHalf(m: seq<byte>, p: nat, v: nat)
    requires Holds(m, p, LEBytes(v, 8))
    ensures LE(m, p, 4) == v % Pow(256, 4)
  {
    hide LE, LEBytes, Holds, Pow;
    LEPrefix(v, 4, 8);
    assert LEBytes(v, 8) == LEBytes(v, 4) + LEBytes(v, 8)[4..];
    HoldsConcat(m, p, LEBytes(v, 4), LEBytes(v, 8)[4..]);
    LERoundTrip(m, p, 4, v);
  }

  /** A printed number is read back, and its bytes skipped, exactly when it is below 2^32. */
  lemma LengthRoundTrip(m: seq<byte>, p: nat, v: uint64)
    requires Holds(m, p, PrintLength(v))
    ensures NetFieldLength(m, p).ptr == p + |PrintLength(v)|
    ensures NetFieldLength(m, p).value == v <==> v < TWO32
  {
    hide LE, LEBytes, Holds, At, Pow;
    HoldsAt(m, p, PrintLength(v), 0);
    if v >= 251 {
      var w := if v < 0x1_0000 then 2 else if v < 0x100_0000 then 3 else 8;
      HoldsConcat(m, p, [PrintLength(v)[0]], LEBytes(v, w));
      if w == 8 {
        LowHalf(m, p + 1, v);
        LEBelow32(m, p + 1, 4);
        Pow256Values();
      } else {
        LERoundTrip(m, p + 1, w, v);
        Pow256Values();
      }
    }
  }

  // ---------------------------------------------------------------- the event

  predicate IsUpdateType(t: byte) { t == UPDATE_ROWS_EVENT || t == UPDATE_ROWS_V2_EVENT }

  predicate IsV2Type(t: byte) { t == WRITE_ROWS_V2_EVENT || t == UPDATE_ROWS_V2_EVENT || t == DELETE_ROWS_V2_EVENT }

  /** A tuned rows event: the body is the `len` bytes at `data` of the packet `mem`. */
  datatype RowsEvent = RowsEvent(etype: byte, flags: nat, tableId: uint64, ncolumns: uint64,
                                 used: uint64, after: uint64, mem: seq<byte>, data: nat, len: uint64) {
    predicate IsUpdate() { IsUpdateType(etype) }

    /** An iteration of the row loop consumes something. */
    predicate Advances() {
      1 <= MaskCount(used) <= 48 || (IsUpdate() && 1 <= MaskCount(after) <= 48)
    }

    /** The row loop, with `n` bytes left, comes to an end: nothing is left, `n` has wrapped, or bytes are consumed. */
    predicate EndsFrom(n: uint64) { n == 0 || n >= 0x8000_0000_0000_0000 || Advances() }

    predicate Ends() { EndsFrom(len) }
  }

  /** The fixed part of the event, up to the bitmaps. */
  datatype RowsHead = RowsHead(etype: byte, flags: nat, tableId: uint64, ncolumns: uint64, ptr: nat)

  function ParseHead(m: seq<byte>): (h: RowsHead)
    ensures HEADER_LEN <= h.ptr
  {
    var etype := At(m, EVENT_TYPE_OFFSET);
    var p := HEADER_LEN + 8;
    var n := NetFieldLength(m, if IsV2Type(etype) then p + 2 + (LE(m, p, 2) - 2) % 65536 else p);
    MaskBound(m, HEADER_LEN, 6);
    RowsHead(etype, LE(m, HEADER_LEN + 6, 2), LE(m, HEADER_LEN, 6), n.value, n.ptr)
  }

  /** A V2 event with an extra length below 2, which counts its own two bytes, sends the reader 64 KB ahead. */
  lemma ShortExtra(m: seq<byte>)
    requires 30 <= At(m, 4) <= 32 && LE(m, 27, 2) < 2
    ensures ParseHead(m).ptr >= 29 + 65534
  {
    hide LE, At;
  }

  /** A column count of NULL is the largest of all, and has no bitmap. */
  lemma NullCount(m: seq<byte>, p: nat, ptr: nat, len: uint64)
    requires At(m, p) == 251
    ensures var n := NetFieldLength(m, p);
      n.ptr == p + 1 && n.value == TWO64 - 1 && ColumnMask(m, ptr, len, n.value).mask == MINUS_ONE
  {
    hide LE;
  }

  /** Bytes from the end of the common header to the end of the body, without the checksum. */
  function PayloadLen(size: uint64, useChecksum: bool): uint64 {
    if useChecksum then Sub64(Sub64(size, HEADER_LEN), 4) else Sub64(size, HEADER_LEN)
  }

  /** The bitmaps after the head, and what is left for the rows; `None` when a bitmap cannot be read. */
  function ParseBody(m: seq<byte>, h: RowsHead, payload: uint64): Option<RowsEvent> {
    var before := ColumnMask(m, h.ptr, 0, h.ncolumns);
    if before.mask == MINUS_ONE then None
    else if IsUpdateType(h.etype) then
      var after := ColumnMask(m, before.ptr, 0, h.ncolumns);
      if after.mask == MINUS_ONE then None
      else Some(RowsEvent(h.etype, h.flags, h.tableId, h.ncolumns, PackCount(before.mask), PackCount(after.mask),
                          m, after.ptr, Sub64(payload, after.ptr - HEADER_LEN)))
    else Some(RowsEvent(h.etype, h.flags, h.tableId, h.ncolumns, PackCount(before.mask), 0,
                        m, before.ptr, Sub64(payload, before.ptr - HEADER_LEN)))
  }

  function ParseRows(m: seq<byte>, size: uint64, useChecksum: bool): Option<RowsEvent> {
    ParseBody(m, ParseHead(m), PayloadLen(size, useChecksum))
  }

  /** The row loop of a tuned event makes progress exactly when one of the bitmaps it uses has a bit set. */
  lemma ParsedAdvances(m: seq<byte>, size: uint64, useChecksum: bool)
    requires ParseRows(m, size, useChecksum).Some?
    ensures var ev, h := ParseRows(m, size, useChecksum).value, ParseHead(m);
      var before := ColumnMask(m, h.ptr, 0, h.ncolumns);
      ev.Advances() <==> before.mask != 0 || (ev.IsUpdate() && ColumnMask(m, before.ptr, 0, h.ncolumns).mask != 0)
  {
    hide ParseHead, Popcount, PackCount, LE, MaskCount;
    var h := ParseHead(m);
    var before := ColumnMask(m, h.ptr, 0, h.ncolumns);
    ReadMaskCount(m, h.ptr, h.ncolumns);
    if IsUpdateType(h.etype) {
      ReadMaskCount(m, before.ptr, h.ncolumns);
    }
  }

  lemma ReadMaskCount(m: seq<byte>, p: nat, n: uint64)
    requires ColumnMask(m, p, 0, n).mask != MINUS_ONE
    ensures var mask := ColumnMask(m, p, 0, n).mask;
      MaskCount(PackCount(mask)) <= 48 && (MaskCount(PackCount(mask)) == 0 <==> mask == 0)
  {
    hide LE, PackCount, MaskCount, MaskBits, Bit;
    MaskBound(m, p, if BitmapWidth(n) <= 6 then BitmapWidth(n) else 6);
    var mask := ColumnMask(m, p, 0, n).mask;
    PackedMask(mask, 0);
    if mask > 0 {
      PopcountPositive(mask);
    }
  }

  /** The event object, which the dispatcher reuses from one event to the next. */
  class RowLogEvent {
    var buffer: seq<byte>
    var etype: byte
    var rowFlags: nat
    var tableId: uint64
    var extraDataLen: nat
    var ncolumns: uint64
    var usedColumnsMask: uint64
    var usedColumnsAfterimageMask: uint64
    var data: nat
    var len: uint64
    var valid: bool

    constructor ()
      ensures !valid
    {
      valid := false;
    }

    function View(): RowsEvent
      reads this
    {
      RowsEvent(etype, rowFlags, tableId, ncolumns, usedColumnsMask,
                if IsUpdateType(etype) then usedColumnsAfterimageMask else 0, buffer, data, len)
    }

    /** Fails, leaving the event invalid, exactly when `ParseRows` does; what the object held before is forgotten. */
    method Tune(m: seq<byte>, size: uint64, useChecksum: bool) returns (rc: int)
      modifies this
      ensures valid <==> ParseRows(m, size, useChecksum).Some?
      ensures rc == if valid then 0 else -1
      ensures valid ==> Some(View()) == ParseRows(m, size, useChecksum)
    {
      valid := false;
      var p := TuneHead(m);
      var payload := Sub64(size, HEADER_LEN);
      if useChecksum {
        payload := Sub64(payload, 4);
      }
      rc := TuneBody(m, p, payload);
    }

    method TuneHead(m: seq<byte>) returns (p: nat)
      modifies `buffer, `etype, `rowFlags, `tableId, `extraDataLen, `ncolumns
      ensures buffer == m && RowsHead(etype, rowFlags, tableId, ncolumns, p) == ParseHead(m)
    {
      buffer := m;
      etype := At(m, EVENT_TYPE_OFFSET);
      p := HEADER_LEN;
      MaskBound(m, p, 6);
      tableId := LE(m, p, 6);
      p := p + 6;
      rowFlags := LE(m, p, 2);
      p := p + 2;
      if IsV2Type(etype) {
        extraDataLen := (LE(m, p, 2) - 2) % 65536;
        p := p + 2 + extraDataLen;
      } else {
        extraDataLen := 0;
      }
      var n := NetFieldLength(m, p);
      ncolumns := n.value;
      p := n.ptr;
    }

    method TuneBody(m: seq<byte>, start: nat, payload: uint64) returns (rc: int)
      requires !valid && HEADER_LEN <= start && buffer == m
      modifies `usedColumnsMask, `usedColumnsAfterimageMask, `data, `len, `valid
      ensures rc == if valid then 0 else -1
      ensures var h := RowsHead(etype, rowFlags, tableId, ncolumns, start);
        if valid then Some(View()) == ParseBody(m, h, payload) else ParseBody(m, h, payload).None?
    {
      var mask := ColumnMask(m, start, 0, ncolumns);
      if mask.mask == MINUS_ONE {
        return -1;
      }
      usedColumnsMask := UpdateN1Bits(mask.mask);
      if IsUpdateType(etype) {
        mask := ColumnMask(m, mask.ptr, 0, ncolumns);
        if mask.mask == MINUS_ONE {
          return -1;
        }
        usedColumnsAfterimageMask := UpdateN1Bits(mask.mask);
      }
      len := Sub64(payload, mask.ptr - HEADER_LEN);
      data := mask.ptr;
      valid := true;
      return 0;
    }
  }
}
