/** Events as the master frames them in packets, and what the tuning functions recover from the frames. */
module Framing {
  import opened Numbers
  import opened Memory
  import opened Bits
  import opened Values
  import opened EventCodes
  import opened RowEvents
  import opened TableMaps
  import opened Tables
  import opened RowImages

  /** The common header of an event, and the checksum bytes that end its packet. */
  datatype Header = Header(when: nat, serverId: nat, logPos: uint32, flags: nat, crc: seq<byte>)

  function PrintHeader(h: Header, etype: byte, size: nat): (s: seq<byte>)
    ensures |s| == HEADER_LEN
  {
    LEBytes(h.when, 4) + [etype] + LEBytes(h.serverId, 4) + LEBytes(size, 4) + LEBytes(h.logPos, 4)
    + LEBytes(h.flags, 2)
  }

  /** The common header, the event, and the checksum if there is one. */
  function PrintPacket(h: Header, etype: byte, payload: seq<byte>): seq<byte> {
    PrintHeader(h, etype, HEADER_LEN + |payload| + |h.crc|) + payload + h.crc
  }

  lemma HoldsAll(m: seq<byte>)
    ensures Holds(m, 0, m)
  {
  }

  lemma HoldsOne(m: seq<byte>, p: nat, b: byte)
    requires Holds(m, p, [b])
    ensures At(m, p) == b
  {
    HoldsAt(m, p, [b], 0);
  }

  /** Every field of the header is where it is read. */
  lemma HeaderRoundTrip(m: seq<byte>, h: Header, etype: byte, size: nat)
    requires Holds(m, 0, PrintHeader(h, etype, size)) && size < TWO32
    ensures At(m, 4) == etype && LE(m, 9, 4) == size && LE(m, 13, 4) == h.logPos
  {
    hide LE, LEBytes, Holds, At;
    var a, b, c, d, e, f := LEBytes(h.when, 4), [etype], LEBytes(h.serverId, 4), LEBytes(size, 4),
                            LEBytes(h.logPos, 4), LEBytes(h.flags, 2);
    HoldsConcat(m, 0, a + b + c + d + e, f);
    HoldsConcat(m, 0, a + b + c + d, e);
    HoldsConcat(m, 0, a + b + c, d);
    HoldsConcat(m, 0, a + b, c);
    HoldsConcat(m, 0, a, b);
    HoldsOne(m, 4, etype);
    Pow256Values();
    LERoundTrip(m, 9, 4, size);
    LERoundTrip(m, 13, 4, h.logPos);
  }

  /** The packet: its own length is in the header, and the payload follows. */
  lemma PacketRoundTrip(h: Header, etype: byte, payload: seq<byte>)
    requires HEADER_LEN + |payload| + |h.crc| < TWO32
    ensures var m := PrintPacket(h, etype, payload);
      && |m| == HEADER_LEN + |payload| + |h.crc|
      && At(m, 4) == etype && LE(m, 9, 4) == |m| && LE(m, 13, 4) == h.logPos
      && Holds(m, HEADER_LEN, payload)
      && m[..HEADER_LEN + |payload|] == PrintHeader(h, etype, |m|) + payload
  {
    hide LE, LEBytes, Holds, At, PrintHeader;
    var m := PrintPacket(h, etype, payload);
    var head := PrintHeader(h, etype, |m|);
    HoldsAll(m);
    assert m == head + payload + h.crc;
    HoldsConcat(m, 0, head + payload, h.crc);
    HoldsConcat(m, 0, head, payload);
    HeaderRoundTrip(m, h, etype, |m|);
    assert (head + payload + h.crc)[..|head + payload|] == head + payload;
  }

  // ---------------------------------------------------------------- table maps

  predicate NulFree(s: seq<byte>) { 0 !in s }

  /** A map that can be written: its names fit the reader's buffers of 255 bytes, its counts are below 2^32. */
  predicate MapPrintable(tm: TableMap) {
    && tm.id < 0x1_0000_0000_0000
    && |tm.db| < 255 && |tm.name| < 255 && NulFree(tm.db) && NulFree(tm.name)
    && |tm.types| < TWO32 && |tm.metadata| < TWO32
  }

  function PrintName(s: seq<byte>): seq<byte>
    requires |s| < 256
  {
    [|s|] + s + [0]
  }

  /** `tail` is what follows the metadata: the bitmap of nullable columns and any later additions. */
  function PrintMap(tm: TableMap, flags: nat, tail: seq<byte>): seq<byte>
    requires MapPrintable(tm)
  {
    LEBytes(tm.id, 6) + (LEBytes(flags, 2) + (PrintName(tm.db) + (PrintName(tm.name)
      + (PrintLength(|tm.types|) + tm.types + (PrintLength(|tm.metadata|) + tm.metadata + tail)))))
  }

  lemma {:induction false} CStringRoundTrip(m: seq<byte>, p: nat, s: seq<byte>)
    requires NulFree(s) && Holds(m, p, s + [0])
    ensures CString(m, p) == s
    decreases |s|
  {
    HoldsAt(m, p, s + [0], 0);
    if s != [] {
      assert s + [0] == [s[0]] + (s[1..] + [0]);
      HoldsConcat(m, p, [s[0]], s[1..] + [0]);
      CStringRoundTrip(m, p + 1, s[1..]);
      assert s == [s[0]] + s[1..];
      assert m[p] == s[0];
    }
  }

  lemma NameRoundTrip(m: seq<byte>, p: nat, s: seq<byte>)
    requires |s| < 256 && NulFree(s) && Holds(m, p, PrintName(s))
    ensures At(m, p) == |s| && CString(m, p + 1) == s && |PrintName(s)| == |s| + 2
  {
    assert PrintName(s) == [|s|] + (s + [0]);
    hide Holds, CString;
    HoldsConcat(m, p, [|s|], s + [0]);
    HoldsOne(m, p, |s|);
    CStringRoundTrip(m, p + 1, s);
  }

  lemma ListRoundTrip(m: seq<byte>, p: nat, s: seq<byte>, rest: seq<byte>)
    requires |s| < TWO32 && Holds(m, p, PrintLength(|s|) + s + rest)
    ensures var n := NetFieldLength(m, p);
      n.value == |s| && n.ptr == p + |PrintLength(|s|)| && Slice(m, n.ptr, |s|) == s && Holds(m, n.ptr + |s|, rest)
  {
    hide Holds, NetFieldLength, PrintLength, Slice;
    HoldsConcat(m, p, PrintLength(|s|) + s, rest);
    HoldsConcat(m, p, PrintLength(|s|), s);
    LengthRoundTrip(m, p, |s|);
    HoldsSlice(m, p + |PrintLength(|s|)|, s);
  }

  lemma Pieces5(m: seq<byte>, p: nat, a: seq<byte>, b: seq<byte>, c: seq<byte>, d: seq<byte>, e: seq<byte>)
    requires Holds(m, p, a + (b + (c + (d + e))))
    ensures Holds(m, p, a) && Holds(m, p + |a|, b) && Holds(m, p + |a| + |b|, c)
    ensures Holds(m, p + |a| + |b| + |c|, d) && Holds(m, p + |a| + |b| + |c| + |d|, e)
  {
    hide Holds;
    HoldsConcat(m, p, a, b + (c + (d + e)));
    HoldsConcat(m, p + |a|, b, c + (d + e));
    HoldsConcat(m, p + |a| + |b|, c, d + e);
    HoldsConcat(m, p + |a| + |b| + |c|, d, e);
  }

  /** The pieces of a printed map. */
  lemma MapPieces(m: seq<byte>, tm: TableMap, flags: nat, tail: seq<byte>)
    requires MapPrintable(tm) && Holds(m, HEADER_LEN, PrintMap(tm, flags, tail))
    ensures var q := POST_HEADER + |PrintName(tm.db)|; var r := q + |PrintName(tm.name)|;
      && Holds(m, HEADER_LEN, LEBytes(tm.id, 6))
      && Holds(m, POST_HEADER, PrintName(tm.db)) && Holds(m, q, PrintName(tm.name))
      && Holds(m, r, PrintLength(|tm.types|) + tm.types
                     + (PrintLength(|tm.metadata|) + tm.metadata + tail))
  {
    hide Holds, LEBytes, PrintName, PrintLength;
    Pieces5(m, HEADER_LEN, LEBytes(tm.id, 6), LEBytes(flags, 2), PrintName(tm.db), PrintName(tm.name),
            PrintLength(|tm.types|) + tm.types + (PrintLength(|tm.metadata|) + tm.metadata + tail));
  }

  /** A printed map is parsed back, and the static accessors agree with the parsed fields. */
  lemma MapRoundTrip(m: seq<byte>, tm: TableMap, flags: nat, tail: seq<byte>)
    requires MapPrintable(tm) && Holds(m, HEADER_LEN, PrintMap(tm, flags, tail))
    ensures ParseMap(m) == tm
    ensures MapId(m) == tm.id && MapDatabase(m) == tm.db && MapTable(m) == tm.name
  {
    hide Holds, LEBytes, PrintName, PrintLength, PrintMap, CString, NetFieldLength, Slice, LE, At;
    MapPieces(m, tm, flags, tail);
    var p := POST_HEADER;
    var q := p + |PrintName(tm.db)|;
    var r := q + |PrintName(tm.name)|;
    NameRoundTrip(m, p, tm.db);
    NameRoundTrip(m, q, tm.name);
    Pow256Values();
    LERoundTrip(m, HEADER_LEN, 6, tm.id);
    var meta := PrintLength(|tm.metadata|) + tm.metadata + tail;
    ListRoundTrip(m, r, tm.types, meta);
    var n := NetFieldLength(m, r);
    ListRoundTrip(m, n.ptr + n.value, tm.metadata, tail);
  }

  // ---------------------------------------------------------------- rows events

  /** The head of a rows event: ids, the V2 extra data, and the two column bitmaps up to their last byte. */
  datatype RowsFrame = RowsFrame(id: nat, flags: nat, extra: seq<byte>, used: seq<bool>, afterUsed: seq<bool>)

  predicate BitmapOk(bits: seq<bool>, n: nat) { 1 <= n <= 48 && |bits| == 8 * Bytes(n) }

  predicate FramePrintable(f: RowsFrame, n: nat) {
    && f.id < 0x1_0000_0000_0000 && f.flags < 65536 && |f.extra| + 2 < 65536
    && BitmapOk(f.used, n) && BitmapOk(f.afterUsed, n)
  }

  /** The first `k` of `n` columns, and set bits that round up to as many bytes as `k`. */
  predicate LeadingBits(bits: seq<bool>, k: nat, n: nat) {
    && BitmapOk(bits, n) && 1 <= k <= n
    && (forall i | 0 <= i < k :: bits[i]) && (forall i | k <= i < n :: !bits[i])
    && Bytes(Trues(bits)) == Bytes(k)
  }

  /** The bitmaps are those of images of the first `k` columns, and of the first `k'` in new images. */
  predicate LeadingFrame(kind: Kind, f: RowsFrame, n: nat, k: nat, k': nat) {
    LeadingBits(f.used, k, n) && (kind == Update ==> LeadingBits(f.afterUsed, k', n))
  }

  /** The bitmaps have every column; nothing is said of the bits past the last one. */
  predicate FullFrame(kind: Kind, f: RowsFrame, n: nat) {
    && FramePrintable(f, n) && (forall i | 0 <= i < n :: f.used[i])
    && (kind == Update ==> forall i | 0 <= i < n :: f.afterUsed[i])
  }

  function PrintBitmap(bits: seq<bool>): seq<byte> { LEBytes(BitsVal(bits), Bytes(|bits|)) }

  function PrintExtra(v2: bool, f: RowsFrame): seq<byte> {
    if v2 then LEBytes(|f.extra| + 2, 2) + f.extra else []
  }

  function PrintMasks(kind: Kind, f: RowsFrame): seq<byte> {
    PrintBitmap(f.used) + (if kind == Update then PrintBitmap(f.afterUsed) else [])
  }

  function PrintRows(kind: Kind, v2: bool, f: RowsFrame, n: uint64, body: seq<byte>): seq<byte> {
    LEBytes(f.id, 6) + LEBytes(f.flags, 2) + PrintExtra(v2, f) + PrintLength(n) + PrintMasks(kind, f) + body
  }

  /** What a printed bitmap is as a number. */
  lemma BitmapValue(bits: seq<bool>, n: nat)
    requires BitmapOk(bits, n)
    ensures var mask := BitsVal(bits);
      && mask < 0x1_0000_0000_0000 && mask < Pow(2, 8 * Bytes(n)) && Popcount(mask) == Trues(bits)
      && forall i | 0 <= i < |bits| :: Bit(mask, i) <==> bits[i]
  {
    hide Bit, BitsVal, Pow, Popcount, Trues;
    BitsValBound(bits);
    PowMono(2, 8 * Bytes(n), 48);
    Pow2Of64();
    PopcountBits(bits);
    forall i | 0 <= i < |bits|
      ensures Bit(BitsVal(bits), i) <==> bits[i]
    {
      BitsValBit(bits, i);
    }
  }

  /** The condition on the bits is the one the reader needs of the mask. */
  lemma LeadingValue(bits: seq<bool>, k: nat, n: nat)
    requires BitmapOk(bits, n)
    ensures BitsVal(bits) < TWO64 && (LeadingMask(BitsVal(bits), k, n) <==> LeadingBits(bits, k, n))
  {
    hide Bit, BitsVal, Pow, Popcount, Trues;
    BitmapValue(bits, n);
  }

  /** With all columns in the bitmap, the bits past the last one may be anything. */
  lemma FullBitsLead(bits: seq<bool>, n: nat)
    requires BitmapOk(bits, n) && forall i | 0 <= i < n :: bits[i]
    ensures LeadingBits(bits, n, n)
  {
    hide Bit, BitsVal, Pow, Popcount, Trues, LeadingMask, LeadingBits;
    BitmapValue(bits, n);
    FullIsLeading(BitsVal(bits), n);
    LeadingValue(bits, n, n);
  }

  lemma FullFrameLeads(kind: Kind, f: RowsFrame, n: nat)
    requires FullFrame(kind, f, n)
    ensures LeadingFrame(kind, f, n, n, n)
  {
    hide LeadingBits;
    FullBitsLead(f.used, n);
    if kind == Update {
      FullBitsLead(f.afterUsed, n);
    }
  }

  lemma MaskRoundTrip(m: seq<byte>, p: nat, bits: seq<bool>, n: uint64)
    requires BitmapOk(bits, n) && Holds(m, p, PrintBitmap(bits))
    ensures BitsVal(bits) < 0x1_0000_0000_0000 && ColumnMask(m, p, 0, n).mask == BitsVal(bits)
    ensures ColumnMask(m, p, 0, n).ptr == p + Bytes(n) == p + |PrintBitmap(bits)|
  {
    hide BitsVal, Pow, LE, LEBytes, Holds, BitmapWidth, Trues, Popcount, Bit;
    BitmapValue(bits, n);
    assert Bytes(|bits|) == Bytes(n);
    BitsValBound(bits);
    Pow256(Bytes(n));
    LERoundTrip(m, p, Bytes(n), BitsVal(bits));
    WidthIsExact(n);
  }

  /** The head of a printed rows event. */
  lemma HeadRoundTrip(m: seq<byte>, kind: Kind, v2: bool, f: RowsFrame, n: uint64, body: seq<byte>)
    requires FramePrintable(f, n) && At(m, EVENT_TYPE_OFFSET) == Code(kind, v2)
    requires Holds(m, HEADER_LEN, PrintRows(kind, v2, f, n, body))
    ensures var p := HEADER_LEN + 8 + |PrintExtra(v2, f)| + |PrintLength(n)|;
      && ParseHead(m) == RowsHead(Code(kind, v2), f.flags, f.id, n, p)
      && Holds(m, p, PrintMasks(kind, f) + body)
  {
    hide Holds, LEBytes, PrintLength, PrintMasks, NetFieldLength, LE, At;
    var a, b, c, d := LEBytes(f.id, 6), LEBytes(f.flags, 2), PrintExtra(v2, f), PrintLength(n);
    var e := PrintMasks(kind, f) + body;
    assert PrintRows(kind, v2, f, n, body) == a + (b + (c + (d + e)));
    HoldsConcat(m, HEADER_LEN, a, b + (c + (d + e)));
    HoldsConcat(m, HEADER_LEN + 6, b, c + (d + e));
    HoldsConcat(m, HEADER_LEN + 8, c, d + e);
    HoldsConcat(m, HEADER_LEN + 8 + |c|, d, e);
    Pow256Values();
    LERoundTrip(m, HEADER_LEN, 6, f.id);
    LERoundTrip(m, HEADER_LEN + 6, 2, f.flags);
    if v2 {
      HoldsConcat(m, HEADER_LEN + 8, LEBytes(|f.extra| + 2, 2), f.extra);
      LERoundTrip(m, HEADER_LEN + 8, 2, |f.extra| + 2);
    }
    LengthRoundTrip(m, HEADER_LEN + 8 + |c|, n);
  }

  /** The masks of a printed rows event, packed with their counts, and the body: all that the head leaves. */
  lemma BodyRoundTrip(m: seq<byte>, kind: Kind, v2: bool, h: RowsHead, f: RowsFrame, body: seq<byte>, payload: uint64)
    requires h.etype == Code(kind, v2) && FramePrintable(f, h.ncolumns) && HEADER_LEN <= h.ptr
    requires Holds(m, h.ptr, PrintMasks(kind, f) + body)
    requires payload == h.ptr - HEADER_LEN + |PrintMasks(kind, f)| + |body|
    ensures var n := h.ncolumns;
      var before, after := BitsVal(f.used), BitsVal(f.afterUsed);
      && before < TWO64 && after < TWO64
      && var data := h.ptr + |PrintMasks(kind, f)|;
        && ParseBody(m, h, payload) == Some(RowsEvent(h.etype, h.flags, h.tableId, h.ncolumns, PackCount(before),
             if kind == Update then PackCount(after) else 0, m, data, |body|))
        && Holds(m, data, body)
  {
    hide Holds, BitsVal, PackCount, ColumnMask, PrintBitmap, Popcount, Trues, Bit, Pow;
    var n := h.ncolumns;
    var x, y := PrintBitmap(f.used), PrintBitmap(f.afterUsed);
    BitmapValue(f.used, n);
    BitmapValue(f.afterUsed, n);
    HoldsConcat(m, h.ptr, PrintMasks(kind, f), body);
    if kind == Update {
      HoldsConcat(m, h.ptr, x, y);
      MaskRoundTrip(m, h.ptr, f.used, n);
      MaskRoundTrip(m, h.ptr + |x|, f.afterUsed, n);
    } else {
      assert x + [] == x;
      MaskRoundTrip(m, h.ptr, f.used, n);
    }
    SmallMod(|body|, TWO64);
  }

  /** What is left of the packet for the masks and the body. */
  lemma RowsLength(m: seq<byte>, kind: Kind, v2: bool, f: RowsFrame, n: uint64, body: seq<byte>, useChecksum: bool)
    requires |m| == HEADER_LEN + |PrintRows(kind, v2, f, n, body)| + (if useChecksum then 4 else 0) < TWO32
    ensures PayloadLen(|m|, useChecksum) ==
      8 + |PrintExtra(v2, f)| + |PrintLength(n)| + |PrintMasks(kind, f)| + |body|
    ensures HEADER_LEN == 19 && EVENT_TYPE_OFFSET == 4 && |m| < 0x1_0000_0000
  {
    hide LEBytes, PrintExtra, PrintLength, PrintMasks;
  }

  lemma ParsedInParts(m: seq<byte>, useChecksum: bool)
    requires |m| < TWO32
    ensures ParseRows(m, |m|, useChecksum) == ParseBody(m, ParseHead(m), PayloadLen(|m|, useChecksum))
  {
    hide ParseHead, ParseBody;
  }

  /** Framing round trip: tuning a printed rows event recovers its id, its masks, and exactly its body. */
  lemma RowsFrameRoundTrip(m: seq<byte>, kind: Kind, v2: bool, f: RowsFrame, n: uint64, body: seq<byte>,
                           useChecksum: bool)
    requires FramePrintable(f, n) && At(m, EVENT_TYPE_OFFSET) == Code(kind, v2)
    requires Holds(m, HEADER_LEN, PrintRows(kind, v2, f, n, body))
    requires |m| == HEADER_LEN + |PrintRows(kind, v2, f, n, body)| + (if useChecksum then 4 else 0) < TWO32
    ensures var before, after := BitsVal(f.used), BitsVal(f.afterUsed);
      && before < TWO64 && after < TWO64
      && var r := ParseRows(m, |m|, useChecksum);
        && r.Some? && r.value.etype == Code(kind, v2) && r.value.flags == f.flags && r.value.tableId == f.id
        && r.value.ncolumns == n && r.value.used == PackCount(before)
        && (kind == Update ==> r.value.after == PackCount(after))
        && r.value.mem == m && r.value.len == |body| && Holds(m, r.value.data, body)
  {
    hide *;
    HeadRoundTrip(m, kind, v2, f, n, body);
    RowsLength(m, kind, v2, f, n, body, useChecksum);
    BodyRoundTrip(m, kind, v2, ParseHead(m), f, body, PayloadLen(|m|, useChecksum));
    ParsedInParts(m, useChecksum);
  }

  /**
   * A whole rows event, images of the first columns of its table: tuned, and its body read, it yields the rows that
   * were printed.
   */
  lemma RowsEventRoundTrip(m: seq<byte>, kind: Kind, v2: bool, f: RowsFrame, tm: TableMap, k: nat, k': nat,
                           cs: seq<Change>, useChecksum: bool, row: Row)
    requires LayoutOk(tm) && FramePrintable(f, |tm.types|) && LeadingFrame(kind, f, |tm.types|, k, k')
    requires ChangesOk(tm, kind == Update, cs, k, k') && |row| == |tm.types|
    requires var e := PrintRows(kind, v2, f, |tm.types|, PrintChanges(tm, kind == Update, cs));
      && At(m, EVENT_TYPE_OFFSET) == Code(kind, v2) && Holds(m, HEADER_LEN, e)
      && |m| == HEADER_LEN + |e| + (if useChecksum then 4 else 0) < TWO32
    ensures ParseRows(m, |m|, useChecksum).Some?
    ensures var ev := ParseRows(m, |m|, useChecksum).value;
      ev.Advances() && RowsBack(tm, m, kind == Update, cs, ReadRows(tm, ev, row, ev.data, ev.len))
  {
    hide Holds, PrintRows, PrintChanges, PackCount, BitsVal, LeadingMask, LeadingBits, BitmapOk, ParseRows, At;
    hide ChangesOk, RowsBack, ReadRows, Supported, MetaAt;
    var n := |tm.types|;
    var body := PrintChanges(tm, kind == Update, cs);
    RowsFrameRoundTrip(m, kind, v2, f, n, body, useChecksum);
    BodyInEvent(kind, v2, f, n, body);
    var ev := ParseRows(m, |m|, useChecksum).value;
    LeadingValue(f.used, k, n);
    LeadingValue(f.afterUsed, k', n);
    RowsRoundTrip(tm, ev, BitsVal(f.used), BitsVal(f.afterUsed), k, k', cs, row, ev.data, ev.len);
  }

  lemma BodyInEvent(kind: Kind, v2: bool, f: RowsFrame, n: uint64, body: seq<byte>)
    ensures |body| <= |PrintRows(kind, v2, f, n, body)|
  {
    hide PrintMasks, PrintExtra, PrintLength;
  }

  /** The same for full images, whatever the bits past the last column of either bitmap. */
  lemma FullRowsRoundTrip(m: seq<byte>, kind: Kind, v2: bool, f: RowsFrame, tm: TableMap, cs: seq<Change>,
                          useChecksum: bool, row: Row)
    requires LayoutOk(tm) && FullFrame(kind, f, |tm.types|)
    requires ChangesOk(tm, kind == Update, cs, |tm.types|, |tm.types|) && |row| == |tm.types|
    requires var e := PrintRows(kind, v2, f, |tm.types|, PrintChanges(tm, kind == Update, cs));
      && At(m, EVENT_TYPE_OFFSET) == Code(kind, v2) && Holds(m, HEADER_LEN, e)
      && |m| == HEADER_LEN + |e| + (if useChecksum then 4 else 0) < TWO32
    ensures ParseRows(m, |m|, useChecksum).Some?
    ensures var ev := ParseRows(m, |m|, useChecksum).value;
      ev.Advances() && RowsBack(tm, m, kind == Update, cs, ReadRows(tm, ev, row, ev.data, ev.len))
  {
    hide *;
    FullFrameLeads(kind, f, |tm.types|);
    FullFramePrints(kind, f, |tm.types|);
    RowsEventRoundTrip(m, kind, v2, f, tm, |tm.types|, |tm.types|, cs, useChecksum, row);
  }

  lemma FullFramePrints(kind: Kind, f: RowsFrame, n: nat)
    requires FullFrame(kind, f, n)
    ensures FramePrintable(f, n) && n <= 48
  {
  }
}
