/**
 * Columns as they are declared. A table map says of each its type and, in one block for all of them, its metadata;
 * `update_row` cuts the block up again with `calc_metadata_size`.
 */
module Columns {
  import opened Numbers
  import opened Memory
  import opened Values
  import opened RowEvents
  import opened TableMaps
  import opened Tables
  import opened RowImages

  datatype Column =
    | Integer(bytes: nat) | Float | Double
    | Year | Date | Time | DateTime | Timestamp
    | DateTime2(digits: nat) | Timestamp2
    | Number(precision: nat, scale: nat)
    | BitField(bits: nat)
    | VarChar(max: nat) | Chars(max: nat) | Blob(lengthBytes: nat)
    | Enum(bytes: nat) | Set(bytes: nat)
  {
    predicate Ok() {
      match this
      case Integer(k) => k == 1 || k == 2 || k == 3 || k == 4 || k == 8
      case DateTime2(d) => d <= 6
      case Number(p, s) => s <= p && 1 <= p <= 255
      case BitField(n) => 1 <= n <= 64
      case VarChar(n) => n < 65536
      case Chars(n) => n < 256
      case Blob(k) => 1 <= k <= 4
      case Enum(k) => 1 <= k <= 2
      case Set(k) => 1 <= k <= 8
      case _ => true
    }

    /** The type that the master writes for the column. */
    function Type(): byte {
      match this
      case Integer(k) => if k == 1 then 1 else if k == 2 then 2 else if k == 3 then 9 else if k == 4 then 3 else 8
      case Float => 4
      case Double => 5
      case Year => 13
      case Date => 10
      case Time => 11
      case DateTime => 12
      case Timestamp => 7
      case DateTime2(_) => 18
      case Timestamp2 => 17
      case Number(_, _) => 246
      case BitField(_) => 16
      case VarChar(_) => 15
      case Blob(_) => 252
      case Chars(_) => 254
      case Enum(_) => 254
      case Set(_) => 254
    }

    /** What the master writes into the metadata block. */
    function Metadata(): seq<byte>
      requires Ok()
    {
      match this
      case Float => [4]
      case Double => [8]
      case DateTime2(d) => [d]
      case Timestamp2 => [0]
      case Number(p, s) => [p, s]
      case BitField(n) => [n % 8, n / 8]
      case VarChar(n) => [n % 256, n / 256]
      case Blob(k) => [k]
      case Chars(n) => [254, n]
      case Enum(k) => [247, k]
      case Set(k) => [248, k]
      case _ => []
    }

    /** The type that a value of the column is read as. */
    function ReadType(): byte {
      match this
      case Enum(_) => 247
      case Set(_) => 248
      case _ => Type()
    }

    /** Bytes of the length that the master writes before a value. */
    function LengthBytes(): nat {
      match this
      case VarChar(n) => if n < 256 then 1 else 2
      case Chars(_) => 1
      case Blob(k) => k
      case _ => 0
    }

    /** The values of the column, as bytes. */
    predicate Admits(payload: seq<byte>)
      requires Ok()
    {
      match this
      case Integer(k) => |payload| == k
      case Float => |payload| == 4
      case Double => |payload| == 8
      case Year => |payload| == 1
      case Date => |payload| == 3
      case Time => |payload| == 3
      case DateTime => |payload| == 8
      case Timestamp => |payload| == 4
      case DateTime2(d) => |payload| == 5 + (d + 1) / 2
      case Timestamp2 => |payload| == 4
      case Number(p, s) =>
        |payload| == 4 * ((p - s) / 9) + ((p - s) % 9 + 1) / 2 + 4 * (s / 9) + (s % 9 + 1) / 2
      case BitField(n) => |payload| == (n + 7) / 8
      case VarChar(n) => |payload| <= n
      case Chars(n) => |payload| <= n
      case Blob(k) => |payload| < Pow(256, k) && k + |payload| < TWO32
      case Enum(k) => |payload| == k
      case Set(k) => |payload| == k
    }
  }

  predicate AllOk(cs: seq<Column>) { forall i | 0 <= i < |cs| :: cs[i].Ok() }

  function Types(cs: seq<Column>): seq<byte> { seq<byte>(|cs|, i requires 0 <= i < |cs| => cs[i].Type()) }

  function Block(cs: seq<Column>): seq<byte>
    requires AllOk(cs)
  {
    if cs == [] then [] else Block(cs[..|cs| - 1]) + cs[|cs| - 1].Metadata()
  }

  /** The layout in a table map says what was declared. */
  ghost predicate Declares(tm: TableMap, cs: seq<Column>)
    requires AllOk(cs)
  {
    tm.types == Types(cs) && tm.metadata == Block(cs)
  }

  lemma MetadataFits(c: Column)
    requires c.Ok()
    ensures |c.Metadata()| == MetadataSize(c.Type())
  {
  }

  lemma BlockStep(cs: seq<Column>, i: nat)
    requires AllOk(cs) && i < |cs|
    ensures Block(cs[..i + 1]) == Block(cs[..i]) + cs[i].Metadata()
  {
    hide Column.Metadata;
    assert cs[..i + 1][..i] == cs[..i];
  }

  lemma {:induction false} BlockLength(cs: seq<Column>, i: nat)
    requires AllOk(cs) && i <= |cs|
    ensures |Block(cs[..i])| == MetaOffset(Types(cs), i)
    decreases i
  {
    hide MetadataSize, Column.Metadata, Column.Type;
    if i > 0 {
      BlockLength(cs, i - 1);
      MetadataFits(cs[i - 1]);
      BlockStep(cs, i - 1);
    }
  }

  lemma {:induction false} BlockPrefix(cs: seq<Column>, i: nat)
    requires AllOk(cs) && i <= |cs|
    ensures Block(cs[..i]) <= Block(cs)
    decreases |cs| - i
  {
    hide Block, Column.Metadata;
    if i < |cs| {
      BlockPrefix(cs, i + 1);
      BlockStep(cs, i);
    } else {
      assert cs[..i] == cs;
    }
  }

  /** Cutting the block up gives each column the metadata that was written for it. */
  lemma BlockHolds(tm: TableMap, cs: seq<Column>, i: nat)
    requires AllOk(cs) && i < |cs| && Declares(tm, cs)
    ensures Holds(tm.metadata, MetaOffset(tm.types, i), cs[i].Metadata())
  {
    hide Column.Metadata, Column.Type, MetaOffset, Types, Block;
    BlockPrefix(cs, i + 1);
    BlockLength(cs, i);
    BlockStep(cs, i);
    var whole, before, here := Block(cs), Block(cs[..i]), cs[i].Metadata();
    assert whole[..|before + here|] == before + here;
    assert whole[|before|..|before| + |here|] == (before + here)[|before|..] == here;
  }

  /** The number that a column's metadata bytes are read as. */
  function MetaValue(c: Column): uint32
    requires c.Ok()
  {
    var bs := c.Metadata();
    if bs == [] then 0
    else
      var low: int, high: int := bs[0], bs[|bs| - 1];
      if |bs| == 1 then low else low + 256 * high
  }

  lemma MetaRead(tm: TableMap, cs: seq<Column>, i: nat)
    requires AllOk(cs) && i < |cs| && Declares(tm, cs)
    ensures MetaAt(tm, i) == MetaValue(cs[i])
  {
    hide Holds, Block, Column.Metadata, Column.Type, MetaOffset, MetadataSize;
    BlockHolds(tm, cs, i);
    MetadataFits(cs[i]);
    assert tm.types[i] == cs[i].Type();
    var p, bs := MetaOffset(tm.types, i), cs[i].Metadata();
    MetadataShort(cs[i]);
    LE1(tm.metadata, p);
    LE2(tm.metadata, p);
    if |bs| > 0 {
      HoldsAt(tm.metadata, p, bs, 0);
    }
    if |bs| > 1 {
      HoldsAt(tm.metadata, p, bs, 1);
    }
  }

  lemma MetadataShort(c: Column)
    requires c.Ok()
    ensures |c.Metadata()| <= 2
  {
  }

  lemma ColumnSupported(c: Column)
    requires c.Ok()
    ensures Supported(c.Type(), MetaValue(c))
  {
  }

  /** Every declared table of up to 48 columns has a layout the reader understands, metadata and all. */
  lemma DeclaredLayout(tm: TableMap, cs: seq<Column>)
    requires AllOk(cs) && 1 <= |cs| <= 48 && Declares(tm, cs)
    ensures LayoutOk(tm)
  {
    hide Supported, Column.Type, Column.Metadata, MetaValue, MetaAt, Block;
    forall i | 0 <= i < |tm.types|
      ensures Supported(tm.types[i], MetaAt(tm, i))
    {
      MetaRead(tm, cs, i);
      ColumnSupported(cs[i]);
    }
  }

  lemma GroupWidth(d: nat)
    ensures DigitBytes(d % 9) == (d % 9 + 1) / 2
  {
  }

  /** The two metadata bytes of a column of two, taken apart again. */
  lemma MetaParts(low: byte, high: byte)
    ensures (low + 256 * high) % 256 == low && (low + 256 * high) / 256 == high
  {
    ModUnique(low + 256 * high, 256, high, low);
  }

  lemma NumberFits(c: Column, payload: seq<byte>)
    requires c.Ok() && c.Number? && c.Admits(payload)
    ensures Supported(c.Type(), MetaValue(c)) && Fits(c.Type(), MetaValue(c), payload)
  {
    hide *;
    ColumnSupported(c);
    NumberIs(c, payload);
    DecimalSizeParts(c.precision, c.scale);
    GroupWidth(c.precision - c.scale);
    GroupWidth(c.scale);
    MetaParts(c.precision, c.scale);
    FitsNumber(MetaValue(c), payload);
  }

  lemma NumberIs(c: Column, payload: seq<byte>)
    requires c.Ok() && c.Number? && c.Admits(payload)
    ensures var p, s := c.precision, c.scale;
      && 0 <= s <= p < 256 && MetaValue(c) == p + 256 * s && c.Type() == TYPE_NEWDECIMAL
      && |payload| == 4 * ((p - s) / 9) + ((p - s) % 9 + 1) / 2 + 4 * (s / 9) + (s % 9 + 1) / 2
  {
  }

  lemma FitsNumber(metadata: uint32, payload: seq<byte>)
    requires Supported(TYPE_NEWDECIMAL, metadata) && |payload| == DecimalSize(metadata % 256, metadata / 256)
    ensures Fits(TYPE_NEWDECIMAL, metadata, payload)
  {
    hide DecimalSize;
  }

  lemma PrefixedFits(c: Column, payload: seq<byte>)
    requires c.Ok() && (c.VarChar? || c.Chars? || c.Blob?) && c.Admits(payload)
    ensures Supported(c.Type(), MetaValue(c)) && Fits(c.Type(), MetaValue(c), payload)
  {
    ColumnSupported(c);
    hide Supported, Pow;
    Pow256Values();
  }

  lemma BitsFit(c: Column, payload: seq<byte>)
    requires c.Ok() && c.BitField? && c.Admits(payload)
    ensures Supported(c.Type(), MetaValue(c)) && Fits(c.Type(), MetaValue(c), payload)
  {
    ColumnSupported(c);
    hide DecimalSize, Supported;
    ModUnique(c.bits % 8 + 256 * (c.bits / 8), 256, c.bits / 8, c.bits % 8);
  }

  lemma ChoiceFits(c: Column, payload: seq<byte>)
    requires c.Ok() && (c.Enum? || c.Set?) && c.Admits(payload)
    ensures Supported(c.Type(), MetaValue(c)) && Fits(c.Type(), MetaValue(c), payload)
  {
    ColumnSupported(c);
    hide DecimalSize, Supported;
  }

  lemma PlainFits(c: Column, payload: seq<byte>)
    requires c.Ok() && c.Admits(payload)
    requires c.Integer? || c.Float? || c.Double? || c.Year? || c.Date? || c.Time? || c.DateTime? || c.Timestamp?
      || c.DateTime2? || c.Timestamp2?
    ensures Supported(c.Type(), MetaValue(c)) && Fits(c.Type(), MetaValue(c), payload)
  {
    ColumnSupported(c);
    hide DecimalSize, Supported;
  }

  /** A value is printed behind a length of the declared width, or behind none, and reads back under its own type. */
  lemma DeclaredForm(c: Column)
    requires c.Ok()
    ensures PrefixWidth(c.Type(), MetaValue(c)) == c.LengthBytes()
    ensures RealType(c.Type(), MetaValue(c)) == c.ReadType()
  {
  }

  /** A value of a column can be printed and read; its width or prefix follows from the declaration. */
  lemma AdmittedFits(c: Column, payload: seq<byte>)
    requires c.Ok() && c.Admits(payload)
    ensures Supported(c.Type(), MetaValue(c)) && Fits(c.Type(), MetaValue(c), payload)
  {
    hide *;
    if c.Number? {
      NumberFits(c, payload);
    } else if c.VarChar? || c.Chars? || c.Blob? {
      PrefixedFits(c, payload);
    } else if c.BitField? {
      BitsFit(c, payload);
    } else if c.Enum? || c.Set? {
      ChoiceFits(c, payload);
    } else {
      PlainFits(c, payload);
    }
  }

  /** A row of values that the columns admit, as an image of the first of them, NULL anywhere and in the others. */
  ghost predicate RowOf(cs: seq<Column>, im: Image)
    requires AllOk(cs)
  {
    && |im.cells| == |cs| && 1 <= im.count <= |cs| && |im.padding| == 8 * Bytes(im.count) - im.count
    && (forall i | im.count <= i < |cs| :: im.cells[i].None?)
    && forall i | 0 <= i < |cs| :: im.cells[i].Some? ==> cs[i].Admits(im.cells[i].value)
  }

  /** Such a row can be written to the table. */
  lemma DeclaredImage(tm: TableMap, cs: seq<Column>, im: Image)
    requires AllOk(cs) && 1 <= |cs| <= 48 && Declares(tm, cs) && RowOf(cs, im)
    ensures LayoutOk(tm) && ImageOk(tm, im)
  {
    hide Supported, Column.Type, Column.Metadata, MetaValue, MetaAt, Block, Fits, Column.Admits;
    DeclaredLayout(tm, cs);
    forall i | 0 <= i < |tm.types|
      ensures CellFits(tm, i, im.cells[i])
    {
      MetaRead(tm, cs, i);
      if im.cells[i].Some? {
        AdmittedFits(cs[i], im.cells[i].value);
      }
    }
  }

  /** The round trip of a rows event, from the declared columns: any rows that they admit are read back. */
  lemma DeclaredRows(tm: TableMap, cs: seq<Column>, ev: RowsEvent, before: uint64, after: uint64,
                     k: nat, k': nat, changes: seq<Change>, row: Row, data: nat, len: uint64)
    requires AllOk(cs) && 1 <= |cs| <= 48 && Declares(tm, cs) && |row| == |cs|
    requires LeadingImages(tm, ev, before, after, k, k')
    requires forall c | c in changes ::
      && RowOf(cs, c.before) && c.before.count == k
      && (ev.IsUpdate() ==> RowOf(cs, c.after) && c.after.count == k')
    requires Holds(ev.mem, data, PrintChanges(tm, ev.IsUpdate(), changes))
    requires len == |PrintChanges(tm, ev.IsUpdate(), changes)| < 0x8000_0000_0000_0000
    ensures ev.Advances()
    ensures RowsBack(tm, ev.mem, ev.IsUpdate(), changes, ReadRows(tm, ev, row, data, len))
  {
    hide LayoutOk, ImageOk, RowOf, LeadingImages, PrintChanges, ReadRows, RowsBack, Holds, Block;
    DeclaredLayout(tm, cs);
    forall c | c in changes
      ensures ImageOk(tm, c.before) && (ev.IsUpdate() ==> ImageOk(tm, c.after))
    {
      DeclaredImage(tm, cs, c.before);
      if ev.IsUpdate() {
        DeclaredImage(tm, cs, c.after);
      }
    }
    RowsRoundTrip(tm, ev, before, after, k, k', changes, row, data, len);
  }
}
