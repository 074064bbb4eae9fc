/** What the bytes of a delivered column mean: decimals, enums and sets, read the way `CValue` reads them. */
module ColumnValues {
  import opened Numbers
  import opened Memory
  import opened Bits
  import opened Values
  import opened TableMaps
  import opened RowImages
  import opened Decimals
  import opened Variants

  /** The metadata of a decimal column: precision below, scale above. */
  function DecimalMeta(precision: nat, scale: nat): nat { scale * 256 + precision }

  /** A decimal written to a column can be printed there, and the delivered value decodes to the number written. */
  lemma DecimalColumn(tm: TableMap, m: seq<byte>, i: nat, v: Value, neg: bool, ds: seq<int>, scale: nat)
    requires LayoutOk(tm) && i < |tm.types| && tm.types[i] == TYPE_NEWDECIMAL
    requires 1 <= |ds| <= 255 && scale <= |ds| && Digits(10, ds) && MetaAt(tm, i) == DecimalMeta(|ds|, scale)
    requires ShowsCell(tm, m, i, v, Some(Encode(neg, ds, scale)))
    ensures CellFits(tm, i, Some(Encode(neg, ds, scale)))
    ensures v.metadata % 256 == |ds| && v.metadata / 256 == scale && v.storage.Some?
    ensures var r := Decode(m, v.storage.value, |ds|, scale); r.Some? && Denotes(r.value, neg, ds, scale)
  {
    hide *;
    ShownParts(tm, m, i, v, Encode(neg, ds, scale));
    DecimalRoundTrip(neg, ds, scale, m, v.storage.value);
    MetaParts(|ds|, scale);
    DecimalFits(tm, i, neg, ds, scale);
  }

  lemma ShownParts(tm: TableMap, m: seq<byte>, i: nat, v: Value, payload: seq<byte>)
    requires ShowsCell(tm, m, i, v, Some(payload))
    ensures v.metadata == MetaAt(tm, i) && v.storage.Some? && Holds(m, v.storage.value, payload)
  {
    hide MetaAt, Holds, Slice;
  }

  lemma MetaParts(precision: nat, scale: nat)
    requires precision <= 255
    ensures DecimalMeta(precision, scale) % 256 == precision && DecimalMeta(precision, scale) / 256 == scale
  {
  }

  lemma DecimalFits(tm: TableMap, i: nat, neg: bool, ds: seq<int>, scale: nat)
    requires LayoutOk(tm) && i < |tm.types| && tm.types[i] == TYPE_NEWDECIMAL
    requires |ds| <= 255 && scale <= |ds| && Digits(10, ds) && MetaAt(tm, i) == DecimalMeta(|ds|, scale)
    ensures CellFits(tm, i, Some(Encode(neg, ds, scale)))
  {
    MetaParts(|ds|, scale);
    EncodedLength(neg, ds, scale);
    assert Supported(tm.types[i], MetaAt(tm, i));
    hide Encode, MetaAt, Digits, DecimalSize, DecimalMeta, LayoutOk;
  }

  lemma EncodedLength(neg: bool, ds: seq<int>, scale: nat)
    requires scale <= |ds| && Digits(10, ds)
    ensures |Encode(neg, ds, scale)| == DecimalSize(|ds|, scale)
  {
    DecimalExtent(|ds|, scale);
    hide Plain, Groups, TotalWidth, DecimalSize;
  }

  /** A subset written to a set column of up to four bytes is delivered as its names, NULL as no name. */
  lemma SetColumn(tm: TableMap, m: seq<byte>, i: nat, v: Value, names: seq<string>, choice: Option<seq<bool>>, k: nat)
    requires LayoutOk(tm) && i < |tm.types| && tm.types[i] == TYPE_STRING && MetaAt(tm, i) == k * 256 + TYPE_SET
    requires 1 <= k <= 4 && |names| <= 8 * k && (choice.Some? ==> |choice.value| == |names|)
    requires ShowsCell(tm, m, i, v, if choice.Some? then Some(LEBytes(BitsVal(choice.value), k)) else None)
    requires forall n | n in names :: QuoteFree(n)
    ensures SetNames(AsEnum(v, m), VariantsOf(PrintSet(names)), 0) ==
      if choice.Some? then Chosen(names, choice.value) else []
  {
    hide MetaAt, LEBytes, BitsVal, VariantsOf, PrintSet, AsEnum, SetNames, Chosen, Holds;
    VariantsRoundTrip(names);
    if choice.Some? {
      SetRoundTrip(names, choice.value, v, m, k);
    } else {
      NothingChosen(v, m, names);
    }
  }

  /** An index written to an enum column is delivered as its name, NULL as the empty name. */
  lemma EnumColumn(tm: TableMap, m: seq<byte>, i: nat, v: Value, names: seq<string>, index: Option<nat>, k: nat)
    requires LayoutOk(tm) && i < |tm.types| && tm.types[i] == TYPE_STRING && MetaAt(tm, i) == k * 256 + TYPE_ENUM
    requires 1 <= k <= 4 && |names| < Pow(256, k) && |names| < TWO64
    requires index.Some? ==> 1 <= index.value <= |names|
    requires ShowsCell(tm, m, i, v, if index.Some? then Some(LEBytes(index.value, k)) else None)
    requires forall n | n in names :: QuoteFree(n)
    ensures EnumName(v, m, VariantsOf(PrintEnum(names))) == if index.Some? then names[index.value - 1] else ""
  {
    hide MetaAt, LEBytes, VariantsOf, PrintEnum, EnumName, Holds, Pow;
    VariantsRoundTrip(names);
    if index.Some? {
      EnumRoundTrip(names, index.value, v, m, k);
    } else {
      NothingChosen(v, m, names);
    }
  }
}
