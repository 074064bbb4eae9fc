/**
 * Column values: how many metadata bytes a column type owns, how many bytes a field takes in a row image, and which
 * slice of those bytes is the value. `CValue` is copied field by field wherever it is stored, so it is a datatype.
 */
module Values {
  import opened Numbers
  import opened Memory

  const TYPE_DECIMAL: byte := 0
  const TYPE_TINY: byte := 1
  const TYPE_SHORT: byte := 2
  const TYPE_LONG: byte := 3
  const TYPE_FLOAT: byte := 4
  const TYPE_DOUBLE: byte := 5
  const TYPE_NULL: byte := 6
  const TYPE_TIMESTAMP: byte := 7
  const TYPE_LONGLONG: byte := 8
  const TYPE_INT24: byte := 9
  const TYPE_DATE: byte := 10
  const TYPE_TIME: byte := 11
  const TYPE_DATETIME: byte := 12
  const TYPE_YEAR: byte := 13
  const TYPE_NEWDATE: byte := 14
  const TYPE_VARCHAR: byte := 15
  const TYPE_BIT: byte := 16
  const TYPE_TIMESTAMP2: byte := 17
  const TYPE_DATETIME2: byte := 18
  const TYPE_TIME2: byte := 19
  const TYPE_JSON: byte := 245
  const TYPE_NEWDECIMAL: byte := 246
  const TYPE_ENUM: byte := 247
  const TYPE_SET: byte := 248
  const TYPE_TINY_BLOB: byte := 249
  const TYPE_MEDIUM_BLOB: byte := 250
  const TYPE_LONG_BLOB: byte := 251
  const TYPE_BLOB: byte := 252
  const TYPE_VAR_STRING: byte := 253
  const TYPE_STRING: byte := 254
  const TYPE_GEOMETRY: byte := 255

  function MetadataSize(t: byte): nat {
    if t == TYPE_TIMESTAMP2 || t == TYPE_FLOAT || t == TYPE_DOUBLE || t == TYPE_BLOB || t == TYPE_GEOMETRY
       || t == TYPE_DATETIME2 then 1
    else if t == TYPE_VARCHAR || t == TYPE_BIT || t == TYPE_NEWDECIMAL || t == TYPE_VAR_STRING
            || t == TYPE_STRING then 2
    else 0
  }

  /** Bytes taken by a group of decimal digits; the table has no entry outside 0..9 and 0 stands for a read there. */
  function DigitBytes(digits: int): nat {
    if digits <= 0 || digits > 9 then 0 else if digits <= 2 then 1 else if digits <= 4 then 2
    else if digits <= 6 then 3 else 4
  }

  /** C division by nine, truncating toward zero. */
  function Nines(n: int): int { if n >= 0 then n / 9 else -(-n / 9) }

  function DecimalSize(precision: nat, scale: nat): int {
    var intg := precision - scale;
    var intg0, frac0 := Nines(intg), Nines(scale);
    intg0 * 4 + DigitBytes(intg - intg0 * 9) + frac0 * 4 + DigitBytes(scale - frac0 * 9)
  }

  /** Bytes a field occupies in the row image, as stored in a `uint32_t`. */
  function FieldSize(t: byte, m: seq<byte>, p: nat, metadata: uint32): uint32 {
    if t == TYPE_VAR_STRING then metadata
    else if t == TYPE_NEWDECIMAL then DecimalSize(metadata % 256, metadata / 256) % TWO32
    else if t == TYPE_DECIMAL || t == TYPE_FLOAT || t == TYPE_DOUBLE then metadata
    else if t == TYPE_SET || t == TYPE_ENUM || t == TYPE_STRING then
      var subtype, len := metadata % 256, metadata / 256;
      if subtype == TYPE_SET || subtype == TYPE_ENUM then len
      else if len < 256 then At(m, p) + 1 else At(m, p) + 256 * At(m, p + 1)
    else if t == TYPE_YEAR || t == TYPE_TINY then 1
    else if t == TYPE_SHORT then 2
    else if t == TYPE_INT24 then 3
    else if t == TYPE_LONG then 4
    else if t == TYPE_LONGLONG then 8
    else if t == TYPE_NULL then 0
    else if t == TYPE_NEWDATE || t == TYPE_DATE || t == TYPE_TIME || t == TYPE_TIME2 then 3
    else if t == TYPE_TIMESTAMP || t == TYPE_TIMESTAMP2 then 4
    else if t == TYPE_DATETIME then 8
    else if t == TYPE_DATETIME2 then
      5 + (if metadata == 1 || metadata == 2 then 1
           else if metadata == 3 || metadata == 4 then 2
           else if metadata == 5 || metadata == 6 then 3
           else 0)
    else if t == TYPE_BIT then metadata / 256 % 256 + (if metadata % 256 > 0 then 1 else 0)
    else if t == TYPE_VARCHAR then
      if metadata > 255 then 2 + (At(m, p) + 256 * At(m, p + 1)) else 1 + At(m, p)
    else if t == TYPE_TINY_BLOB || t == TYPE_MEDIUM_BLOB || t == TYPE_LONG_BLOB || t == TYPE_BLOB
            || t == TYPE_GEOMETRY then
      if 1 <= metadata <= 4 then (LEBound(m, p, metadata); (metadata + LE(m, p, metadata)) % TWO32) else 0
    else TWO32 - 1
  }

  /** `storage` is the offset the pointer stands at, if it is not NULL; `pos` the column index. */
  datatype Value = Value(ftype: byte, storage: Option<nat>, size: uint64, metadata: uint32, nullFlag: bool, pos: nat) {

    function Reset(): Value { Value(TYPE_NULL, None, 0, 0, true, pos) }

    predicate IsNull() { nullFlag || ftype == TYPE_NULL }

    function Tune(t: byte, m: seq<byte>, p: nat, meta: uint32, length: uint64): Value {
      var v := Value(t, Some(p), length, meta, false, pos);
      if t == TYPE_STRING then
        var subtype, len := meta % 256, meta / 256;
        if subtype == TYPE_STRING then
          if len > 255 then v.(storage := Some(p + 2), size := Sub64(length, 2), ftype := subtype)
          else v.(storage := Some(p + 1), size := Sub64(length, 1), ftype := subtype)
        else if subtype == TYPE_JSON || subtype == TYPE_ENUM || subtype == TYPE_SET then
          v.(size := len, ftype := subtype)
        else v.(nullFlag := true, ftype := subtype)
      else if t == TYPE_VARCHAR then
        if meta < 256 then v.(size := At(m, p), storage := Some(p + 1))
        else v.(size := At(m, p) + 256 * At(m, p + 1), storage := Some(p + 2))
      else if t == TYPE_BLOB then
        if 1 <= meta <= 4 then (LEBelow32(m, p, meta); v.(size := LE(m, p, meta), storage := Some(p + meta)))
        else v.(size := 0, nullFlag := true)
      else v
    }

    /** What the value shows its reader: nothing when null, else the bytes of its slice. */
    function Content(m: seq<byte>): Option<seq<byte>> {
      if IsNull() || storage.None? then None else Some(Slice(m, storage.value, size))
    }
  }

  datatype Option<T> = None | Some(value: T)

  lemma LEBelow32(m: seq<byte>, p: nat, k: nat)
    requires k <= 4
    ensures LE(m, p, k) < TWO32
  {
    LEBound(m, p, k);
    PowMono(256, k, 4);
    Pow256Values();
  }

  /** The (type, metadata) pairs of columns that this reader understands. */
  predicate Supported(t: byte, metadata: uint32) {
    metadata < 65536 &&
    if t == TYPE_FLOAT || t == TYPE_DOUBLE then 1 <= metadata < 256
    else if t == TYPE_NEWDECIMAL then metadata / 256 <= metadata % 256 && 1 <= metadata % 256
    else if t == TYPE_BIT then 1 <= metadata
    else if t == TYPE_BLOB then 1 <= metadata <= 4
    else if t == TYPE_STRING then
      || metadata % 256 == TYPE_STRING
      || ((metadata % 256 == TYPE_ENUM || metadata % 256 == TYPE_SET) && 1 <= metadata / 256)
    else if t == TYPE_TIMESTAMP2 then metadata == 0
    else
      || t == TYPE_TINY || t == TYPE_SHORT || t == TYPE_INT24 || t == TYPE_LONG || t == TYPE_LONGLONG || t == TYPE_YEAR
      || t == TYPE_NEWDATE || t == TYPE_DATE || t == TYPE_TIME || t == TYPE_TIMESTAMP || t == TYPE_DATETIME
      || t == TYPE_DATETIME2 || t == TYPE_VARCHAR
  }

  predicate Prefixed(t: byte, metadata: uint32) {
    t == TYPE_VARCHAR || t == TYPE_BLOB || (t == TYPE_STRING && metadata % 256 == TYPE_STRING)
  }

  /** Width of the length that precedes a variable-length value; 0 for the types that have none. */
  function PrefixWidth(t: byte, metadata: uint32): nat {
    if t == TYPE_VARCHAR then (if metadata > 255 then 2 else 1)
    else if t == TYPE_BLOB then metadata
    else if t == TYPE_STRING && metadata % 256 == TYPE_STRING then 1
    else 0
  }

  /** Width of a value of a type without a length prefix. */
  function FixedWidth(t: byte, metadata: uint32): nat
    requires Supported(t, metadata) && !Prefixed(t, metadata)
  {
    if t == TYPE_NEWDECIMAL then DecimalSize(metadata % 256, metadata / 256)
    else if t == TYPE_FLOAT || t == TYPE_DOUBLE then metadata
    else if t == TYPE_STRING then metadata / 256
    else if t == TYPE_BIT then metadata / 256 + (if metadata % 256 > 0 then 1 else 0)
    else if t == TYPE_DATETIME2 then 5 + (if 1 <= metadata <= 6 then (metadata + 1) / 2 else 0)
    else if t == TYPE_YEAR || t == TYPE_TINY then 1
    else if t == TYPE_SHORT then 2
    else if t == TYPE_INT24 || t == TYPE_NEWDATE || t == TYPE_DATE || t == TYPE_TIME then 3
    else if t == TYPE_LONG || t == TYPE_TIMESTAMP || t == TYPE_TIMESTAMP2 then 4
    else 8
  }

  /** The values the master can print in a column. */
  predicate Fits(t: byte, metadata: uint32, payload: seq<byte>)
    requires Supported(t, metadata)
  {
    if Prefixed(t, metadata) then
      |payload| < Pow(256, PrefixWidth(t, metadata)) && PrefixWidth(t, metadata) + |payload| < TWO32
    else |payload| == FixedWidth(t, metadata)
  }

  /** The bytes of a non-null field as the master writes them. */
  function PrintField(t: byte, metadata: uint32, payload: seq<byte>): seq<byte> {
    LEBytes(|payload|, PrefixWidth(t, metadata)) + payload
  }

  /** The type a decoded value reports: the subtype of a STRING column, else the column's own. */
  function RealType(t: byte, metadata: uint32): byte { if t == TYPE_STRING then metadata % 256 else t }

  lemma LE1(m: seq<byte>, p: nat)
    ensures LE(m, p, 1) == At(m, p)
  {
    assert LE(m, p + 1, 0) == 0;
  }

  lemma LE2(m: seq<byte>, p: nat)
    ensures LE(m, p, 2) == At(m, p) + 256 * At(m, p + 1)
  {
    LE1(m, p + 1);
  }

  /** For the types with a length prefix, size and slice are both read off the prefix. */
  lemma PrefixedExtent(t: byte, m: seq<byte>, p: nat, metadata: uint32, v: Value)
    requires Supported(t, metadata) && Prefixed(t, metadata)
    ensures var w := PrefixWidth(t, metadata);
      && FieldSize(t, m, p, metadata) == (w + LE(m, p, w)) % TWO32
      && LE(m, p, w) < TWO32
      && v.Tune(t, m, p, metadata, FieldSize(t, m, p, metadata)) ==
         Value(RealType(t, metadata), Some(p + w), LE(m, p, w), metadata, false, v.pos)
  {
    LE1(m, p);
    LE2(m, p);
    LEBelow32(m, p, PrefixWidth(t, metadata));
  }

  lemma DecimalSizeParts(precision: nat, scale: nat)
    requires scale <= precision
    ensures var intg := precision - scale;
      DecimalSize(precision, scale) ==
        4 * (intg / 9) + DigitBytes(intg % 9) + 4 * (scale / 9) + DigitBytes(scale % 9)
  {
    hide DigitBytes;
  }

  lemma DecimalSizePositive(precision: nat, scale: nat)
    requires scale <= precision && 1 <= precision
    ensures 1 <= DecimalSize(precision, scale) <= 4 * precision
  {
    var intg := precision - scale;
    var a, b := intg / 9, scale / 9;
    assert intg == 9 * a + intg % 9 && scale == 9 * b + scale % 9;
  }

  lemma FixedSize(t: byte, m: seq<byte>, p: nat, metadata: uint32)
    requires Supported(t, metadata) && !Prefixed(t, metadata)
    ensures FieldSize(t, m, p, metadata) == FixedWidth(t, metadata) >= 1
  {
    if t == TYPE_NEWDECIMAL {
      DecimalSizePositive(metadata % 256, metadata / 256);
      SmallMod(DecimalSize(metadata % 256, metadata / 256), TWO32);
    }
  }

  lemma FixedTune(t: byte, m: seq<byte>, p: nat, metadata: uint32, v: Value)
    requires Supported(t, metadata) && !Prefixed(t, metadata)
    ensures v.Tune(t, m, p, metadata, FieldSize(t, m, p, metadata)) ==
      Value(RealType(t, metadata), Some(p), FieldSize(t, m, p, metadata), metadata, false, v.pos)
  {
    if t == TYPE_STRING {
      FixedSize(t, m, p, metadata);
    }
  }

  /** Reading a printed field takes exactly the printed bytes and yields exactly the printed value. */
  lemma FieldRoundTrip(t: byte, m: seq<byte>, p: nat, metadata: uint32, payload: seq<byte>, v: Value)
    requires Supported(t, metadata) && Fits(t, metadata, payload)
    requires Holds(m, p, PrintField(t, metadata, payload))
    ensures FieldSize(t, m, p, metadata) == |PrintField(t, metadata, payload)| >= 1
    ensures var r := v.Tune(t, m, p, metadata, FieldSize(t, m, p, metadata));
      && r.Content(m) == Some(payload) && r.ftype == RealType(t, metadata) && r.metadata == metadata && r.pos == v.pos
      && r.storage.Some? && r.size == |payload| && Holds(m, r.storage.value, payload) && !r.nullFlag
  {
    hide FieldSize, Value.Tune, LE, LEBytes, Slice, Holds, Pow;
    var w := PrefixWidth(t, metadata);
    HoldsConcat(m, p, LEBytes(|payload|, w), payload);
    HoldsSlice(m, p + w, payload);
    if Prefixed(t, metadata) {
      LERoundTrip(m, p, w, |payload|);
      PrefixedExtent(t, m, p, metadata, v);
      SmallMod(w + |payload|, TWO32);
    } else {
      FixedSize(t, m, p, metadata);
      FixedTune(t, m, p, metadata, v);
    }
  }

  /**
   * Some types that are not supported, and why: the extent of a JSON field has no bound, TIME2 has no metadata and
   * three bytes whatever its digits, and the slice of the other BLOB types begins with the length.
   */
  lemma NotSupported(t: byte, m: seq<byte>, p: nat, metadata: uint32, v: Value)
    ensures FieldSize(245, m, p, metadata) == 0xFFFF_FFFF
    ensures MetadataSize(19) == 0 && FieldSize(19, m, p, metadata) == 3
    ensures 249 <= t <= 251 || t == 255 ==>
      && FieldSize(t, m, p, metadata) == FieldSize(252, m, p, metadata)
      && v.Tune(t, m, p, metadata, FieldSize(t, m, p, metadata)).storage == Some(p)
  {
    hide LE;
  }

  /**
   * Of all types and metadata, the decoded values that read as null: those of type NULL, of a STRING column with a
   * subtype other than STRING, ENUM, SET and JSON, and of a BLOB column whose length has no width of 1 to 4.
   */
  lemma DecodedNull(t: byte, m: seq<byte>, p: nat, metadata: uint32, length: uint64, v: Value)
    ensures v.Tune(t, m, p, metadata, length).IsNull() <==>
      || t == 6
      || (t == 254 && metadata % 256 != 254 && metadata % 256 != 247 && metadata % 256 != 248 && metadata % 256 != 245)
      || (t == 252 && !(1 <= metadata <= 4))
  {
    if t == TYPE_BLOB && 1 <= metadata <= 4 {
      LEBelow32(m, p, metadata);
    }
    hide LE, At;
  }

  /** Where the slice of a decoded value ends. */
  function SliceEnd(v: Value): nat { if v.storage.Some? then v.storage.value + v.size else 0 }

  /**
   * Whatever the bytes are, the slice of a decoded value starts inside the field's extent and ends where it ends, with
   * one exception: a BLOB whose 4-byte length makes the 32-bit extent wrap. It starts and ends past the extent.
   */
  lemma SliceEndsAtExtent(t: byte, m: seq<byte>, p: nat, metadata: uint32, v: Value)
    requires Supported(t, metadata)
    ensures var n := FieldSize(t, m, p, metadata); var r := v.Tune(t, m, p, metadata, n);
      var wraps := t == TYPE_BLOB && metadata == 4 && LE(m, p, 4) >= TWO32 - 4;
      && r.storage.Some? && p <= r.storage.value
      && (r.storage.value <= p + n <==> !wraps) && (SliceEnd(r) == p + n <==> !wraps)
  {
    hide FieldSize, Value.Tune, LE, Pow;
    if Prefixed(t, metadata) {
      var w := PrefixWidth(t, metadata);
      PrefixedExtent(t, m, p, metadata, v);
      LEBound(m, p, w);
      Pow256Values();
    } else {
      FixedTune(t, m, p, metadata, v);
    }
  }
}
