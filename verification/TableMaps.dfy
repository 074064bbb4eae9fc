/** Table-map events: which table an id stands for, and the layout of its rows. */
module TableMaps {
  import opened Memory
  import opened Values
  import opened RowEvents

  const TABLE_MAP_EVENT: byte := 19
  const POST_HEADER: nat := 27

  /** What a table keeps of its latest parsed map. */
  datatype TableMap = TableMap(id: uint64, db: seq<byte>, name: seq<byte>, types: seq<byte>, metadata: seq<byte>) {
    predicate Valid() { db != [] && name != [] && types != [] }
  }

  /** The C string at `p`. */
  function CString(m: seq<byte>, p: nat): seq<byte>
    decreases |m| - p
  {
    if p >= |m| || m[p] == 0 then [] else [m[p]] + CString(m, p + 1)
  }

  function MapId(m: seq<byte>): uint64 {
    MaskBound(m, HEADER_LEN, 6);
    LE(m, HEADER_LEN, 6)
  }

  function MapDatabase(m: seq<byte>): seq<byte> { CString(m, POST_HEADER + 1) }

  function MapTable(m: seq<byte>): seq<byte> { CString(m, POST_HEADER + At(m, POST_HEADER) + 3) }

  /** The private copy of the event that a table parses: the packet without its checksum. */
  function MapCopy(m: seq<byte>, size: nat, useChecksum: bool): seq<byte> {
    var n := if useChecksum then size - 4 else size;
    if 0 <= n <= |m| then m[..n] else m
  }

  /** The fields set by `CTableMapLogEvent::tune` from its copy `m` of the event. */
  function ParseMap(m: seq<byte>): TableMap {
    var p := POST_HEADER;
    var q := p + At(m, p) + 2;
    var columns := NetFieldLength(m, q + At(m, q) + 2);
    var meta := NetFieldLength(m, columns.ptr + columns.value);
    TableMap(MapId(m), CString(m, p + 1), CString(m, q + 1),
             Slice(m, columns.ptr, columns.value), Slice(m, meta.ptr, meta.value))
  }

  /** Where the metadata of column `i` starts: after that of every earlier column. */
  function MetaOffset(types: seq<byte>, i: nat): nat
    decreases i
  {
    if i == 0 then 0 else MetaOffset(types, i - 1) + MetadataSize(At(types, i - 1))
  }

  function MetaAt(tm: TableMap, i: nat): uint32 {
    LEBelow32(tm.metadata, MetaOffset(tm.types, i), MetadataSize(At(tm.types, i)));
    LE(tm.metadata, MetaOffset(tm.types, i), MetadataSize(At(tm.types, i)))
  }
}
