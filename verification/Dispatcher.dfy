/**
 * The event loop of `CLogParser`: which table an event belongs to, when a cached layout is trusted, which callback is
 * made. A `CTable*` is named by the place of the table in the watch list, so it is a key here.
 */
module Dispatcher {
  import opened Memory
  import opened Values
  import opened EventCodes
  import opened RowEvents
  import opened TableMaps
  import opened Tables

  const QUERY_EVENT: byte := 2
  const ROTATE_EVENT: byte := 4
  const FORMAT_DESCRIPTION_EVENT: byte := 15
  const LAST_EVENT_TYPE: byte := 38

  type Name = seq<byte>

  /** Names compare as `strcasecmp` does: equal when their lower-case forms are. */
  function Fold(s: Name): Name {
    seq(|s|, i requires 0 <= i < |s| => if 65 <= s[i] <= 90 then (s[i] + 32) as byte else s[i])
  }

  /** Equal but for the case of ASCII letters. */
  predicate SameLetter(a: byte, b: byte) {
    a == b || (65 <= a <= 90 && b == a + 32) || (65 <= b <= 90 && a == b + 32)
  }

  predicate Alike(s: Name, t: Name) { |s| == |t| && forall i | 0 <= i < |s| :: SameLetter(s[i], t[i]) }

  lemma FoldedAlike(s: Name, t: Name)
    ensures Fold(s) == Fold(t) <==> Alike(s, t)
  {
    assert |Fold(s)| == |s| && |Fold(t)| == |t|;
    if |s| == |t| {
      forall i | 0 <= i < |s|
        ensures Fold(s)[i] == Fold(t)[i] <==> SameLetter(s[i], t[i])
      {
      }
    }
  }

  datatype Key = Key(db: Name, table: Name)

  function KeyOf(db: Name, table: Name): Key { Key(Fold(db), Fold(table)) }

  /** One place in the watch list: the databases are alike, and so are the tables. */
  lemma KeysAlike(db: Name, table: Name, db': Name, table': Name)
    ensures KeyOf(db, table) == KeyOf(db', table') <==> Alike(db, db') && Alike(table, table')
  {
    hide Fold, Alike;
    FoldedAlike(db, db');
    FoldedAlike(table, table');
  }

  /** A database and a table, as they are given to `watch`. */
  type Pair = (Name, Name)

  /** The table was asked for, in some letter case. */
  ghost predicate Wanted(list: seq<Pair>, db: Name, table: Name) {
    exists p | p in list :: Alike(p.0, db) && Alike(p.1, table)
  }

  /** The places that watching a list fills; a pair with an empty name is passed over. */
  ghost function Watching(list: seq<Pair>): set<Key> {
    set p | p in list && p.0 != [] && p.1 != [] :: KeyOf(p.0, p.1)
  }

  lemma WatchingWanted(list: seq<Pair>, db: Name, table: Name)
    requires db != [] && table != []
    ensures KeyOf(db, table) in Watching(list) <==> Wanted(list, db, table)
  {
    hide KeyOf;
    if KeyOf(db, table) in Watching(list) {
      var p :| p in list && p.0 != [] && p.1 != [] && KeyOf(p.0, p.1) == KeyOf(db, table);
      KeysAlike(p.0, p.1, db, table);
      assert Wanted(list, db, table);
    } else if Wanted(list, db, table) {
      var p :| p in list && Alike(p.0, db) && Alike(p.1, table);
      KeysAlike(p.0, p.1, db, table);
    }
  }

  // ---------------------------------------------------------------- events

  /** What a table-map event says; `copy` is the event without its checksum, the part a table parses. */
  datatype MapFact = MapFact(id: uint64, db: Name, name: Name, copy: seq<byte>) {
    function Key(): Key { KeyOf(db, name) }
    function Layout(): TableMap { ParseMap(copy) }
  }

  datatype Event =
    | Rotate(log: Name, pos: uint32)
    | Format
    | Query(end: Option<uint32>)
    | Map(fact: MapFact)
    | Rows(ev: RowsEvent)
    | Other(pos: uint32)
    | Bad

  /** The largest status block of a query event. */
  const MAX_STATUS := 638

  function LogPos(m: seq<byte>): uint32 {
    LEBelow32(m, 13, 4);
    LE(m, 13, 4)
  }

  /** The switch of the loop: what each packet is taken for. `Bad` is a packet that makes the loop throw. */
  function Classify(m: seq<byte>, useChecksum: bool): Event {
    var t := At(m, EVENT_TYPE_OFFSET);
    var trailer := if useChecksum then 4 else 0;
    if |m| < 9 || |m| != LE(m, 9, 4) || t > LAST_EVENT_TYPE then Bad
    else if t == ROTATE_EVENT then
      var n := |m| - HEADER_LEN - trailer - 8;
      Rotate(Slice(m, HEADER_LEN + 8, if n < 0 then 0 else n), LE(m, HEADER_LEN, 8) % TWO32)
    else if t == FORMAT_DESCRIPTION_EVENT then Format
    else if t == QUERY_EVENT then
      var status := LE(m, HEADER_LEN + 11, 2);
      var room := (|m| - HEADER_LEN - 13 - trailer) % TWO64;
      Query(if status > room || status > MAX_STATUS then None else Some(LogPos(m)))
    else if t == TABLE_MAP_EVENT then
      Map(MapFact(MapId(m), MapDatabase(m), MapTable(m), MapCopy(m, |m|, useChecksum)))
    else if IsRowsType(t) then
      LEBelow32(m, 9, 4);
      var r := ParseRows(m, |m|, useChecksum);
      if r.None? then Bad else Rows(r.value)
    else Other(LogPos(m))
  }

  predicate IsRowsType(t: byte) { 23 <= t <= 25 || 30 <= t <= 32 }

  function KindOf(t: byte): Kind {
    if t == WRITE_ROWS_EVENT || t == WRITE_ROWS_V2_EVENT then Insert
    else if IsUpdateType(t) then Update
    else Delete
  }

  /** The tests on the type byte find out what the master put in it. */
  lemma CodeRead(kind: Kind, v2: bool)
    ensures var t := Code(kind, v2);
      && IsRowsType(t) && KindOf(t) == kind
      && (IsUpdateType(t) <==> kind == Update) && (IsV2Type(t) <==> v2)
  {
  }

  ghost predicate IsCode(t: byte) { exists kind, v2 :: t == Code(kind, v2) }

  lemma CodesAreRows(t: byte)
    ensures IsRowsType(t) <==> IsCode(t)
  {
    assert forall kind, v2 :: IsRowsType(Code(kind, v2));
    if IsRowsType(t) {
      assert t == Code(if t == 23 || t == 30 then Insert else if t == 24 || t == 31 then Update else Delete, t >= 30);
    }
  }

  /** The column count of a rows event is one that a bitmap can be read for. */
  predicate BitmapsReadable(m: seq<byte>) { 1 <= (ParseHead(m).ncolumns + 7) % TWO64 / 8 % 256 <= 6 }

  /** The packets that make the loop throw: a wrong length, an unknown type, or a rows event with unreadable bitmaps. */
  lemma ThrowsOn(m: seq<byte>, useChecksum: bool)
    ensures Classify(m, useChecksum) == Bad <==>
      |m| < 9 || |m| != LE(m, 9, 4) || At(m, 4) > 38 || (IsCode(At(m, 4)) && !BitmapsReadable(m))
  {
    CodesAreRows(At(m, 4));
    if IsRowsType(At(m, 4)) && 9 <= |m| && |m| == LE(m, 9, 4) {
      LEBelow32(m, 9, 4);
      RowsReadable(m, |m|, useChecksum);
    }
    hide LE, At, ParseRows, ParseHead, LogPos, IsRowsType, IsCode, BitmapsReadable;
  }

  lemma RowsReadable(m: seq<byte>, size: uint64, useChecksum: bool)
    ensures ParseRows(m, size, useChecksum).Some? <==> BitmapsReadable(m)
  {
    hide ParseHead, ColumnMask, PackCount;
    var h := ParseHead(m);
    MaskAccepted(m, h.ptr, 0, h.ncolumns);
    MaskAccepted(m, ColumnMask(m, h.ptr, 0, h.ncolumns).ptr, 0, h.ncolumns);
  }

  /** A call of `on_insert`, `on_update` or `on_delete`; the values in the rows point into `mem`. */
  datatype Callback = Callback(kind: Kind, key: Key, mem: seq<byte>, rows: seq<Row>, newRows: seq<Row>)

  // ---------------------------------------------------------------- one event

  datatype State = State(tables: map<Key, TableState>, idToTable: map<uint64, Key>, tableToId: map<Name, uint64>,
                         log: Name, pos: uint32, calls: seq<Callback>) {
    predicate Linked() { forall id :: id in idToTable ==> idToTable[id] in tables }
  }

  /** A place in the log of the master. */
  datatype Pos = Pos(log: Name, off: nat)

  /** What a dump is requested from; without a name or a position the request throws before it is sent. */
  function ResumePoint(s: State): Option<Pos> {
    if s.log == [] || s.pos == 0 then None else Some(Pos(s.log, s.pos))
  }

  /** The row loop of the table would never end on the event. */
  predicate Stuck(t: TableState, ev: RowsEvent) { Matches(t, ev) && !ev.Ends() }

  /** With `always`, every map is parsed; the source parses one only when the recorded id of its name changes. */
  function OnMap(s: State, f: MapFact, always: bool): (r: State)
    requires s.Linked()
    ensures r.Linked() && r.tables.Keys == s.tables.Keys
  {
    if f.Key() !in s.tables then s
    else
      var changed := f.name in s.tableToId && s.tableToId[f.name] != f.id;
      var t := s.tables[f.Key()];
      var t' := TuneTable(if changed || always then t.(tuned := false) else t, f.copy);
      s.(tables := s.tables[f.Key() := t'], idToTable := s.idToTable[f.id := f.Key()],
         tableToId := s.tableToId[f.name := f.id])
  }

  function CallFor(t: TableState, k: Key, ev: RowsEvent): Callback {
    Callback(KindOf(ev.etype), k, ev.mem, t.rows, if KindOf(ev.etype) == Update then t.newRows else [])
  }

  /** An event that its table gets stuck on has no outcome; here it leaves the state as it is. See `RowsFit`. */
  function OnRows(s: State, ev: RowsEvent): (r: State)
    requires s.Linked()
    ensures r.Linked() && r.tables.Keys == s.tables.Keys
  {
    if ev.tableId !in s.idToTable || Stuck(s.tables[s.idToTable[ev.tableId]], ev) then s
    else
      var k := s.idToTable[ev.tableId];
      var t := UpdateTable(s.tables[k], ev);
      s.(tables := s.tables[k := t], calls := s.calls + [CallFor(t, k, ev)])
  }

  function Step(s: State, e: Event, always: bool): (r: State)
    requires s.Linked()
    ensures r.Linked() && r.tables.Keys == s.tables.Keys
  {
    match e
    case Rotate(log, pos) => s.(log := log, pos := pos)
    case Query(Some(pos)) => s.(pos := pos)
    case Other(pos) => s.(pos := pos)
    case Map(f) => OnMap(s, f, always)
    case Rows(ev) => OnRows(s, ev)
    case _ => s
  }

  function Run(s: State, es: seq<Event>, always: bool): (r: State)
    requires s.Linked()
    ensures r.Linked() && r.tables.Keys == s.tables.Keys
    decreases |es|
  {
    if es == [] then s else Run(Step(s, es[0], always), es[1..], always)
  }

  function WatchMore(s: State, db: Name, name: Name): State {
    var k := KeyOf(db, name);
    if db == [] || name == [] || k in s.tables then s else s.(tables := s.tables[k := FreshTable()])
  }

  /** Watching one more pair of a list fills its place with a fresh table, and leaves the other places alone. */
  lemma WatchedMore(s: State, list: seq<Pair>, db: Name, name: Name)
    requires s.tables.Keys == Watching(list)
    ensures var r := WatchMore(s, db, name);
      && r.tables.Keys == Watching(list + [(db, name)])
      && forall k | k in r.tables :: r.tables[k] == if k in s.tables then s.tables[k] else FreshTable()
  {
    hide KeyOf;
    var p := (db, name);
    assert forall q :: q in list + [p] <==> q in list || q == p;
  }

  // ---------------------------------------------------------------- the parser object

  /** Reads from the server: a packet, or a lost connection. */
  datatype Read = Packet(bytes: seq<byte>) | Lost

  /** A rows event that reaches a table ends the row loop, and has no more columns than the row has room for. */
  ghost predicate RowsFit(s: State, ev: RowsEvent)
    requires s.Linked()
  {
    ev.tableId in s.idToTable ==>
      var t := s.tables[s.idToTable[ev.tableId]]; Matches(t, ev) ==> ev.Ends() && Positioned(t.row, ev.ncolumns)
  }

  ghost predicate EventFits(s: State, e: Event)
    requires s.Linked()
  {
    e.Rows? ==> RowsFit(s, e.ev)
  }

  ghost predicate RunFits(s: State, es: seq<Event>)
    requires s.Linked()
    decreases |es|
  {
    es == [] || (EventFits(s, es[0]) && RunFits(Step(s, es[0], false), es[1..]))
  }

  /** The events taken before the loop throws. */
  function Accepted(input: seq<Read>, useChecksum: bool): (es: seq<Event>)
    ensures |es| <= |input|
  {
    if input == [] || input[0].Lost? || Classify(input[0].bytes, useChecksum) == Bad then []
    else [Classify(input[0].bytes, useChecksum)] + Accepted(input[1..], useChecksum)
  }

  lemma BadStep(s: State)
    requires s.Linked()
    ensures EventFits(s, Bad) && Step(s, Bad, false) == s
  {
  }

  lemma AcceptStep(input: seq<Read>, i: nat, useChecksum: bool) returns (e: Event)
    requires i < |input|
    ensures e == if input[i].Lost? then Bad else Classify(input[i].bytes, useChecksum)
    ensures Accepted(input[i..], useChecksum) == if e == Bad then [] else [e] + Accepted(input[i + 1..], useChecksum)
  {
    hide Classify;
    assert input[i..][1..] == input[i + 1..];
    e := if input[i].Lost? then Bad else Classify(input[i].bytes, useChecksum);
  }

  lemma RunStep(s: State, es: seq<Event>)
    requires s.Linked() && RunFits(s, es)
    ensures if es == [] then Run(s, es, false) == s
            else EventFits(s, es[0]) && RunFits(Step(s, es[0], false), es[1..])
                 && Run(s, es, false) == Run(Step(s, es[0], false), es[1..], false)
  {
    hide Step, EventFits;
  }

  class LogParser {
    var tables: map<Key, Table>
    var idToTable: map<uint64, Key>
    var tableToId: map<Name, uint64>
    var binlogName: Name
    var binlogPos: uint32
    var isConnected: bool
    var calls: seq<Callback>
    const useChecksum: bool
    const eventRow: RowLogEvent

    constructor (useChecksum: bool)
      ensures Valid() && fresh(eventRow)
      ensures View() == State(map[], map[], map[], [], 0, []) && !isConnected
      ensures this.useChecksum == useChecksum
    {
      tables, idToTable, tableToId, binlogName, binlogPos, calls := map[], map[], map[], [], 0, [];
      isConnected := false;
      this.useChecksum := useChecksum;
      eventRow := new RowLogEvent();
    }

    /** Distinct places hold distinct tables, and every recorded pointer is to a table of the list. */
    ghost predicate Valid()
      reads `tables, `idToTable
    {
      && (forall j, k :: j in tables && k in tables && j != k ==> tables[j] != tables[k])
      && (forall id :: id in idToTable ==> idToTable[id] in tables)
    }

    ghost function View(): State
      reads `tables, `idToTable, `tableToId, `binlogName, `binlogPos, `calls, tables.Values
    {
      State(TableViews(), idToTable, tableToId, binlogName, binlogPos, calls)
    }

    ghost function TableViews(): (v: map<Key, TableState>)
      reads `tables, tables.Values
      ensures v.Keys == tables.Keys
    {
      map k | k in tables :: tables[k].View()
    }

    /** Writing one table changes the view at its place and nowhere else. */
    twostate lemma OneTableWritten(k: Key)
      requires old(Valid()) && tables == old(tables) && k in tables
      requires forall j | j in tables && j != k :: tables[j].View() == old(tables[j].View())
      ensures TableViews() == old(TableViews())[k := tables[k].View()]
    {
      hide Table.View;
    }

    /** Watching a table twice, in any letter case, keeps the first. */
    method Watch(db: Name, name: Name)
      requires Valid()
      modifies `tables
      ensures Valid()
      ensures View() == WatchMore(old(View()), db, name)
    {
      var k := KeyOf(db, name);
      if db == [] || name == [] || k in tables {
        return;
      }
      var t := new Table();
      tables := tables[k := t];
      assert TableViews() == old(TableViews())[k := t.View()];
    }

    /**
     * Close, connect, request a dump; `accepts` and `dumps` are what the master answers. No dump is running afterwards
     * when `sent` is `None`: the loop throws, connected all the same unless the connection itself was refused.
     */
    method Reconnect(accepts: bool, dumps: bool) returns (sent: Option<Pos>)
      modifies `isConnected
      ensures isConnected == accepts
      ensures sent == if accepts && dumps then ResumePoint(View()) else None
      ensures sent.Some? <==> accepts && dumps && View().log != [] && View().pos > 0
    {
      isConnected := false;
      if !accepts {
        return None;
      }
      isConnected := true;
      if binlogName == [] || binlogPos == 0 || !dumps {
        return None;
      }
      return Some(Pos(binlogName, binlogPos));
    }

    method DispatchMap(buf: seq<byte>)
      requires Valid()
      modifies `idToTable, `tableToId, tables.Values
      ensures Valid()
      ensures var copy := MapCopy(buf, |buf|, useChecksum);
        View() == OnMap(old(View()), MapFact(MapId(buf), MapDatabase(buf), MapTable(buf), copy), false)
    {
      hide TuneTable, CString, MapId, MapDatabase, MapTable, MapCopy, KeyOf;
      var name := MapTable(buf);
      var k := KeyOf(MapDatabase(buf), name);
      if k !in tables {
        return;
      }
      var tbl, id := tables[k], MapId(buf);
      assert TableViews()[k] == tbl.View();
      if name in tableToId && tableToId[name] != id {
        tbl.SetTuned(false);
      }
      idToTable := idToTable[id := k];
      tableToId := tableToId[name := id];
      var _ := tbl.Tune(buf, |buf|, useChecksum);
      OneTableWritten(k);
    }

    /** False when the event cannot be tuned; the caller throws. */
    method DispatchRows(buf: seq<byte>) returns (ok: bool)
      requires Valid() && |buf| < TWO32
      requires var r := ParseRows(buf, |buf|, useChecksum); r.Some? ==> RowsFit(View(), r.value)
      modifies `calls, eventRow, tables.Values
      ensures Valid()
      ensures ok <==> ParseRows(buf, |buf|, useChecksum).Some?
      ensures View() == if ok then OnRows(old(View()), ParseRows(buf, |buf|, useChecksum).value) else old(View())
    {
      hide ParseRows, OnRows, RowsFit;
      var rc := eventRow.Tune(buf, |buf|, useChecksum);
      if rc != 0 {
        return false;
      }
      assert TableViews() == old(TableViews());
      CallBack();
      return true;
    }

    /** The tuned event is applied to the table its id was last mapped to, and the callback is made. */
    method CallBack()
      requires Valid() && eventRow.valid && RowsFit(View(), eventRow.View())
      modifies `calls, tables.Values
      ensures Valid()
      ensures View() == OnRows(old(View()), eventRow.View())
    {
      hide UpdateTable, KindOf, Positioned, TableViews;
      if eventRow.tableId !in idToTable {
        return;
      }
      var k := idToTable[eventRow.tableId];
      assert TableViews() == View().tables;
      UpdateAt(k);
      MakeCall(k);
    }

    /** The three cases of the loop: rows go to `on_insert` or `on_delete`, new rows beside old ones to `on_update`. */
    method MakeCall(k: Key)
      requires Valid() && k in tables
      modifies `calls
      ensures calls == old(calls) + [CallFor(tables[k].View(), k, eventRow.View())]
    {
      var tbl, t := tables[k], eventRow.etype;
      if t == WRITE_ROWS_EVENT || t == WRITE_ROWS_V2_EVENT {
        calls := calls + [Callback(Insert, k, eventRow.buffer, tbl.rows, [])];
      } else if t == UPDATE_ROWS_EVENT || t == UPDATE_ROWS_V2_EVENT {
        calls := calls + [Callback(Update, k, eventRow.buffer, tbl.rows, tbl.newRows)];
      } else {
        calls := calls + [Callback(Delete, k, eventRow.buffer, tbl.rows, [])];
      }
    }

    method UpdateAt(k: Key)
      requires Valid() && k in tables && eventRow.valid
      requires var t := TableViews()[k];
        Matches(t, eventRow.View()) ==> eventRow.View().Ends() && Positioned(t.row, eventRow.ncolumns)
      modifies tables.Values
      ensures tables[k].View() == UpdateTable(old(TableViews())[k], eventRow.View())
      ensures TableViews() == old(TableViews())[k := tables[k].View()]
    {
      hide UpdateTable, Positioned;
      assert TableViews()[k] == tables[k].View();
      var _ := tables[k].Update(eventRow);
      OneTableWritten(k);
    }

    /** One packet; false when the loop throws instead of going on. */
    method DispatchPacket(buf: seq<byte>) returns (ok: bool)
      requires Valid() && EventFits(View(), Classify(buf, useChecksum))
      modifies `idToTable, `tableToId, `binlogName, `binlogPos, `calls, eventRow, tables.Values
      ensures Valid()
      ensures ok <==> Classify(buf, useChecksum) != Bad
      ensures View() == Step(old(View()), Classify(buf, useChecksum), false)
    {
      hide OnMap, OnRows, ParseRows, RowsFit, TableViews, MapId, MapDatabase, MapTable, MapCopy, LE, At;
      if |buf| < 9 || |buf| != LE(buf, 9, 4) {
        return false;
      }
      LEBelow32(buf, 9, 4);
      var t := At(buf, EVENT_TYPE_OFFSET);
      if t > LAST_EVENT_TYPE {
        return false;
      }
      ok := true;
      if t == ROTATE_EVENT {
        var n := |buf| - HEADER_LEN - (if useChecksum then 4 else 0) - 8;
        binlogName := Slice(buf, HEADER_LEN + 8, if n < 0 then 0 else n);
        binlogPos := LE(buf, HEADER_LEN, 8) % TWO32;
      } else if t == FORMAT_DESCRIPTION_EVENT {
      } else if t == QUERY_EVENT {
        var status := LE(buf, HEADER_LEN + 11, 2);
        var room := (|buf| - HEADER_LEN - 13 - (if useChecksum then 4 else 0)) % TWO64;
        if status <= room && status <= MAX_STATUS {
          binlogPos := LogPos(buf);
        }
      } else if t == TABLE_MAP_EVENT {
        DispatchMap(buf);
      } else if IsRowsType(t) {
        ok := DispatchRows(buf);
      } else {
        binlogPos := LogPos(buf);
      }
    }

    /** The loop, over what is read while the connection lasts. It throws at the first lost read or bad packet. */
    method DispatchEvents(input: seq<Read>) returns (thrown: bool)
      requires Valid() && isConnected && RunFits(View(), Accepted(input, useChecksum))
      modifies `idToTable, `tableToId, `binlogName, `binlogPos, `isConnected, `calls, eventRow, tables.Values
      ensures Valid()
      ensures View() == Run(old(View()), Accepted(input, useChecksum), false)
      ensures thrown <==> |Accepted(input, useChecksum)| < |input|
      ensures isConnected <==> !(thrown && input[|Accepted(input, useChecksum)|].Lost?)
    {
      hide Run, RunFits, Accepted, Classify, Step, EventFits, TableViews;
      ghost var was := View();
      assert input[0..] == input;
      var i := 0;
      while i < |input|
        invariant 0 <= i <= |input| && Valid() && isConnected && tables == old(tables)
        invariant RunFits(View(), Accepted(input[i..], useChecksum))
        invariant Run(was, Accepted(input, useChecksum), false) == Run(View(), Accepted(input[i..], useChecksum), false)
        invariant |Accepted(input, useChecksum)| == i + |Accepted(input[i..], useChecksum)|
      {
        ghost var e := AcceptStep(input, i, useChecksum);
        ghost var todo := Accepted(input[i..], useChecksum);
        RunStep(View(), todo);
        if input[i].Lost? {
          isConnected := false;
          return true;
        }
        BadStep(View());
        var ok := DispatchPacket(input[i].bytes);
        if !ok {
          return true;
        }
        assert todo[1..] == Accepted(input[i + 1..], useChecksum);
        i := i + 1;
      }
      ghost var rest := Accepted(input[i..], useChecksum);
      RunStep(View(), rest);
      return false;
    }
  }
}
