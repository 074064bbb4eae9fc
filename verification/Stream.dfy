/**
 * The whole path: what a master writes to its log, printed as packets, sent to a client whose connection may drop at
 * any time, comes out of the callbacks as the rows that were written.
 */
module Stream {
  import opened Numbers
  import opened Memory
  import opened Values
  import opened EventCodes
  import opened RowEvents
  import opened TableMaps
  import opened Tables
  import opened RowImages
  import opened Framing
  import opened Dispatcher
  import opened LayoutCache
  import opened Replication

  /** An event as its author knows it. A rows event is written under a table map, with the rows it changes. */
  datatype Written =
    | WRotate(h: Header, log: Name, pos: uint32)
    | WFormat(h: Header, data: seq<byte>)
    | WQuery(h: Header, fixed: seq<byte>, status: seq<byte>, rest: seq<byte>)
    | WMap(h: Header, tm: TableMap, flags: nat, tail: seq<byte>)
    | WRows(h: Header, kind: Kind, v2: bool, frame: RowsFrame, tm: TableMap, count: nat, afterCount: nat,
            changes: seq<Change>)
    | WOther(h: Header, etype: byte, data: seq<byte>)

  /** The type byte that the master puts into the header. */
  function TypeOf(w: Written): byte {
    match w
    case WRotate(_, _, _) => 4
    case WFormat(_, _) => 15
    case WQuery(_, _, _, _) => 2
    case WMap(_, _, _, _) => 19
    case WRows(_, kind, v2, _, _, _, _, _) => Code(kind, v2)
    case WOther(_, t, _) => t
  }

  function PayloadOf(w: Written): seq<byte> {
    match w
    case WRotate(_, log, pos) => LEBytes(pos, 8) + log
    case WFormat(_, data) => data
    case WQuery(_, fixed, status, rest) => fixed + (LEBytes(|status|, 2) + (status + rest))
    case WMap(_, tm, flags, tail) => if MapPrintable(tm) then PrintMap(tm, flags, tail) else []
    case WRows(_, kind, v2, frame, tm, _, _, changes) =>
      PrintRows(kind, v2, frame, |tm.types| % TWO64, PrintChanges(tm, kind == Update, changes))
    case WOther(_, _, data) => data
  }

  function Print(w: Written): seq<byte> { PrintPacket(w.h, TypeOf(w), PayloadOf(w)) }

  /** The types that the events above have: queries, rotations, format descriptions, maps, and rows events. */
  predicate Special(t: byte) {
    t == 2 || t == 4 || t == 15 || t == 19 || t == 23 || t == 24 || t == 25 || t == 30 || t == 31 || t == 32
  }

  ghost predicate Printable(w: Written, useChecksum: bool) {
    && HEADER_LEN + |PayloadOf(w)| + |w.h.crc| < TWO32
    && |w.h.crc| == (if useChecksum then 4 else 0)
    && match w
       case WRotate(_, _, _) => true
       case WFormat(_, _) => true
       case WQuery(_, fixed, status, rest) => |fixed| == 11 && |status| <= 638 && fixed[8] < |rest|
       case WMap(_, tm, _, _) => MapPrintable(tm) && tm.db != [] && tm.name != [] && tm.types != []
       case WRows(_, kind, _, frame, tm, count, afterCount, changes) =>
         && LayoutOk(tm) && FramePrintable(frame, |tm.types|) && frame.id == tm.id
         && LeadingFrame(kind, frame, |tm.types|, count, afterCount)
         && ChangesOk(tm, kind == Update, changes, count, afterCount)
       case WOther(_, t, _) => t <= 38 && !Special(t)
  }

  /** The event holds the printed rows of `w`. */
  ghost predicate HoldsRows(ev: RowsEvent, w: Written)
    requires w.WRows?
  {
    && ev.etype == Code(w.kind, w.v2) && ev.tableId == w.tm.id
    && (exists before: uint64, after: uint64 ::
          LeadingImages(w.tm, ev, before, after, w.count, w.afterCount))
    && Holds(ev.mem, ev.data, PrintChanges(w.tm, w.kind == Update, w.changes))
    && ev.len == |PrintChanges(w.tm, w.kind == Update, w.changes)| < TWO32
  }

  /** What the loop takes a printed event for. */
  ghost predicate Recognized(e: Event, w: Written) {
    match w
    case WRotate(_, log, pos) => e == Rotate(log, pos)
    case WFormat(_, _) => e == Format
    case WQuery(h, _, _, _) => e == Query(Some(h.logPos))
    case WMap(_, tm, _, _) => e.Map? && e.fact.id == tm.id && e.fact.Key() == KeyOf(tm.db, tm.name)
                              && e.fact.name == tm.name && e.fact.Layout() == tm
    case WRows(_, _, _, _, _, _, _, _) => e.Rows? && HoldsRows(e.ev, w)
    case WOther(h, _, _) => e == Other(h.logPos)
  }

  lemma RotateRecognized(w: Written, useChecksum: bool)
    requires w.WRotate? && Printable(w, useChecksum)
    ensures Recognized(Classify(Print(w), useChecksum), w)
  {
    hide LE, LEBytes, Slice, At, Holds, PrintPacket;
    var m := Print(w);
    PacketRoundTrip(w.h, ROTATE_EVENT, PayloadOf(w));
    HoldsConcat(m, HEADER_LEN, LEBytes(w.pos, 8), w.log);
    LERoundTrip(m, HEADER_LEN, 8, w.pos);
    PowMono(256, 4, 8);
    Pow256Values();
    HoldsSlice(m, HEADER_LEN + 8, w.log);
  }

  /** A query packet whose status block is said to have `n` bytes. */
  function QueryPacket(h: Header, fixed: seq<byte>, n: nat, rest: seq<byte>): seq<byte> {
    PrintPacket(h, 2, fixed + (LEBytes(n, 2) + rest))
  }

  /** The position of a query is stored if and only if its status block is there and has at most 638 bytes. */
  lemma QueryStored(h: Header, fixed: seq<byte>, n: nat, rest: seq<byte>, useChecksum: bool)
    requires |fixed| == 11 && n < 65536 && |h.crc| == (if useChecksum then 4 else 0)
    requires HEADER_LEN + 13 + |rest| + |h.crc| < TWO32
    ensures Classify(QueryPacket(h, fixed, n, rest), useChecksum) ==
      Query(if n <= |rest| && n <= 638 then Some(h.logPos) else None)
  {
    hide LE, LEBytes, Slice, At, Holds, PrintPacket;
    var m := QueryPacket(h, fixed, n, rest);
    PacketRoundTrip(h, 2, fixed + (LEBytes(n, 2) + rest));
    HoldsConcat(m, HEADER_LEN, fixed, LEBytes(n, 2) + rest);
    HoldsConcat(m, HEADER_LEN + 11, LEBytes(n, 2), rest);
    Pow256Values();
    LERoundTrip(m, HEADER_LEN + 11, 2, n);
    SmallMod(|rest|, TWO64);
  }

  lemma QueryRecognized(w: Written, useChecksum: bool)
    requires w.WQuery? && Printable(w, useChecksum)
    ensures Recognized(Classify(Print(w), useChecksum), w)
  {
    hide Classify, PrintPacket, LEBytes;
    assert |PayloadOf(w)| == 13 + |w.status + w.rest|;
    QueryStored(w.h, w.fixed, |w.status|, w.status + w.rest, useChecksum);
  }

  lemma MapRecognized(w: Written, useChecksum: bool)
    requires w.WMap? && Printable(w, useChecksum)
    ensures Recognized(Classify(Print(w), useChecksum), w)
  {
    hide LE, LEBytes, Slice, At, Holds, PrintPacket, PrintMap, PrintHeader;
    hide ParseMap, MapId, MapDatabase, MapTable, KeyOf;
    var m, p := Print(w), PrintMap(w.tm, w.flags, w.tail);
    PacketRoundTrip(w.h, TABLE_MAP_EVENT, p);
    var copy := MapCopy(m, |m|, useChecksum);
    var head := PrintHeader(w.h, TABLE_MAP_EVENT, |m|);
    assert copy == head + p;
    HoldsAll(copy);
    HoldsConcat(copy, 0, head, p);
    MapRoundTrip(m, w.tm, w.flags, w.tail);
    MapRoundTrip(copy, w.tm, w.flags, w.tail);
  }

  /** A packet whose rows event can be tuned is taken for that rows event. */
  lemma RowsClassified(m: seq<byte>, useChecksum: bool)
    requires 9 <= |m| < TWO32 && |m| == LE(m, 9, 4) && IsRowsType(At(m, EVENT_TYPE_OFFSET))
    requires ParseRows(m, |m|, useChecksum).Some?
    ensures Classify(m, useChecksum) == Rows(ParseRows(m, |m|, useChecksum).value)
  {
    hide LE, At, ParseRows;
  }

  lemma RowsHeld(w: Written, ev: RowsEvent)
    requires w.WRows? && LayoutOk(w.tm) && FramePrintable(w.frame, |w.tm.types|) && w.frame.id == w.tm.id
    requires LeadingFrame(w.kind, w.frame, |w.tm.types|, w.count, w.afterCount)
    requires var before, after := Bits.BitsVal(w.frame.used), Bits.BitsVal(w.frame.afterUsed);
      && before < TWO64 && after < TWO64
      && ev.etype == Code(w.kind, w.v2) && ev.tableId == w.frame.id && ev.ncolumns == |w.tm.types|
      && ev.used == PackCount(before) && (w.kind == Update ==> ev.after == PackCount(after))
    requires var body := PrintChanges(w.tm, w.kind == Update, w.changes);
      ev.len == |body| < TWO32 && Holds(ev.mem, ev.data, body)
    ensures HoldsRows(ev, w)
  {
    hide LayoutOk, PackCount, LeadingMask, LeadingBits, BitmapOk, PrintChanges, Holds, Bits.BitsVal;
    LeadingValue(w.frame.used, w.count, |w.tm.types|);
    LeadingValue(w.frame.afterUsed, w.afterCount, |w.tm.types|);
    var before, after := Bits.BitsVal(w.frame.used), Bits.BitsVal(w.frame.afterUsed);
    assert LeadingImages(w.tm, ev, before, after, w.count, w.afterCount);
  }

  lemma RowsPayload(w: Written, useChecksum: bool)
    requires w.WRows? && Printable(w, useChecksum)
    ensures var body := PrintChanges(w.tm, w.kind == Update, w.changes); var n := |w.tm.types|;
      && 1 <= n <= 48 && PayloadOf(w) == PrintRows(w.kind, w.v2, w.frame, n, body)
      && HEADER_LEN + |PayloadOf(w)| + |w.h.crc| < TWO32 && |w.h.crc| == (if useChecksum then 4 else 0)
      && Print(w) == PrintPacket(w.h, Code(w.kind, w.v2), PayloadOf(w))
      && LayoutOk(w.tm) && FramePrintable(w.frame, n) && w.frame.id == w.tm.id
      && LeadingFrame(w.kind, w.frame, n, w.count, w.afterCount)
  {
    hide PrintPacket, PrintRows, PrintChanges, Supported, MetaAt, ChangesOk, LeadingBits;
  }

  lemma RowsRecognized(w: Written, useChecksum: bool)
    requires w.WRows? && Printable(w, useChecksum)
    ensures Recognized(Classify(Print(w), useChecksum), w)
  {
    RowsPayload(w, useChecksum);
    assert HEADER_LEN == 19 && EVENT_TYPE_OFFSET == 4 && TWO32 < TWO64;
    var t, n, m := Code(w.kind, w.v2), |w.tm.types|, Print(w);
    var body := PrintChanges(w.tm, w.kind == Update, w.changes);
    CodeRead(w.kind, w.v2);
    hide LE, LEBytes, At, Holds, Print, PrintPacket, PrintRows, PrintChanges, ParseRows;
    hide LeadingMask, PackCount, LeadingFrame;
    hide LayoutOk, ChangesOk, Printable, PayloadOf, Classify, HoldsRows, FramePrintable, Bits.BitsVal;
    PacketRoundTrip(w.h, t, PayloadOf(w));
    RowsFrameRoundTrip(m, w.kind, w.v2, w.frame, n, body, useChecksum);
    RowsClassified(m, useChecksum);
    BodyInEvent(w.kind, w.v2, w.frame, n, body);
    RowsHeld(w, ParseRows(m, |m|, useChecksum).value);
  }

  /** Every printed event is recognized. */
  lemma PrintedIsRecognized(w: Written, useChecksum: bool)
    requires Printable(w, useChecksum)
    ensures Recognized(Classify(Print(w), useChecksum), w)
  {
    match w {
      case WRotate(_, _, _) => RotateRecognized(w, useChecksum);
      case WQuery(_, _, _, _) => QueryRecognized(w, useChecksum);
      case WMap(_, _, _, _) => MapRecognized(w, useChecksum);
      case WRows(_, _, _, _, _, _, _, _) => RowsRecognized(w, useChecksum);
      case _ =>
        hide LE, PrintPacket;
        PacketRoundTrip(w.h, TypeOf(w), PayloadOf(w));
    }
  }

  // ---------------------------------------------------------------- logs

  function EventsOf(ws: seq<Written>, useChecksum: bool): seq<Event> {
    seq(|ws|, i requires 0 <= i < |ws| => Classify(Print(ws[i]), useChecksum))
  }

  function LogOf(ws: seq<Written>, starts: seq<Pos>, useChecksum: bool): Binlog {
    Binlog(EventsOf(ws, useChecksum), starts)
  }

  predicate Positional(w: Written) { w.WRotate? || w.WQuery? || w.WOther? }

  ghost predicate IsMap(ws: seq<Written>, i: int) { 0 <= i < |ws| && ws[i].WMap? }

  ghost predicate IsRows(ws: seq<Written>, i: int) { 0 <= i < |ws| && ws[i].WRows? }

  function TableKey(w: Written): Key
    requires w.WMap? || w.WRows?
  {
    KeyOf(w.tm.db, w.tm.name)
  }

  /** Rows event `r` belongs to the map at `m`; only maps, rows events and format descriptions come between them. */
  ghost predicate Belongs(ws: seq<Written>, m: int, r: int) {
    && IsMap(ws, m) && IsRows(ws, r) && m < r && ws[m].tm == ws[r].tm
    && forall i | m < i < r :: !Positional(ws[i]) &&
         (IsMap(ws, i) && TableKey(ws[i]) == TableKey(ws[m]) ==> ws[i].tm.id == ws[m].tm.id)
  }

  /** The positions are those the events carry, and they are distinct. */
  ghost predicate StartsOk(ws: seq<Written>, starts: seq<Pos>) {
    && |starts| == |ws| + 1
    && (forall i, j | 0 <= i < j < |starts| :: starts[i] != starts[j])
    && (forall i | 0 <= i < |starts| :: starts[i].log != [] && 0 < starts[i].off < TWO32)
    && (forall i | 0 <= i < |ws| ::
          match ws[i]
          case WRotate(_, log, pos) => starts[i + 1] == Pos(log, pos)
          case WQuery(h, _, _, _) => starts[i + 1] == Pos(starts[i].log, h.logPos)
          case WOther(h, _, _) => starts[i + 1] == Pos(starts[i].log, h.logPos)
          case _ => starts[i + 1].log == starts[i].log)
  }

  /**
   * A log as a master writes it: an id stands for one table and layout, a table is always spelt the same, and rows
   * events follow the map of their table with nothing else in between.
   */
  ghost predicate StreamOk(ws: seq<Written>, starts: seq<Pos>, useChecksum: bool) {
    && (forall i | 0 <= i < |ws| :: Printable(ws[i], useChecksum))
    && (forall i, j | IsMap(ws, i) && IsMap(ws, j) && ws[i].tm.id == ws[j].tm.id :: ws[i].tm == ws[j].tm)
    && (forall i, j | IsMap(ws, i) && IsMap(ws, j) && TableKey(ws[i]) == TableKey(ws[j]) ::
          ws[i].tm.name == ws[j].tm.name)
    && (forall r | IsRows(ws, r) :: exists m :: Belongs(ws, m, r))
    && StartsOk(ws, starts)
  }

  lemma EventRecognized(ws: seq<Written>, starts: seq<Pos>, useChecksum: bool, i: nat)
    requires StreamOk(ws, starts, useChecksum) && i < |ws|
    ensures i < |EventsOf(ws, useChecksum)| && Recognized(EventsOf(ws, useChecksum)[i], ws[i])
    ensures Printable(ws[i], useChecksum)
  {
    hide Classify, Print, Printable, Recognized, Belongs, StartsOk;
    PrintedIsRecognized(ws[i], useChecksum);
  }

  /** Each map of the log was written by the master. */
  lemma FactWritten(ws: seq<Written>, starts: seq<Pos>, useChecksum: bool, a: MapFact) returns (i: nat)
    requires StreamOk(ws, starts, useChecksum) && a in LogOf(ws, starts, useChecksum).Facts()
    ensures IsMap(ws, i) && a.id == ws[i].tm.id && a.Key() == TableKey(ws[i]) && a.name == ws[i].tm.name
    ensures a.Layout() == ws[i].tm && ws[i].tm.Valid() && EventsOf(ws, useChecksum)[i] == Map(a)
  {
    hide Classify, Print, StreamOk, ParseMap, KeyOf;
    var es := EventsOf(ws, useChecksum);
    var e :| e in es && e.Map? && e.fact == a;
    i :| 0 <= i < |es| && es[i] == e;
    EventRecognized(ws, starts, useChecksum, i);
  }

  lemma FactsConsistent(ws: seq<Written>, starts: seq<Pos>, useChecksum: bool)
    requires StreamOk(ws, starts, useChecksum)
    ensures var facts := LogOf(ws, starts, useChecksum).Facts();
      IdUnique(facts) && OneSpelling(facts) && MapsOk(facts)
  {
    hide Classify, Print, Printable, Belongs, StartsOk, ParseMap, KeyOf, LayoutCache.Facts;
    var facts := LogOf(ws, starts, useChecksum).Facts();
    forall a, b | a in facts && b in facts
      ensures a.id == b.id ==> a.Key() == b.Key() && a.Layout() == b.Layout()
      ensures a.Key() == b.Key() ==> a.name == b.name
      ensures a.Layout().Valid() && a.Layout().id == a.id
    {
      var i := FactWritten(ws, starts, useChecksum, a);
      var j := FactWritten(ws, starts, useChecksum, b);
    }
  }

  lemma RowsAdvance(w: Written, ev: RowsEvent, useChecksum: bool)
    requires w.WRows? && Printable(w, useChecksum) && HoldsRows(ev, w)
    ensures ev.Advances() && ev.Ends() && ev.ncolumns == |w.tm.types| && 1 <= |w.tm.types| <= 48 && LayoutOk(w.tm)
  {
    hide LeadingMask, Supported, PrintChanges, Holds;
    var before: uint64, after: uint64 :| LeadingImages(w.tm, ev, before, after, w.count, w.afterCount);
    LeadingImagesAdvance(w.tm, ev, before, after, w.count, w.afterCount);
  }

  lemma BelongsUnder(ws: seq<Written>, starts: seq<Pos>, useChecksum: bool, m: int, r: int)
    requires StreamOk(ws, starts, useChecksum) && Belongs(ws, m, r)
    ensures Under(LogOf(ws, starts, useChecksum), m, r)
  {
    hide Classify, Print, Printable, StreamOk, ParseMap, KeyOf, HoldsRows, LayoutOk;
    var es := EventsOf(ws, useChecksum);
    EventRecognized(ws, starts, useChecksum, m);
    EventRecognized(ws, starts, useChecksum, r);
    RowsAdvance(ws[r], es[r].ev, useChecksum);
    RowsId(ws[r], es[r].ev);
    forall i | m < i < r
      ensures !SetsPosition(es[i])
      ensures es[i].Map? && es[i].fact.Key() == es[m].fact.Key() ==> es[i].fact.id == es[m].fact.id
    {
      EventRecognized(ws, starts, useChecksum, i);
    }
  }

  lemma RowsId(w: Written, ev: RowsEvent)
    requires w.WRows? && HoldsRows(ev, w)
    ensures ev.tableId == w.tm.id && ev.etype == Code(w.kind, w.v2)
  {
    hide LeadingImages, PrintChanges, Holds;
  }

  lemma PositionsFollow(ws: seq<Written>, starts: seq<Pos>, useChecksum: bool)
    requires StreamOk(ws, starts, useChecksum)
    ensures PositionsOk(LogOf(ws, starts, useChecksum))
  {
    hide Classify, Print, Printable, Belongs, ParseMap, KeyOf, HoldsRows;
    var es := EventsOf(ws, useChecksum);
    assert StartsOk(ws, starts);
    forall i | 0 <= i < |es|
      ensures if SetsPosition(es[i]) then starts[i + 1] == PositionAfter(es[i], starts[i].log)
              else starts[i + 1].log == starts[i].log
    {
      EventRecognized(ws, starts, useChecksum, i);
      hide StreamOk;
    }
  }

  /** A log as a master writes it meets every assumption made about the events the client sees. */
  lemma StreamWellFormed(ws: seq<Written>, starts: seq<Pos>, useChecksum: bool)
    requires StreamOk(ws, starts, useChecksum)
    ensures WellFormed(LogOf(ws, starts, useChecksum))
  {
    hide Classify, Print, Printable, Belongs, StartsOk, ParseMap, KeyOf, HoldsRows, LayoutOk;
    hide PositionsOk, LayoutCache.Facts, RowsEvent.Advances, IdUnique, OneSpelling, Under;
    var b, es := LogOf(ws, starts, useChecksum), EventsOf(ws, useChecksum);
    FactsConsistent(ws, starts, useChecksum);
    PositionsFollow(ws, starts, useChecksum);
    forall i | 0 <= i < |es|
      ensures RowsAt(b, i) ==> es[i].ev.Ends() && exists m :: Under(b, m, i)
    {
      EventRecognized(ws, starts, useChecksum, i);
      if ws[i].WRows? {
        RowsAdvance(ws[i], es[i].ev, useChecksum);
        assert IsRows(ws, i);
        var m :| Belongs(ws, m, i);
        BelongsUnder(ws, starts, useChecksum, m, i);
      }
    }
  }

  // ---------------------------------------------------------------- the rows come out

  /** The callback shows the written rows: new ones beside the old ones for an update. */
  ghost predicate CallShows(call: Callback, w: Written)
    requires w.WRows?
  {
    && call.kind == w.kind && call.key == TableKey(w)
    && AllShow(w.tm, call.mem, call.rows, Befores(w.changes))
    && AllShow(w.tm, call.mem, call.newRows, if w.kind == Update then Afters(w.changes) else [])
  }

  lemma IdealShows(a: MapFact, ev: RowsEvent, w: Written, useChecksum: bool)
    requires w.WRows? && Printable(w, useChecksum) && HoldsRows(ev, w)
    requires a.Layout() == w.tm && a.Key() == TableKey(w)
    ensures ev.Ends() && CallShows(IdealCall(a, ev), w)
  {
    hide ParseMap, KeyOf, LeadingMask, Supported, PrintChanges, Holds, ReadRows, AllShow, ChangesOk;
    RowsAdvance(w, ev, useChecksum);
    var before: uint64, after: uint64 :| LeadingImages(w.tm, ev, before, after, w.count, w.afterCount);
    RowsRoundTrip(w.tm, ev, before, after, w.count, w.afterCount, w.changes,
                  Blanks(|w.tm.types|), ev.data, ev.len);
    NoneShow(w.tm, ev.mem);
  }

  lemma NoneShow(tm: TableMap, m: seq<byte>)
    ensures AllShow(tm, m, [], [])
  {
  }

  lemma NamesGiven(w: Written, useChecksum: bool)
    requires w.WMap? && Printable(w, useChecksum)
    ensures w.tm.Valid()
  {
    hide MapPrintable;
  }

  /** The map a rows event belongs to. */
  lemma MapOf(ws: seq<Written>, starts: seq<Pos>, useChecksum: bool, r: nat) returns (m: nat)
    requires StreamOk(ws, starts, useChecksum) && IsRows(ws, r)
    ensures IsMap(ws, m) && EventsOf(ws, useChecksum)[m].Map? && ws[r].tm.db != [] && ws[r].tm.name != []
    ensures var a := EventsOf(ws, useChecksum)[m].fact;
      && a in LogOf(ws, starts, useChecksum).Facts() && a.id == ws[r].tm.id
      && a.Layout() == ws[r].tm && a.Key() == TableKey(ws[r])
  {
    hide Classify, Print, Printable, ParseMap, KeyOf, StartsOk;
    m :| Belongs(ws, m, r);
    EventRecognized(ws, starts, useChecksum, m);
    NamesGiven(ws[m], useChecksum);
    FactOf(LogOf(ws, starts, useChecksum), m);
  }

  /** The expected calls of a log position: one that shows the written rows if the table was asked for, else none. */
  lemma CallsShow(ws: seq<Written>, starts: seq<Pos>, useChecksum: bool, list: seq<Pair>, i: nat)
    requires StreamOk(ws, starts, useChecksum) && WellFormed(LogOf(ws, starts, useChecksum)) && i < |ws|
    ensures var calls := CallsOf(LogOf(ws, starts, useChecksum), Watching(list), i);
      if ws[i].WRows? && Wanted(list, ws[i].tm.db, ws[i].tm.name) then |calls| == 1 && CallShows(calls[0], ws[i])
      else calls == []
  {
    hide Classify, Print, Printable, ParseMap, KeyOf, HoldsRows, LayoutOk, LayoutCache.Facts, IdealCall, CallShows;
    hide WellFormed, StreamOk, Under, Watching, Wanted;
    var b, es := LogOf(ws, starts, useChecksum), EventsOf(ws, useChecksum);
    EventRecognized(ws, starts, useChecksum, i);
    if ws[i].WRows? {
      RowsAdvance(ws[i], es[i].ev, useChecksum);
      var m := MapOf(ws, starts, useChecksum, i);
      var a := es[m].fact;
      RowsId(ws[i], es[i].ev);
      FactsConsistent(ws, starts, useChecksum);
      UniqueCalls(b, Watching(list), i, a);
      WatchingWanted(list, ws[i].tm.db, ws[i].tm.name);
      IdealShows(a, es[i].ev, ws[i], useChecksum);
    }
  }

  /** The call at `p` shows the rows of `w`. */
  ghost predicate ShownAt(all: seq<Callback>, p: nat, w: Written)
    requires w.WRows?
  {
    p < |all| && CallShows(all[p], w)
  }

  ghost predicate IsWatched(ws: seq<Written>, list: seq<Pair>, i: int)
    ensures IsWatched(ws, list, i) ==> 0 <= i < |ws| && ws[i].WRows?
  {
    IsRows(ws, i) && Wanted(list, ws[i].tm.db, ws[i].tm.name)
  }

  /** How many of these deliveries are rows events of tables that were asked for. */
  ghost function WatchedRows(ws: seq<Written>, list: seq<Pair>, ds: seq<nat>): nat {
    if ds == [] then 0
    else WatchedRows(ws, list, ds[..|ds| - 1]) + if IsWatched(ws, list, ds[|ds| - 1]) then 1 else 0
  }

  lemma PrefixIn(ds: seq<nat>, k: nat)
    requires k <= |ds|
    ensures forall i | i in ds[..k] :: i in ds
  {
  }

  lemma LogLength(ws: seq<Written>, starts: seq<Pos>, useChecksum: bool)
    ensures |LogOf(ws, starts, useChecksum).events| == |ws|
  {
    hide Classify, Print;
  }

  lemma {:induction false} ExpectedCount(ws: seq<Written>, starts: seq<Pos>, useChecksum: bool, list: seq<Pair>,
                                         ds: seq<nat>)
    requires StreamOk(ws, starts, useChecksum) && WellFormed(LogOf(ws, starts, useChecksum))
    requires forall i | i in ds :: i < |ws|
    ensures |Expected(LogOf(ws, starts, useChecksum), Watching(list), ds)| == WatchedRows(ws, list, ds)
  {
    hide StreamOk, WellFormed, CallsOf, LogOf, CallShows, Watching, Wanted;
    if ds != [] {
      var n := |ds| - 1;
      assert ds[n] in ds;
      PrefixIn(ds, n);
      ExpectedCount(ws, starts, useChecksum, list, ds[..n]);
      CallsShow(ws, starts, useChecksum, list, ds[n]);
    }
  }

  lemma DeliveryShown(ws: seq<Written>, starts: seq<Pos>, useChecksum: bool, list: seq<Pair>, i: nat,
                      all: seq<Callback>, p: nat)
    requires StreamOk(ws, starts, useChecksum) && WellFormed(LogOf(ws, starts, useChecksum))
    requires IsWatched(ws, list, i) && CallsAt(all, p, CallsOf(LogOf(ws, starts, useChecksum), Watching(list), i))
    ensures ShownAt(all, p, ws[i])
  {
    hide StreamOk, WellFormed, CallsOf, LogOf, CallShows, Watching, Wanted;
    CallsShow(ws, starts, useChecksum, list, i);
    assert all[p..p + 1][0] == all[p];
  }

  lemma StartedLinked(b: Binlog, c: Client, start: nat)
    requires Started(b, c, start)
    ensures c.parser.Linked()
  {
  }

  /**
   * What was written is what is delivered. A client watches a list of tables, starts at a position that splits no group
   * and reads a log whose connection drops under any schedule. Then every event that it ever got past was sent to it;
   * each time it was sent a rows event of a table that was asked for, in any letter case, it made a callback of its
   * own, of the kind that was written, which shows exactly the rows that were written, in the order of what it was sent;
   * it made no other callbacks; and the position it resumes from splits no group.
   */
  lemma WrittenRowsAreDelivered(ws: seq<Written>, starts: seq<Pos>, useChecksum: bool, list: seq<Pair>,
                                c: Client, start: nat, mvs: seq<Move>)
    requires StreamOk(ws, starts, useChecksum) && Started(LogOf(ws, starts, useChecksum), c, start)
    requires c.parser.tables.Keys == Watching(list)
    ensures WellFormed(LogOf(ws, starts, useChecksum))
    ensures var b := LogOf(ws, starts, useChecksum);
      var r, was := RunMoves(b, c, mvs), |c.parser.calls|;
      && (exists j :: Resumes(b, r, start, j))
      && (forall i | start <= i < r.high :: i in r.delivered) && (forall i | i in r.delivered :: i < |ws|)
      && r.parser.calls == c.parser.calls + Expected(b, Watching(list), r.delivered)
      && (forall k | 0 <= k <= |r.delivered| ::
            |Expected(b, Watching(list), r.delivered[..k])| == WatchedRows(ws, list, r.delivered[..k]))
      && forall k | 0 <= k < |r.delivered| && IsWatched(ws, list, r.delivered[k]) ::
           ShownAt(r.parser.calls, was + WatchedRows(ws, list, r.delivered[..k]), ws[r.delivered[k]])
  {
    hide *;
    StreamWellFormed(ws, starts, useChecksum);
    var b := LogOf(ws, starts, useChecksum);
    StartedLinked(b, c, start);
    AtLeastOnce(b, c, start, mvs);
    LogLength(ws, starts, useChecksum);
    var r := RunMoves(b, c, mvs);
    forall k | 0 <= k <= |r.delivered|
      ensures |Expected(b, Watching(list), r.delivered[..k])| == WatchedRows(ws, list, r.delivered[..k])
    {
      PrefixIn(r.delivered, k);
      ExpectedCount(ws, starts, useChecksum, list, r.delivered[..k]);
    }
    forall k | 0 <= k < |r.delivered| && IsWatched(ws, list, r.delivered[k])
      ensures ShownAt(r.parser.calls, |c.parser.calls| + WatchedRows(ws, list, r.delivered[..k]),
                      ws[r.delivered[k]])
    {
      assert r.delivered[k] in r.delivered;
      PrefixIn(r.delivered, k);
      ExpectedCount(ws, starts, useChecksum, list, r.delivered[..k]);
      DeliveryShown(ws, starts, useChecksum, list, r.delivered[k], r.parser.calls,
                    |c.parser.calls| + |Expected(b, Watching(list), r.delivered[..k])|);
    }
  }

  // ---------------------------------------------------------------- two small logs

  /** A table `d.<letter>` of one TINYINT column, under this id. */
  function OneColumn(id: byte, letter: byte): TableMap { TableMap(id, [100], [letter], [TYPE_TINY], []) }

  function Filler(): seq<bool> { seq(7, _ => false) }

  function OneRow(value: byte): Change { Change(Image([Some([value])], 1, Filler()), Image([], 1, [])) }

  function Plain(): Header { Header(0, 1, 4, 0, []) }

  function MapOne(id: byte, letter: byte): Written { WMap(Plain(), OneColumn(id, letter), 1, [0]) }

  function InsertOne(id: byte, letter: byte, value: byte): Written {
    WRows(Plain(), Insert, false, RowsFrame(id, 1, [], [true] + Filler(), [true] + Filler()),
          OneColumn(id, letter), 1, 1, [OneRow(value)])
  }

  /** A map of a one-column table, and an insert of one row into it. */
  function SmallLog(value: byte): seq<Written> { [MapOne(1, 116), InsertOne(1, 116, value)] }

  lemma MapOnePrintable(id: byte, letter: byte)
    requires letter != 0
    ensures Printable(MapOne(id, letter), false)
  {
    hide LEBytes, PrintLength;
  }

  lemma OneColumnOk(id: byte, letter: byte)
    ensures LayoutOk(OneColumn(id, letter)) && MetaAt(OneColumn(id, letter), 0) == 0
  {
  }

  lemma OneRowOk(id: byte, letter: byte, value: byte)
    requires LayoutOk(OneColumn(id, letter))
    ensures ChangesOk(OneColumn(id, letter), false, [OneRow(value)], 1, 1)
  {
    OneColumnOk(id, letter);
    hide LayoutOk, MetaAt;
    assert CellFits(OneColumn(id, letter), 0, OneRow(value).before.cells[0]);
  }

  lemma OneRowSize(id: byte, letter: byte, value: byte)
    ensures |PrintChanges(OneColumn(id, letter), false, [OneRow(value)])| <= 4
  {
    hide LEBytes, Bits.BitsVal, MetaAt;
    OneColumnOk(id, letter);
    var tm, c := OneColumn(id, letter), OneRow(value);
    assert PrintCells(tm, c.before.cells, 1) == [];
    assert PrintChanges(tm, false, [c]) == PrintChange(tm, false, c) + [];
  }

  lemma InsertOneSize(id: byte, letter: byte, value: byte)
    ensures var w := InsertOne(id, letter, value);
      HEADER_LEN + |PayloadOf(w)| + |w.h.crc| < TWO32 && FramePrintable(w.frame, 1)
  {
    OneRowSize(id, letter, value);
    hide LEBytes, PrintLength, PrintChanges, LayoutOk, Bits.BitsVal;
    var w := InsertOne(id, letter, value);
    assert PayloadOf(w) == PrintRows(w.kind, w.v2, w.frame, 1, PrintChanges(w.tm, false, w.changes));
  }

  lemma InsertOnePrintable(id: byte, letter: byte, value: byte)
    ensures Printable(InsertOne(id, letter, value), false)
  {
    OneColumnOk(id, letter);
    OneRowOk(id, letter, value);
    InsertOneSize(id, letter, value);
    FullBitsLead([true] + Filler(), 1);
    hide LeadingBits, LayoutOk, ChangesOk, PayloadOf, FramePrintable;
  }

  lemma SmallLogStarts(value: byte)
    ensures StartsOk(SmallLog(value), [Pos([98], 4), Pos([98], 60), Pos([98], 90)])
  {
  }

  lemma SmallLogShape(value: byte)
    ensures var ws := SmallLog(value); |ws| == 2 && ws[0].WMap? && ws[1].WRows? && ws[0].tm == ws[1].tm
    ensures SmallLog(value)[0] == MapOne(1, 116) && SmallLog(value)[1] == InsertOne(1, 116, value)
  {
  }

  /** The assumptions can be met: this log is written under all of them, and has a rows event. */
  lemma SmallLogOk(value: byte)
    ensures StreamOk(SmallLog(value), [Pos([98], 4), Pos([98], 60), Pos([98], 90)], false)
    ensures IsRows(SmallLog(value), 1)
  {
    hide Printable, TableKey, SmallLog, StartsOk, OneColumn, MapOne, InsertOne;
    SmallLogShape(value);
    var ws := SmallLog(value);
    MapOnePrintable(1, 116);
    InsertOnePrintable(1, 116, value);
    SmallLogStarts(value);
    assert Belongs(ws, 0, 1);
  }

  /** The table `d.t` under id 1, then the same table as `d.T` under id 2, and a row inserted into it under that id. */
  function RespeltLog(value: byte): seq<Written> { [MapOne(1, 116), MapOne(2, 84), InsertOne(2, 84, value)] }

  /** The same table. */
  lemma SameTableRespelt()
    ensures KeyOf([100], [84]) == KeyOf([100], [116])
  {
    FoldedAlike([84], [116]);
  }

  lemma MapOneEvent(id: byte, letter: byte) returns (a: MapFact)
    requires letter != 0
    ensures Classify(Print(MapOne(id, letter)), false) == Map(a)
    ensures a.id == id && a.Key() == KeyOf([100], [letter]) && a.name == [letter]
    ensures a.Layout() == OneColumn(id, letter) && a.Layout().Valid()
  {
    hide Classify, Print, ParseMap, KeyOf;
    MapOnePrintable(id, letter);
    PrintedIsRecognized(MapOne(id, letter), false);
    a := Classify(Print(MapOne(id, letter)), false).fact;
  }

  lemma InsertOneIs(id: byte, letter: byte, value: byte)
    ensures var w := InsertOne(id, letter, value);
      && w.WRows? && w.kind == Insert && Code(w.kind, w.v2) == 23 && w.tm == OneColumn(id, letter) && w.tm.id == id
      && w.changes == [OneRow(value)] && w.kind != Update
  {
  }

  lemma RecognizedRows(e: Event, w: Written)
    requires w.WRows? && Recognized(e, w)
    ensures e.Rows? && HoldsRows(e.ev, w)
  {
  }

  lemma InsertOneEvent(id: byte, letter: byte, value: byte) returns (ev: RowsEvent)
    ensures Classify(Print(InsertOne(id, letter, value)), false) == Rows(ev)
    ensures ev.tableId == id && ev.etype == 23 && ev.Ends() && ev.len > 0
  {
    hide *;
    var w := InsertOne(id, letter, value);
    InsertOnePrintable(id, letter, value);
    PrintedIsRecognized(w, false);
    InsertOneIs(id, letter, value);
    RecognizedRows(Classify(Print(w), false), w);
    ev := Classify(Print(w), false).ev;
    RowsId(w, ev);
    RowsAdvance(w, ev, false);
    OneRowPrinted(id, letter, value);
    HeldLength(w, ev);
  }

  lemma HeldLength(w: Written, ev: RowsEvent)
    requires w.WRows? && HoldsRows(ev, w)
    ensures ev.len == |PrintChanges(w.tm, w.kind == Update, w.changes)|
  {
  }

  lemma OneRowPrinted(id: byte, letter: byte, value: byte)
    ensures |PrintChanges(OneColumn(id, letter), false, [OneRow(value)])| > 0
  {
    hide LEBytes, Bits.BitsVal, PrintCells;
  }

  /** A failing input, from the start and in bytes: the callback comes without the row that was inserted. */
  lemma RespeltLogLosesRow(value: byte, s: State)
    requires Initial(s) && KeyOf([100], [116]) in s.tables
    ensures s.Linked()
    ensures var es := EventsOf(RespeltLog(value), false);
      && (exists c :: Run(s, es, false).calls == s.calls + [c] && c.kind == Insert && c.rows == [])
      && exists c :: Run(s, es, true).calls == s.calls + [c] && c.rows != []
  {
    hide Classify, Print, ParseMap, Run, OneColumn, MapOne, InsertOne, RowsEvent.Ends;
    var es := EventsOf(RespeltLog(value), false);
    var a := MapOneEvent(1, 116);
    var b := MapOneEvent(2, 84);
    var ev := InsertOneEvent(2, 84, value);
    SameTableRespelt();
    hide KeyOf;
    assert OneColumn(1, 116).id == 1 && OneColumn(2, 84).id == 2 by { OneColumnId(); }
    assert es == [Map(a), Map(b), Rows(ev)];
    assert a.name[0] != b.name[0];
    SecondSpelling(s, a, b, ev);
  }

  lemma OneColumnId()
    ensures OneColumn(1, 116).id == 1 && OneColumn(2, 84).id == 2
  {
  }
}
