/**
 * The client against a master that may drop the connection at any time: where reading resumes, and what has been
 * delivered by then. The master is a sequence of events with the position each one starts at.
 */
module Replication {
  import opened Memory
  import opened Values
  import opened RowEvents
  import opened TableMaps
  import opened Tables
  import opened Dispatcher
  import opened LayoutCache

  /** `starts[i]` is where event `i` starts; the last entry is the end of the log. */
  datatype Binlog = Binlog(events: seq<Event>, starts: seq<Pos>) {
    ghost function Facts(): set<MapFact> { LayoutCache.Facts(events) }
  }

  /** The events after which the loop stores a position. */
  predicate SetsPosition(e: Event) { e.Rotate? || (e.Query? && e.end.Some?) || e.Other? }

  function PositionAfter(e: Event, log: Name): Pos
    requires SetsPosition(e)
  {
    match e
    case Rotate(next, off) => Pos(next, off)
    case Query(Some(off)) => Pos(log, off)
    case Other(off) => Pos(log, off)
  }

  /** Positions are distinct, can be stored, and are the ones the events carry. */
  ghost predicate PositionsOk(b: Binlog) {
    && |b.starts| == |b.events| + 1
    && (forall i, j | 0 <= i < j < |b.starts| :: b.starts[i] != b.starts[j])
    && (forall i | 0 <= i < |b.starts| :: b.starts[i].log != [] && 0 < b.starts[i].off < TWO32)
    && (forall i | 0 <= i < |b.events| ::
          if SetsPosition(b.events[i]) then b.starts[i + 1] == PositionAfter(b.events[i], b.starts[i].log)
          else b.starts[i + 1].log == b.starts[i].log)
  }

  ghost predicate MapAt(b: Binlog, m: int) { 0 <= m < |b.events| && b.events[m].Map? }

  ghost predicate RowsAt(b: Binlog, r: int) { 0 <= r < |b.events| && b.events[r].Rows? }

  /**
   * Rows event `r` was written under map `m`: nothing that carries a position comes between them, and neither does a
   * map of the same table to another id.
   */
  ghost predicate Under(b: Binlog, m: int, r: int) {
    && MapAt(b, m) && RowsAt(b, r) && m < r
    && b.events[m].fact.id == b.events[r].ev.tableId
    && b.events[r].ev.ncolumns == |b.events[m].fact.Layout().types|
    && forall i | m < i < r :: !SetsPosition(b.events[i]) &&
         (MapAt(b, i) && b.events[i].fact.Key() == b.events[m].fact.Key() ==>
            b.events[i].fact.id == b.events[m].fact.id)
  }

  ghost predicate WellFormed(b: Binlog) {
    && PositionsOk(b) && IdUnique(b.Facts()) && OneSpelling(b.Facts())
    && MapsOk(b.Facts())
    && (forall r | RowsAt(b, r) ::
          Unmapped(b, b.events[r].ev) || (b.events[r].ev.Ends() && exists m :: Under(b, m, r)))
  }

  ghost predicate Unmapped(b: Binlog, ev: RowsEvent) { forall a | a in b.Facts() :: a.id != ev.tableId }

  /** Reading may start at `j`: no rows event would be cut off from its map. */
  ghost predicate Safe(b: Binlog, j: nat) {
    j <= |b.events| && forall m, r | Under(b, m, r) :: !(m < j <= r)
  }

  // ---------------------------------------------------------------- the machine

  /**
   * `cursor` is what the master sends next, while a dump is running. The rest is history: where the session started,
   * which events were dispatched, in order, and how far the client ever got.
   */
  datatype Client = Client(parser: State, connected: bool, cursor: Option<nat>,
                           session: nat, delivered: seq<nat>, high: nat)

  /**
   * `Reconnect(false)`: the connection is up but the dump request fails. A failed connection changes nothing.
   * `Announce`: the master repeats in mid-stream where it is reading, as it does when it goes on to the next file.
   */
  datatype Move = Deliver | Lose | Reconnect(dump: bool) | Announce

  ghost function IndexOf(b: Binlog, p: Pos): Option<nat> {
    if exists j :: 0 <= j < |b.starts| && b.starts[j] == p then
      var j :| 0 <= j < |b.starts| && b.starts[j] == p; Some(j)
    else None
  }

  /** A dump starts with an artificial rotation to the requested position and a format description. */
  function Greeted(s: State): State
    requires s.Linked()
  {
    Step(Step(s, Rotate(s.log, s.pos), false), Format, false)
  }

  ghost function Next(b: Binlog, c: Client, mv: Move): (r: Client)
    requires c.parser.Linked()
    ensures r.parser.Linked() && r.parser.tables.Keys == c.parser.tables.Keys
  {
    match mv
    case Lose => c.(connected := false, cursor := None)
    case Deliver =>
      if c.cursor.Some? && c.cursor.value < |b.events| then
        var i := c.cursor.value;
        c.(parser := Step(c.parser, b.events[i], false), cursor := Some(i + 1), delivered := c.delivered + [i],
           high := if i < c.high then c.high else i + 1)
      else c
    case Announce =>
      if c.cursor.Some? && c.cursor.value < |b.starts| && Pos(c.parser.log, c.parser.pos) == b.starts[c.cursor.value]
      then c.(parser := Greeted(c.parser))
      else c
    case Reconnect(dump) =>
      if c.connected then c
      else if !dump || ResumePoint(c.parser).None? then c.(connected := true)
      else
        var j := IndexOf(b, ResumePoint(c.parser).value);
        c.(connected := true, parser := if j.Some? then Greeted(c.parser) else c.parser, cursor := j,
           session := if j.Some? then j.value else c.session)
  }

  ghost function RunMoves(b: Binlog, c: Client, mvs: seq<Move>): (r: Client)
    requires c.parser.Linked()
    ensures r.parser.Linked() && r.parser.tables.Keys == c.parser.tables.Keys
    decreases |mvs|
  {
    if mvs == [] then c else RunMoves(b, Next(b, c, mvs[0]), mvs[1..])
  }

  /** After `prepare`: connected, and reading from a position that splits no group. */
  ghost predicate Started(b: Binlog, c: Client, j: nat) {
    && Safe(b, j) && Initial(c.parser) && c.parser.Linked() && |b.starts| == |b.events| + 1
    && b.starts[j] == Pos(c.parser.log, c.parser.pos)
    && c.connected && c.cursor == Some(j) && c.session == j && c.delivered == [] && c.high == j
  }

  // ---------------------------------------------------------------- what the callbacks should be

  ghost predicate Mapped(b: Binlog, ev: RowsEvent, a: MapFact) { a in b.Facts() && a.id == ev.tableId }

  /** The callbacks of event `i`: one, for a rows event of a watched table. */
  ghost function CallsOf(b: Binlog, watched: set<Key>, i: nat): seq<Callback>
  {
    if RowsAt(b, i) && b.events[i].ev.Ends() && exists a :: Mapped(b, b.events[i].ev, a) && a.Key() in watched then
      var a :| Mapped(b, b.events[i].ev, a) && a.Key() in watched;
      [IdealCall(a, b.events[i].ev)]
    else []
  }

  ghost function Expected(b: Binlog, watched: set<Key>, ds: seq<nat>): seq<Callback>
  {
    if ds == [] then [] else Expected(b, watched, ds[..|ds| - 1]) + CallsOf(b, watched, ds[|ds| - 1])
  }

  // ---------------------------------------------------------------- the invariant

  /** The latest map of each table among events `i..j`. */
  ghost function Latest(b: Binlog, i: nat, j: nat): map<Key, MapFact>
    requires i <= j <= |b.events|
    decreases j
  {
    if i == j then map[] else Track(Latest(b, i, j - 1), b.events[j - 1])
  }

  /** The stored position is the start of event `j`, already dispatched up to there, and splits no group. */
  ghost predicate Resumes(b: Binlog, c: Client, start: nat, j: nat) {
    && start <= j <= c.high && j < |b.starts| && b.starts[j] == Pos(c.parser.log, c.parser.pos) && Safe(b, j)
    && (c.cursor.Some? ==> c.session <= j <= c.cursor.value <= |b.events|
                           && forall i | j <= i < c.cursor.value :: !SetsPosition(b.events[i]))
  }

  ghost predicate Session(b: Binlog, c: Client) {
    c.cursor.Some? ==>
      && c.connected && c.session <= c.cursor.value <= |b.events| && c.cursor.value <= c.high && Safe(b, c.session)
      && Current(b.Facts(), c.parser, Latest(b, c.session, c.cursor.value))
  }

  ghost predicate Delivered(c: Client, start: nat) {
    && start <= c.high && (forall k | start <= k < c.high :: k in c.delivered)
    && forall k | k in c.delivered :: k < c.high
  }

  ghost predicate ClientInv(b: Binlog, c: Client, start: nat, was: seq<Callback>)
    requires WellFormed(b)
  {
    && CacheInv(b.Facts(), c.parser) && Session(b, c) && Delivered(c, start) && c.high <= |b.events|
    && (exists j :: Resumes(b, c, start, j))
    && c.parser.calls == was + Expected(b, c.parser.tables.Keys, c.delivered)
  }

  lemma FactOf(b: Binlog, m: nat)
    requires MapAt(b, m)
    ensures b.events[m].fact in b.Facts()
  {
    assert b.events[m] in b.events;
  }

  /** The latest map of a table has the id of any earlier map not followed by one with another id. */
  lemma {:induction false} LatestId(b: Binlog, s: nat, m: nat, r: nat)
    requires s <= m < r <= |b.events| && MapAt(b, m)
    requires forall i | m < i < r :: MapAt(b, i) && b.events[i].fact.Key() == b.events[m].fact.Key() ==>
      b.events[i].fact.id == b.events[m].fact.id
    ensures var k := b.events[m].fact.Key();
      k in Latest(b, s, r) && Latest(b, s, r)[k].id == b.events[m].fact.id
    decreases r
  {
    hide KeyOf;
    if m + 1 < r {
      LatestId(b, s, m, r - 1);
      assert MapAt(b, r - 1) <==> b.events[r - 1].Map?;
    }
  }

  /** All maps with the id of a rows event call for the same callback. */
  lemma IdealIsUnique(b: Binlog, a: MapFact, a': MapFact, ev: RowsEvent)
    requires IdUnique(b.Facts()) && Mapped(b, ev, a) && Mapped(b, ev, a') && ev.Ends()
    ensures a.Key() == a'.Key() && IdealCall(a, ev) == IdealCall(a', ev)
  {
    hide ParseMap, KeyOf, ReadRows;
  }

  /** Dispatching rows event `r` in a session that started safely makes the expected callbacks. */
  lemma RowsDelivered(b: Binlog, c: Client, r: nat)
    requires WellFormed(b) && CacheInv(b.Facts(), c.parser) && Session(b, c) && c.cursor == Some(r) && RowsAt(b, r)
    ensures Step(c.parser, b.events[r], false).calls ==
      c.parser.calls + CallsOf(b, c.parser.tables.Keys, r)
    ensures RowsFit(c.parser, b.events[r].ev)
  {
    hide ParseMap, KeyOf, IdealCall, CacheInv, IdUnique, OneSpelling, Current, OnRows, LayoutCache.Facts, RowsFit;
    var ev, facts, watched := b.events[r].ev, b.Facts(), c.parser.tables.Keys;
    if Unmapped(b, ev) {
      UnmappedRows(facts, c.parser, ev);
    } else {
      var m :| Under(b, m, r);
      var a := b.events[m].fact;
      FactOf(b, m);
      assert c.session <= m;
      LatestId(b, c.session, m, r);
      RowsMeetTheirLayout(facts, c.parser, Latest(b, c.session, r), a, ev);
      UniqueCalls(b, watched, r, a);
    }
  }

  lemma UniqueCalls(b: Binlog, watched: set<Key>, r: nat, a: MapFact)
    requires IdUnique(b.Facts()) && RowsAt(b, r) && b.events[r].ev.Ends() && Mapped(b, b.events[r].ev, a)
    ensures CallsOf(b, watched, r) == if a.Key() in watched then [IdealCall(a, b.events[r].ev)] else []
  {
    hide ParseMap, KeyOf, IdealCall, LayoutCache.Facts, IdUnique;
    var ev := b.events[r].ev;
    forall a' | Mapped(b, ev, a')
      ensures a.Key() == a'.Key() && IdealCall(a, ev) == IdealCall(a', ev)
    {
      IdealIsUnique(b, a, a', ev);
    }
    assert Mapped(b, ev, a);
  }

  /** A position is stored only between groups. */
  lemma StoredIsSafe(b: Binlog, i: nat)
    requires i < |b.events| && SetsPosition(b.events[i])
    ensures Safe(b, i + 1)
  {
    forall m, r | Under(b, m, r)
      ensures !(m < i + 1 <= r)
    {
    }
  }

  lemma StoredPosition(s: State, e: Event)
    requires s.Linked()
    ensures var r := Step(s, e, false);
      Pos(r.log, r.pos) == if SetsPosition(e) then PositionAfter(e, s.log) else Pos(s.log, s.pos)
  {
    hide OnMap, OnRows;
    match e {
      case Map(f) => MapKeepsPosition(s, f);
      case Rows(ev) => RowsKeepPosition(s, ev);
      case _ =>
    }
  }

  lemma MapKeepsPosition(s: State, f: MapFact)
    requires s.Linked()
    ensures var r := OnMap(s, f, false); r.log == s.log && r.pos == s.pos && r.calls == s.calls
  {
    hide TuneTable, KeyOf;
  }

  lemma RowsKeepPosition(s: State, ev: RowsEvent)
    requires s.Linked()
    ensures var r := OnRows(s, ev); r.log == s.log && r.pos == s.pos
  {
    hide UpdateTable, KindOf;
  }

  /** Without a stored position in between, reading stays in one log file. */
  lemma {:induction false} SameFile(b: Binlog, j: nat, i: nat)
    requires PositionsOk(b) && j <= i <= |b.events| && forall k | j <= k < i :: !SetsPosition(b.events[k])
    ensures b.starts[j].log == b.starts[i].log
    decreases i
  {
    if j < i {
      SameFile(b, j, i - 1);
    }
  }

  /** After event `i` the loop resumes at its end if it stored its position, else where it did before. */
  lemma DeliverResumes(b: Binlog, c: Client, start: nat, j: nat, i: nat)
    requires WellFormed(b) && Session(b, c) && Resumes(b, c, start, j) && c.cursor == Some(i) && i < |b.events|
    requires c.parser.Linked()
    ensures exists j' :: Resumes(b, Next(b, c, Deliver), start, j')
  {
    hide Step, CacheInv, Current, IdUnique, OneSpelling, LayoutCache.Facts, Under;
    var r := Next(b, c, Deliver);
    StoredPosition(c.parser, b.events[i]);
    if SetsPosition(b.events[i]) {
      StoredIsSafe(b, i);
      SameFile(b, j, i);
      assert Resumes(b, r, start, i + 1);
    } else {
      assert Resumes(b, r, start, j);
    }
  }

  lemma DeliverKeepsSession(b: Binlog, c: Client)
    requires WellFormed(b) && CacheInv(b.Facts(), c.parser) && Session(b, c) && c.parser.Linked()
    requires c.cursor.Some? && c.cursor.value < |b.events|
    ensures var r := Next(b, c, Deliver); CacheInv(b.Facts(), r.parser) && Session(b, r)
  {
    hide Step, CacheInv, Current, IdUnique, OneSpelling, MapsOk, LayoutCache.Facts, Safe, Under, PositionsOk;
    var i, facts := c.cursor.value, b.Facts();
    var e := b.events[i];
    if e.Map? {
      FactOf(b, i);
    }
    StepKeepsInv(facts, c.parser, e);
    StepKeepsCurrent(facts, c.parser, Latest(b, c.session, i), e);
  }

  lemma DeliverKeepsDelivered(b: Binlog, c: Client, start: nat)
    requires WellFormed(b) && Session(b, c) && c.parser.Linked() && c.high <= |b.events| && Delivered(c, start)
    requires c.cursor.Some? && c.cursor.value < |b.events|
    ensures var r := Next(b, c, Deliver); Delivered(r, start) && r.high <= |b.events|
  {
    hide Step, CacheInv, Current, IdUnique, OneSpelling, LayoutCache.Facts, Safe, Under, PositionsOk;
  }

  lemma DeliverKeepsCalls(b: Binlog, c: Client, was: seq<Callback>)
    requires WellFormed(b) && CacheInv(b.Facts(), c.parser) && Session(b, c) && c.parser.Linked()
    requires c.cursor.Some? && c.cursor.value < |b.events|
    requires c.parser.calls == was + Expected(b, c.parser.tables.Keys, c.delivered)
    ensures var r := Next(b, c, Deliver);
      r.parser.calls == was + Expected(b, c.parser.tables.Keys, r.delivered)
  {
    hide *;
    var i, watched := c.cursor.value, c.parser.tables.Keys;
    CallsOfStep(b, c, i);
    DeliverFields(b, c);
    ExpectedStep(b, watched, c.delivered, i);
    var e, calls := Expected(b, watched, c.delivered), CallsOf(b, watched, i);
    assert (was + e) + calls == was + (e + calls);
  }

  lemma DeliverFields(b: Binlog, c: Client)
    requires c.parser.Linked()
    requires c.cursor.Some? && c.cursor.value < |b.events|
    ensures var r := Next(b, c, Deliver);
      r.parser == Step(c.parser, b.events[c.cursor.value], false) && r.delivered == c.delivered + [c.cursor.value]
  {
    hide Step;
  }

  lemma ExpectedStep(b: Binlog, watched: set<Key>, ds: seq<nat>, i: nat)
    ensures Expected(b, watched, ds + [i]) == Expected(b, watched, ds) + CallsOf(b, watched, i)
  {
    hide CallsOf;
    assert (ds + [i])[..|ds|] == ds;
  }

  lemma DeliverKeepsInv(b: Binlog, c: Client, start: nat, was: seq<Callback>)
    requires WellFormed(b) && ClientInv(b, c, start, was)
    requires c.cursor.Some? && c.cursor.value < |b.events|
    ensures c.parser.Linked() && ClientInv(b, Next(b, c, Deliver), start, was)
  {
    InvLinked(b.Facts(), c.parser);
    hide Next, Step, CacheInv, WellFormed, LayoutCache.Facts, Resumes, Expected, Session, Delivered;
    DeliverKeepsSession(b, c);
    DeliverKeepsDelivered(b, c, start);
    DeliverKeepsCalls(b, c, was);
    var j :| Resumes(b, c, start, j);
    DeliverResumes(b, c, start, j, c.cursor.value);
  }

  lemma CallsOfStep(b: Binlog, c: Client, i: nat)
    requires WellFormed(b) && CacheInv(b.Facts(), c.parser) && Session(b, c) && c.cursor == Some(i) && i < |b.events|
    requires c.parser.Linked()
    ensures Step(c.parser, b.events[i], false).calls == c.parser.calls + CallsOf(b, c.parser.tables.Keys, i)
  {
    hide CacheInv, Current, IdUnique, OneSpelling, LayoutCache.Facts, Under, OnMap, OnRows;
    if b.events[i].Rows? {
      RowsDelivered(b, c, i);
    } else if b.events[i].Map? {
      MapKeepsPosition(c.parser, b.events[i].fact);
    }
  }

  lemma IndexOfStored(b: Binlog, j: nat)
    requires PositionsOk(b) && j < |b.starts|
    ensures IndexOf(b, b.starts[j]) == Some(j)
  {
  }

  lemma ReconnectKeepsInv(b: Binlog, c: Client, start: nat, was: seq<Callback>, dump: bool)
    requires WellFormed(b) && ClientInv(b, c, start, was)
    ensures c.parser.Linked() && ClientInv(b, Next(b, c, Reconnect(dump)), start, was)
  {
    InvLinked(b.Facts(), c.parser);
    hide CacheInv, IdUnique, OneSpelling, LayoutCache.Facts, Under, CallsOf, Safe, IndexOf;
    var r := Next(b, c, Reconnect(dump));
    var j :| Resumes(b, c, start, j);
    IndexOfStored(b, j);
    assert Greeted(c.parser) == c.parser;
    if !c.connected {
      assert Resumes(b, r, start, j);
    }
  }

  lemma LoseKeepsInv(b: Binlog, c: Client, start: nat, was: seq<Callback>)
    requires WellFormed(b) && ClientInv(b, c, start, was)
    ensures c.parser.Linked() && ClientInv(b, Next(b, c, Lose), start, was)
  {
    InvLinked(b.Facts(), c.parser);
    hide CacheInv, IdUnique, OneSpelling, LayoutCache.Facts, Under, CallsOf, Safe;
    var j :| Resumes(b, c, start, j);
    assert Resumes(b, Next(b, c, Lose), start, j);
  }

  /** A repeated position is the one that is stored. */
  lemma AnnounceKeeps(b: Binlog, c: Client)
    requires c.parser.Linked()
    ensures Next(b, c, Announce) == c
  {
    assert Greeted(c.parser) == c.parser;
  }

  lemma NextKeepsInv(b: Binlog, c: Client, start: nat, was: seq<Callback>, mv: Move)
    requires WellFormed(b) && ClientInv(b, c, start, was)
    ensures c.parser.Linked() && ClientInv(b, Next(b, c, mv), start, was)
  {
    InvLinked(b.Facts(), c.parser);
    hide ClientInv, WellFormed;
    match mv {
      case Deliver =>
        if c.cursor.Some? && c.cursor.value < |b.events| {
          DeliverKeepsInv(b, c, start, was);
        }
      case Lose => LoseKeepsInv(b, c, start, was);
      case Reconnect(dump) => ReconnectKeepsInv(b, c, start, was, dump);
      case Announce => AnnounceKeeps(b, c);
    }
  }

  lemma {:induction false} MovesKeepInv(b: Binlog, c: Client, start: nat, was: seq<Callback>, mvs: seq<Move>)
    requires WellFormed(b) && ClientInv(b, c, start, was)
    ensures c.parser.Linked() && ClientInv(b, RunMoves(b, c, mvs), start, was)
    decreases |mvs|
  {
    InvLinked(b.Facts(), c.parser);
    hide ClientInv, Next;
    if mvs != [] {
      NextKeepsInv(b, c, start, was, mvs[0]);
      MovesKeepInv(b, Next(b, c, mvs[0]), start, was, mvs[1..]);
    }
  }

  lemma SafeIn(b: Binlog, j: nat)
    requires Safe(b, j)
    ensures j <= |b.events|
  {
  }

  lemma StartedInv(b: Binlog, c: Client, start: nat)
    requires WellFormed(b) && Started(b, c, start)
    ensures ClientInv(b, c, start, c.parser.calls)
  {
    hide IdUnique, OneSpelling, LayoutCache.Facts, Under, CallsOf, Safe, CacheInv;
    InitialInv(b.Facts(), c.parser);
    assert b.starts[start] == Pos(c.parser.log, c.parser.pos) && start <= |b.events| by {
      SafeIn(b, start);
    }
    assert Resumes(b, c, start, start);
  }

  /** The callbacks of the `k`-th delivery stand after those of the deliveries before it. */
  lemma {:induction false} ExpectedAt(b: Binlog, watched: set<Key>, ds: seq<nat>, k: nat)
    requires k < |ds|
    ensures var p, calls := |Expected(b, watched, ds[..k])|, CallsOf(b, watched, ds[k]);
      p + |calls| <= |Expected(b, watched, ds)| && Expected(b, watched, ds)[p..p + |calls|] == calls
    decreases |ds|
  {
    hide CallsOf;
    var n := |ds| - 1;
    if k < n {
      ExpectedAt(b, watched, ds[..n], k);
      assert ds[..n][..k] == ds[..k];
    }
  }

  /** The calls at `p` of `all` are `calls`. */
  ghost predicate CallsAt(all: seq<Callback>, p: nat, calls: seq<Callback>) {
    p + |calls| <= |all| && all[p..p + |calls|] == calls
  }

  /**
   * At-least-once delivery. Under any schedule of lost connections and failed requests:
   * the stored position is the start of an event no later than what was dispatched, and cuts no rows event off from
   * its map; every event that the client ever got past was dispatched; the callbacks made are those of the dispatched
   * events, each under its own layout, and each dispatch has made its own, in its place.
   */
  lemma AtLeastOnce(b: Binlog, c: Client, start: nat, mvs: seq<Move>)
    requires WellFormed(b) && Started(b, c, start)
    ensures var r := RunMoves(b, c, mvs); var watched := c.parser.tables.Keys;
      && (exists j :: Resumes(b, r, start, j))
      && (forall i | start <= i < r.high :: i in r.delivered) && (forall i | i in r.delivered :: i < |b.events|)
      && r.parser.calls == c.parser.calls + Expected(b, watched, r.delivered)
      && forall k | 0 <= k < |r.delivered| ::
           CallsAt(r.parser.calls, |c.parser.calls| + |Expected(b, watched, r.delivered[..k])|,
                   CallsOf(b, watched, r.delivered[k]))
  {
    hide WellFormed, CallsOf, Next, CacheInv, Session, LayoutCache.Facts, Expected, RunMoves, Resumes;
    StartedInv(b, c, start);
    MovesKeepInv(b, c, start, c.parser.calls, mvs);
    var r, watched := RunMoves(b, c, mvs), c.parser.tables.Keys;
    forall k | 0 <= k < |r.delivered|
      ensures CallsAt(r.parser.calls, |c.parser.calls| + |Expected(b, watched, r.delivered[..k])|,
                      CallsOf(b, watched, r.delivered[k]))
    {
      ExpectedAt(b, watched, r.delivered, k);
      AfterPrefix(c.parser.calls, Expected(b, watched, r.delivered), |Expected(b, watched, r.delivered[..k])|,
                  CallsOf(b, watched, r.delivered[k]));
    }
  }

  lemma AfterPrefix(was: seq<Callback>, more: seq<Callback>, p: nat, calls: seq<Callback>)
    requires CallsAt(more, p, calls)
    ensures CallsAt(was + more, |was| + p, calls)
  {
  }

  function Delivers(n: nat): seq<Move> { seq(n, _ => Deliver) }

  lemma {:induction false} DeliverAll(b: Binlog, c: Client, start: nat, was: seq<Callback>, n: nat)
    requires WellFormed(b) && ClientInv(b, c, start, was) && c.cursor.Some? && |b.events| <= c.cursor.value + n
    ensures c.parser.Linked()
    ensures RunMoves(b, c, Delivers(n)).high == |b.events|
    decreases n
  {
    InvLinked(b.Facts(), c.parser);
    if n > 0 {
      NextKeepsInv(b, c, start, was, Deliver);
      var r := Next(b, c, Deliver);
      hide Next, CacheInv, WellFormed, Resumes, Expected, Delivered;
      assert r.cursor.Some? && |b.events| <= r.cursor.value + (n - 1) by {
        DeliverMoves(b, c);
      }
      DeliverAll(b, r, start, was, n - 1);
      assert Delivers(n)[0] == Deliver && Delivers(n)[1..] == Delivers(n - 1);
    }
  }

  lemma DeliverMoves(b: Binlog, c: Client)
    requires c.parser.Linked() && c.cursor.Some?
    ensures var r := Next(b, c, Deliver).cursor;
      r.Some? && r.value == if c.cursor.value < |b.events| then c.cursor.value + 1 else c.cursor.value
  {
    hide Step;
  }

  /** From any state the client can be in, one more reconnection that is not cut short delivers the rest of the log. */
  lemma CatchesUp(b: Binlog, c: Client, start: nat, mvs: seq<Move>)
    requires WellFormed(b) && Started(b, c, start)
    ensures var r := RunMoves(b, c, mvs);
      RunMoves(b, r, [Lose, Reconnect(true)] + Delivers(|b.events|)).high == |b.events|
  {
    hide *;
    StartedInv(b, c, start);
    MovesKeepInv(b, c, start, c.parser.calls, mvs);
    var r, was := RunMoves(b, c, mvs), c.parser.calls;
    LoseKeepsInv(b, r, start, was);
    var lost := Next(b, r, Lose);
    LostIs(b, r);
    ReconnectKeepsInv(b, lost, start, was, true);
    Reconnected(b, lost, start, was);
    DeliverAll(b, Next(b, lost, Reconnect(true)), start, was, |b.events|);
    TwoMoves(b, r, Lose, Reconnect(true), Delivers(|b.events|));
  }

  lemma LostIs(b: Binlog, c: Client)
    requires c.parser.Linked()
    ensures Next(b, c, Lose) == c.(connected := false, cursor := None)
  {
  }

  lemma TwoMoves(b: Binlog, c: Client, x: Move, y: Move, rest: seq<Move>)
    requires c.parser.Linked()
    ensures RunMoves(b, c, [x, y] + rest) == RunMoves(b, Next(b, Next(b, c, x), y), rest)
  {
    hide Next;
    var todo := [x, y] + rest;
    assert todo[1..] == [y] + rest && todo[1..][1..] == rest;
    assert RunMoves(b, c, todo) == RunMoves(b, Next(b, c, x), todo[1..]);
  }

  lemma Reconnected(b: Binlog, c: Client, start: nat, was: seq<Callback>)
    requires WellFormed(b) && ClientInv(b, c, start, was) && !c.connected && c.parser.Linked()
    ensures Next(b, c, Reconnect(true)).cursor.Some?
  {
    hide CacheInv, IdUnique, OneSpelling, LayoutCache.Facts, Under, CallsOf, Safe, IndexOf;
    var j :| Resumes(b, c, start, j);
    IndexOfStored(b, j);
  }

  /**
   * Whatever the schedule, the next event always meets what the loop needs of it: a rows event of a watched table stops
   * the row loop, and has no more columns than the cached layout.
   */
  lemma NextEventFits(b: Binlog, c: Client, start: nat, mvs: seq<Move>)
    requires WellFormed(b) && Started(b, c, start)
    ensures var r := RunMoves(b, c, mvs);
      r.cursor.Some? && r.cursor.value < |b.events| ==> EventFits(r.parser, b.events[r.cursor.value])
  {
    StartedInv(b, c, start);
    MovesKeepInv(b, c, start, c.parser.calls, mvs);
    var r := RunMoves(b, c, mvs);
    hide WellFormed, CacheInv, Next, RunMoves, Session, Resumes, Expected, RowsFit;
    if r.cursor.Some? && r.cursor.value < |b.events| {
      EventFitsNow(b, r, start, c.parser.calls);
    }
  }

  /** Delivering the next `n` events is running the loop on them, and the loop has what it needs to run. */
  ghost predicate RunsThrough(b: Binlog, c: Client, n: nat)
    requires c.parser.Linked() && c.cursor.Some? && c.cursor.value + n <= |b.events|
  {
    var i := c.cursor.value;
    var es, r := b.events[i..i + n], RunMoves(b, c, Delivers(n));
    && RunFits(c.parser, es) && r.parser == Run(c.parser, es, false)
    && r.cursor == Some(i + n) && r.connected == c.connected
  }

  lemma LinkedByInv(b: Binlog, c: Client, start: nat, was: seq<Callback>)
    requires WellFormed(b) && ClientInv(b, c, start, was)
    ensures c.parser.Linked()
  {
    hide WellFormed;
    InvLinked(b.Facts(), c.parser);
  }

  lemma RunsOneMore(b: Binlog, c: Client, n: nat)
    requires c.parser.Linked() && c.cursor.Some? && n > 0 && c.cursor.value + n <= |b.events|
    requires EventFits(c.parser, b.events[c.cursor.value])
    requires var d := Next(b, c, Deliver);
      d.cursor == Some(c.cursor.value + 1) && RunsThrough(b, d, n - 1)
    ensures RunsThrough(b, c, n)
  {
    hide Next, Step, EventFits, Run, RunFits, RunMoves;
    var i := c.cursor.value;
    DeliverIs(b, c);
    RunMovesFirst(b, c, n);
    SliceFirst(b.events, i, i + n);
    RunFirst(c.parser, b.events[i..i + n]);
  }

  lemma RunsNothing(b: Binlog, c: Client)
    requires c.parser.Linked() && c.cursor.Some? && c.cursor.value <= |b.events|
    ensures RunsThrough(b, c, 0)
  {
    var i := c.cursor.value;
    assert b.events[i..i] == [];
  }

  lemma EventFitsNow(b: Binlog, c: Client, start: nat, was: seq<Callback>)
    requires WellFormed(b) && ClientInv(b, c, start, was) && c.cursor.Some? && c.cursor.value < |b.events|
    ensures c.parser.Linked() && EventFits(c.parser, b.events[c.cursor.value])
  {
    InvLinked(b.Facts(), c.parser);
    hide CacheInv, Next, RunMoves, Session, Resumes, Expected, RowsFit, WellFormed;
    if b.events[c.cursor.value].Rows? {
      RowsDelivered(b, c, c.cursor.value);
    }
  }

  lemma SliceFirst(es: seq<Event>, i: nat, j: nat)
    requires i < j <= |es|
    ensures es[i..j] != [] && es[i..j][0] == es[i] && es[i..j][1..] == es[i + 1..j]
  {
  }

  lemma DeliverIs(b: Binlog, c: Client)
    requires c.parser.Linked() && c.cursor.Some? && c.cursor.value < |b.events|
    ensures var r, i := Next(b, c, Deliver), c.cursor.value;
      r.parser == Step(c.parser, b.events[i], false) && r.cursor == Some(i + 1) && r.connected == c.connected
  {
    hide Step;
  }

  lemma RunMovesFirst(b: Binlog, c: Client, n: nat)
    requires c.parser.Linked() && n > 0
    ensures RunMoves(b, c, Delivers(n)) == RunMoves(b, Next(b, c, Deliver), Delivers(n - 1))
  {
    hide Next;
    assert Delivers(n)[0] == Deliver && Delivers(n)[1..] == Delivers(n - 1);
  }

  lemma RunFirst(s: State, es: seq<Event>)
    requires s.Linked() && es != []
    ensures Run(s, es, false) == Run(Step(s, es[0], false), es[1..], false)
    ensures RunFits(s, es) <==> EventFits(s, es[0]) && RunFits(Step(s, es[0], false), es[1..])
  {
    hide Step, EventFits;
  }

  /** Whatever session a client is in: every rows event that reaches a table ends the row loop and fits the row. */
  lemma {:induction false} SessionIsRun(b: Binlog, c: Client, start: nat, was: seq<Callback>, n: nat)
    requires WellFormed(b) && ClientInv(b, c, start, was) && c.cursor.Some? && c.cursor.value + n <= |b.events|
    ensures c.parser.Linked() && RunsThrough(b, c, n)
    decreases n
  {
    hide *;
    LinkedByInv(b, c, start, was);
    if n == 0 {
      RunsNothing(b, c);
    } else {
      NextKeepsInv(b, c, start, was, Deliver);
      EventFitsNow(b, c, start, was);
      DeliverIs(b, c);
      SessionIsRun(b, Next(b, c, Deliver), start, was, n - 1);
      RunsOneMore(b, c, n);
    }
  }
}
