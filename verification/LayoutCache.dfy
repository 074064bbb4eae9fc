/**
 * Trusting a cached layout. The loop parses a table map only when the id recorded for the table's bare name changes.
 * Here is exactly when that leaves every table with the layout of its latest map, said of the events alone; that the
 * callbacks are then those of a loop that parses every map; and that rows events meet the layout they were written
 * with.
 */
module LayoutCache {
  import opened Memory
  import opened EventCodes
  import opened RowEvents
  import opened TableMaps
  import opened Tables
  import opened Dispatcher

  // ---------------------------------------------------------------- what the maps have said

  /**
   * The maps of watched tables so far: the latest of each table, the id last given to each bare name, and the table
   * each id was last given to.
   */
  datatype History = History(latest: map<Key, MapFact>, ids: map<Name, uint64>, owners: map<uint64, Key>)

  function Nothing(): History { History(map[], map[], map[]) }

  function Seen(watched: set<Key>, h: History, e: Event): History {
    if e.Map? && e.fact.Key() in watched then
      History(h.latest[e.fact.Key() := e.fact], h.ids[e.fact.name := e.fact.id], h.owners[e.fact.id := e.fact.Key()])
    else h
  }

  function SeenAll(watched: set<Key>, h: History, es: seq<Event>): History
    decreases |es|
  {
    if es == [] then h else SeenAll(watched, Seen(watched, h, es[0]), es[1..])
  }

  /** The first map of its table, a map that repeats the layout, or one that gives the bare name another id. */
  predicate Fresh(h: History, f: MapFact) {
    || f.Key() !in h.latest
    || h.latest[f.Key()].Layout() == f.Layout()
    || (f.name in h.ids && h.ids[f.name] != f.id)
  }

  ghost predicate FreshRun(watched: set<Key>, h: History, es: seq<Event>)
    decreases |es|
  {
    es == [] ||
    ((es[0].Map? && es[0].fact.Key() in watched ==> Fresh(h, es[0].fact))
     && FreshRun(watched, Seen(watched, h, es[0]), es[1..]))
  }

  /** A rows event that reaches a table has as many columns as the table. */
  ghost predicate WidthMet(h: History, e: Event) {
    e.Rows? && e.ev.tableId in h.owners && h.owners[e.ev.tableId] in h.latest ==>
      var layout := h.latest[h.owners[e.ev.tableId]].Layout();
      layout.id == e.ev.tableId ==> e.ev.ncolumns == |layout.types|
  }

  ghost predicate WidthRun(watched: set<Key>, h: History, es: seq<Event>)
    decreases |es|
  {
    es == [] || (WidthMet(h, es[0]) && WidthRun(watched, Seen(watched, h, es[0]), es[1..]))
  }

  /** Every map can be parsed. */
  ghost predicate MapsValid(es: seq<Event>) { forall e | e in es && e.Map? :: e.fact.Layout().Valid() }

  // ---------------------------------------------------------------- the state follows the maps

  ghost predicate Loaded(t: TableState, a: MapFact) { t.tuned && t.tm == a.Layout() }

  ghost predicate Shaped(t: TableState) { |t.row| == |t.tm.types| && Positioned(t.row, |t.row|) }

  ghost predicate Settled(h: History, k: Key, t: TableState) {
    if k in h.latest then h.latest[k].Key() == k && Loaded(t, h.latest[k]) && Shaped(t) else t == FreshTable()
  }

  /** Id maps and layouts are those of the history; a table without a map is as it was when it was first watched. */
  ghost predicate Tracked(s: State, h: History) {
    && s.Linked() && s.tableToId == h.ids && s.idToTable == h.owners && h.latest.Keys <= s.tables.Keys
    && (forall id | id in h.owners :: h.owners[id] in h.latest)
    && forall k | k in s.tables :: Settled(h, k, s.tables[k])
  }

  /** Right after `watch`: nothing is mapped and no table is tuned. */
  ghost predicate Initial(s: State) {
    s.idToTable == map[] && s.tableToId == map[] && forall k | k in s.tables :: s.tables[k] == FreshTable()
  }

  lemma InitialTracked(s: State)
    requires Initial(s)
    ensures Tracked(s, Nothing())
  {
  }

  /** The table of a map, after the map: reset to the layout of the map, or trusted and left alone. */
  lemma MappedTable(s: State, h: History, f: MapFact)
    requires Tracked(s, h) && f.Key() in s.tables && f.Layout().Valid()
    ensures var t, t' := s.tables[f.Key()], OnMap(s, f, false).tables[f.Key()];
      && t'.rows == t.rows && t'.newRows == t.newRows && (Loaded(t', f) <==> Fresh(h, f))
      && if Fresh(h, f) then Shaped(t') else t' == t
  {
    hide ParseMap, KeyOf;
    assert Settled(h, f.Key(), s.tables[f.Key()]);
  }

  lemma MapIsTracked(s: State, h: History, f: MapFact)
    requires Tracked(s, h) && f.Key() in s.tables && f.Layout().Valid() && Fresh(h, f)
    ensures Tracked(OnMap(s, f, false), Seen(s.tables.Keys, h, Map(f)))
  {
    hide ParseMap, KeyOf, TuneTable, Fresh, Loaded, Shaped, Settled;
    MappedTable(s, h, f);
    var r, h' := OnMap(s, f, false), Seen(s.tables.Keys, h, Map(f));
    forall k | k in r.tables
      ensures Settled(h', k, r.tables[k])
    {
      if k == f.Key() {
        SettledByMap(h', f, r.tables[k]);
      } else {
        SettledStill(h, h', k, r.tables[k]);
      }
    }
  }

  lemma SettledByMap(h: History, f: MapFact, t: TableState)
    requires f.Key() in h.latest && h.latest[f.Key()] == f && Loaded(t, f) && Shaped(t)
    ensures Settled(h, f.Key(), t)
  {
  }

  lemma SettledStill(h: History, h': History, k: Key, t: TableState)
    requires Settled(h, k, t) && (k in h.latest <==> k in h'.latest) && (k in h.latest ==> h.latest[k] == h'.latest[k])
    ensures Settled(h', k, t)
  {
  }

  /** Applying a rows event leaves layout and mark alone. */
  lemma UpdateKeepsLayout(t: TableState, ev: RowsEvent)
    requires !Stuck(t, ev)
    ensures var r := UpdateTable(t, ev); r.tuned == t.tuned && r.tm == t.tm && (Shaped(t) ==> Shaped(r))
  {
    hide ReadRows, Positioned;
    if Matches(t, ev) {
      RowsKeepShape(t.tm, ev, t.row, ev.data, ev.len);
    }
  }

  lemma RowsAreTracked(s: State, h: History, ev: RowsEvent)
    requires Tracked(s, h)
    ensures Tracked(OnRows(s, ev), h)
  {
    hide ParseMap, KeyOf, UpdateTable, Shaped, KindOf, Stuck;
    if ev.tableId in s.idToTable && !Stuck(s.tables[s.idToTable[ev.tableId]], ev) {
      var k := s.idToTable[ev.tableId];
      assert Settled(h, k, s.tables[k]);
      UpdateKeepsLayout(s.tables[k], ev);
    }
  }

  /** Any step but that of a map which is not fresh. */
  lemma StepIsTracked(s: State, h: History, e: Event)
    requires Tracked(s, h)
    requires e.Map? && e.fact.Key() in s.tables ==> e.fact.Layout().Valid() && Fresh(h, e.fact)
    ensures Tracked(Step(s, e, false), Seen(s.tables.Keys, h, e))
  {
    hide ParseMap, KeyOf, OnRows, Fresh, Settled, TuneTable;
    match e {
      case Map(f) =>
        if f.Key() in s.tables {
          MapIsTracked(s, h, f);
        }
      case Rows(ev) => RowsAreTracked(s, h, ev);
      case _ =>
    }
  }

  // ---------------------------------------------------------------- exactly when the cache is right

  /** Along the run, every map of a watched table leaves the table with its layout. */
  ghost predicate HoldsRun(s: State, es: seq<Event>)
    requires s.Linked()
    decreases |es|
  {
    es == [] ||
    (var r := Step(s, es[0], false);
      (es[0].Map? && es[0].fact.Key() in s.tables ==> Loaded(r.tables[es[0].fact.Key()], es[0].fact))
      && HoldsRun(r, es[1..]))
  }

  lemma HoldsFirst(s: State, h: History, e: Event)
    requires Tracked(s, h) && e.Map? && e.fact.Key() in s.tables && e.fact.Layout().Valid()
    ensures Loaded(Step(s, e, false).tables[e.fact.Key()], e.fact) <==> Fresh(h, e.fact)
  {
    hide ParseMap, KeyOf, OnMap, Fresh, Loaded, Settled;
    MappedTable(s, h, e.fact);
  }

  lemma RunSteps(s: State, h: History, es: seq<Event>)
    requires es != [] && s.Linked()
    ensures var e, w := es[0], s.tables.Keys;
      && (HoldsRun(s, es) <==>
            (e.Map? && e.fact.Key() in w ==> Loaded(Step(s, e, false).tables[e.fact.Key()], e.fact))
            && HoldsRun(Step(s, e, false), es[1..]))
      && (FreshRun(w, h, es) <==>
            (e.Map? && e.fact.Key() in w ==> Fresh(h, e.fact)) && FreshRun(w, Seen(w, h, e), es[1..]))
  {
    hide Step, Loaded, Fresh, Seen, KeyOf;
  }

  lemma {:induction false} HoldsIsFresh(s: State, h: History, es: seq<Event>)
    requires Tracked(s, h) && MapsValid(es)
    ensures s.Linked() && (HoldsRun(s, es) <==> FreshRun(s.tables.Keys, h, es))
    decreases |es|
  {
    TrackedLinked(s, h);
    if es == [] {
      return;
    }
    var e := es[0];
    assert e in es && MapsValid(es[1..]) && (e.Map? ==> e.fact.Layout().Valid());
    hide *;
    RunSteps(s, h, es);
    if e.Map? && e.fact.Key() in s.tables {
      HoldsFirst(s, h, e);
    }
    if e.Map? && e.fact.Key() in s.tables ==> Fresh(h, e.fact) {
      StepIsTracked(s, h, e);
      HoldsIsFresh(Step(s, e, false), Seen(s.tables.Keys, h, e), es[1..]);
    }
  }

  lemma TrackedLinked(s: State, h: History)
    requires Tracked(s, h)
    ensures s.Linked()
  {
  }

  /**
   * For every run of parsable maps from the start: each map leaves its table with its layout if and only if each is
   * fresh, which is a matter of the maps before it. Nothing else is assumed of ids, names or spellings.
   */
  lemma CacheIsExact(s: State, es: seq<Event>)
    requires Initial(s) && MapsValid(es)
    ensures s.Linked() && (HoldsRun(s, es) <==> FreshRun(s.tables.Keys, Nothing(), es))
  {
    InitialTracked(s);
    HoldsIsFresh(s, Nothing(), es);
  }

  /**
   * The shortest way to go wrong: two maps of one table with different layouts, the second under another spelling or
   * without a new id.
   */
  lemma TwoMaps(s: State, a: MapFact, b: MapFact)
    requires Initial(s) && a.Key() == b.Key() && a.Key() in s.tables
    requires a.Layout().Valid() && b.Layout().Valid()
    ensures s.Linked()
    ensures HoldsRun(s, [Map(a), Map(b)]) <==> a.Layout() == b.Layout() || (a.name == b.name && a.id != b.id)
  {
    hide ParseMap, KeyOf, HoldsRun;
    var es, w := [Map(a), Map(b)], s.tables.Keys;
    assert MapsValid(es);
    CacheIsExact(s, es);
    var h := Seen(w, Nothing(), Map(a));
    assert es[1..] == [Map(b)] && es[1..][1..] == [];
    assert FreshRun(w, Seen(w, h, Map(b)), []);
    assert FreshRun(w, h, [Map(b)]) <==> Fresh(h, b);
  }

  /**
   * What going wrong means: the table keeps what it held, and a rows event under the map's own id is refused by it, so
   * that the callback is made with the rows of the event before.
   */
  lemma StaleMap(s: State, h: History, f: MapFact, ev: RowsEvent)
    requires Tracked(s, h) && f.Key() in s.tables && f.Layout().Valid() && !Fresh(h, f)
    requires ev.tableId == f.id != h.latest[f.Key()].Layout().id
    ensures var t := s.tables[f.Key()]; var r := Step(Step(s, Map(f), false), Rows(ev), false);
      && t.tm == h.latest[f.Key()].Layout() != f.Layout()
      && r.tables[f.Key()] == t && r.calls == s.calls + [CallFor(t, f.Key(), ev)]
  {
    hide ParseMap, KeyOf, ReadRows, Shaped;
    assert Settled(h, f.Key(), s.tables[f.Key()]);
  }

  /** From the start: a map, a second map under another spelling and id, and a rows event that was written under it. */
  lemma SecondSpelling(s: State, a: MapFact, b: MapFact, ev: RowsEvent)
    requires Initial(s) && a.Key() == b.Key() && a.Key() in s.tables && a.name != b.name && a.id != b.id
    requires a.Layout().Valid() && b.Layout().Valid() && a.Layout().id == a.id && b.Layout().id == b.id
    requires ev.tableId == b.id && ev.Ends() && ev.len > 0
    ensures s.Linked()
    ensures var es := [Map(a), Map(b), Rows(ev)];
      && Run(s, es, false).calls == s.calls + [Callback(KindOf(ev.etype), a.Key(), ev.mem, [], [])]
      && exists c :: Run(s, es, true).calls == s.calls + [c] && c.rows != []
  {
    hide *;
    var es := [Map(a), Map(b), Rows(ev)];
    InitialTracked(s);
    TrackedLinked(s, Nothing());
    ThreeSteps(s, es, false);
    ThreeSteps(s, es, true);
    SecondTrusted(s, a, b, ev);
    SecondParsed(s, a, b, ev);
  }

  lemma SecondTrusted(s: State, a: MapFact, b: MapFact, ev: RowsEvent)
    requires Initial(s) && a.Key() == b.Key() && a.Key() in s.tables && a.name != b.name && s.Linked()
    requires a.Layout().Valid() && a.Layout().id == a.id != ev.tableId == b.id
    ensures Step(Step(Step(s, Map(a), false), Map(b), false), Rows(ev), false).calls ==
      s.calls + [Callback(KindOf(ev.etype), a.Key(), ev.mem, [], [])]
  {
    hide ParseMap, KeyOf, KindOf;
  }

  lemma SecondParsed(s: State, a: MapFact, b: MapFact, ev: RowsEvent)
    requires s.Linked() && a.Key() == b.Key() && a.Key() in s.tables
    requires a.Layout().Valid() && b.Layout().Valid() && b.Layout().id == ev.tableId == b.id
    requires ev.Ends() && ev.len > 0
    ensures exists c ::
      Step(Step(Step(s, Map(a), true), Map(b), true), Rows(ev), true).calls == s.calls + [c] && c.rows != []
  {
    hide ParseMap, KeyOf, KindOf, TuneTable, ReadRows;
    var q := OnMap(s, a, true);
    var r := OnMap(q, b, true);
    ParsedTable(q, b);
    var t := r.tables[a.Key()];
    RowsShape(t.tm, ev, t.row, ev.data, ev.len);
    var c := CallFor(UpdateTable(t, ev), a.Key(), ev);
    assert OnRows(r, ev).calls == s.calls + [c] && c.rows != [];
  }

  lemma ThreeSteps(s: State, es: seq<Event>, always: bool)
    requires s.Linked() && |es| == 3
    ensures Run(s, es, always) == Step(Step(Step(s, es[0], always), es[1], always), es[2], always)
  {
    hide Step;
    var a := Step(s, es[0], always);
    var b := Step(a, es[1], always);
    var c := Step(b, es[2], always);
    assert es[1..][0] == es[1] && es[1..][1..] == es[2..] && es[2..][0] == es[2] && es[2..][1..] == [];
    assert Run(c, [], always) == c;
    assert Run(b, es[2..], always) == c;
    assert Run(a, es[1..], always) == c;
  }

  // ---------------------------------------------------------------- agreement with parsing every map

  /** Tables that agree on their layout and on the rows they show. Marks and working rows may differ. */
  ghost predicate SameTable(t: TableState, u: TableState) {
    t.tm == u.tm && t.rows == u.rows && t.newRows == u.newRows && |t.row| == |u.row|
  }

  ghost predicate Same(c: State, r: State) {
    && c.tables.Keys == r.tables.Keys && (forall k | k in c.tables :: SameTable(c.tables[k], r.tables[k]))
    && c.idToTable == r.idToTable && c.tableToId == r.tableToId && c.log == r.log && c.pos == r.pos
    && c.calls == r.calls
  }

  /** A rows event finds a working row of its own width in the table it is for. */
  lemma WidthIsMet(s: State, h: History, ev: RowsEvent)
    requires Tracked(s, h) && WidthMet(h, Rows(ev)) && ev.tableId in s.idToTable
    ensures var t := s.tables[s.idToTable[ev.tableId]];
      Matches(t, ev) ==> |t.row| == ev.ncolumns && Positioned(t.row, ev.ncolumns)
  {
    hide ParseMap, KeyOf;
    var k := s.idToTable[ev.tableId];
    assert Settled(h, k, s.tables[k]);
  }

  lemma UpdateAgrees(t: TableState, u: TableState, ev: RowsEvent)
    requires !Stuck(t, ev) && SameTable(t, u) && (Matches(t, ev) ==> |t.row| == ev.ncolumns)
    ensures SameTable(UpdateTable(t, ev), UpdateTable(u, ev))
  {
    hide ReadRows;
    if Matches(t, ev) {
      RowsForgetTheLast(t.tm, ev, t.row, u.row, ev.data, ev.len);
      RowsKeepShape(t.tm, ev, t.row, ev.data, ev.len);
      RowsKeepShape(t.tm, ev, u.row, ev.data, ev.len);
    }
  }

  lemma RowsAgree(c: State, r: State, h: History, ev: RowsEvent)
    requires Tracked(c, h) && WidthMet(h, Rows(ev)) && r.Linked() && Same(c, r)
    ensures c.Linked() && Same(OnRows(c, ev), OnRows(r, ev))
  {
    hide Settled, WidthMet, UpdateTable, KindOf;
    if ev.tableId in c.idToTable {
      var k := c.idToTable[ev.tableId];
      WidthIsMet(c, h, ev);
      if !Stuck(c.tables[k], ev) {
        UpdateAgrees(c.tables[k], r.tables[k], ev);
      }
    }
  }

  /** Parsing every map, the table always has the layout of the map. */
  lemma ParsedTable(s: State, f: MapFact)
    requires s.Linked() && f.Key() in s.tables && f.Layout().Valid()
    ensures var t, t' := s.tables[f.Key()], OnMap(s, f, true).tables[f.Key()];
      Loaded(t', f) && |t'.row| == |t'.tm.types| && t'.rows == t.rows && t'.newRows == t.newRows
  {
    hide ParseMap, KeyOf;
  }

  lemma MapAgrees(c: State, r: State, h: History, f: MapFact)
    requires Tracked(c, h) && r.Linked() && Same(c, r)
    requires f.Key() in c.tables ==> f.Layout().Valid() && Fresh(h, f)
    ensures c.Linked() && Same(OnMap(c, f, false), OnMap(r, f, true))
  {
    hide ParseMap, KeyOf, Settled, Fresh, TuneTable;
    if f.Key() in c.tables {
      MappedTable(c, h, f);
      ParsedTable(r, f);
    }
  }

  lemma StepAgrees(c: State, r: State, h: History, e: Event)
    requires Tracked(c, h) && r.Linked() && Same(c, r) && WidthMet(h, e)
    requires e.Map? && e.fact.Key() in c.tables ==> e.fact.Layout().Valid() && Fresh(h, e.fact)
    ensures c.Linked() && Same(Step(c, e, false), Step(r, e, true))
  {
    hide Settled, WidthMet, Fresh, OnMap, OnRows, SameTable, ParseMap, KeyOf;
    match e {
      case Map(f) => MapAgrees(c, r, h, f);
      case Rows(ev) => RowsAgree(c, r, h, ev);
      case _ =>
    }
  }

  /**
   * Cache refinement, from any related states: while maps are fresh, the loop that trusts cached layouts makes the
   * same callbacks with the same rows as the loop that parses every map.
   */
  lemma {:induction false} RunAgrees(c: State, r: State, h: History, es: seq<Event>)
    requires Tracked(c, h) && r.Linked() && Same(c, r) && MapsValid(es)
    requires FreshRun(c.tables.Keys, h, es) && WidthRun(c.tables.Keys, h, es)
    ensures c.Linked() && Same(Run(c, es, false), Run(r, es, true))
    ensures Tracked(Run(c, es, false), SeenAll(c.tables.Keys, h, es))
    decreases |es|
  {
    TrackedLinked(c, h);
    if es == [] {
      return;
    }
    var e := es[0];
    assert e in es && MapsValid(es[1..]);
    hide Tracked, Same, Fresh, WidthMet, Seen, Step, MapsValid, ParseMap, KeyOf;
    StepAgrees(c, r, h, e);
    StepIsTracked(c, h, e);
    RunAgrees(Step(c, e, false), Step(r, e, true), Seen(c.tables.Keys, h, e), es[1..]);
  }

  lemma CacheRefinement(s: State, es: seq<Event>)
    requires Initial(s) && MapsValid(es)
    requires FreshRun(s.tables.Keys, Nothing(), es) && WidthRun(s.tables.Keys, Nothing(), es)
    ensures s.Linked() && Run(s, es, false).calls == Run(s, es, true).calls
  {
    hide FreshRun, WidthRun;
    InitialTracked(s);
    RunAgrees(s, s, Nothing(), es);
  }

  // ---------------------------------------------------------------- ids and spellings that keep maps fresh

  ghost function Facts(es: seq<Event>): set<MapFact> { set e | e in es && e.Map? :: e.fact }

  /** An id stands for one table with one layout. */
  ghost predicate IdUnique(facts: set<MapFact>) {
    forall a, b | a in facts && b in facts && a.id == b.id :: a.Key() == b.Key() && a.Layout() == b.Layout()
  }

  /** A table is always spelt the same; the tables of two databases may share a name. */
  ghost predicate OneSpelling(facts: set<MapFact>) {
    forall a, b | a in facts && b in facts && a.Key() == b.Key() :: a.name == b.name
  }

  /** Every map can be parsed, and its static accessor gives the id that is parsed. */
  ghost predicate MapsOk(facts: set<MapFact>) {
    forall a | a in facts :: a.Layout().Valid() && a.Layout().id == a.id
  }

  /** A rows event has the columns of the table its id was mapped to. */
  ghost predicate WidthOk(facts: set<MapFact>, e: Event) {
    e.Rows? ==> forall a | a in facts && a.id == e.ev.tableId :: e.ev.ncolumns == |a.Layout().types|
  }

  ghost predicate KnownTable(facts: set<MapFact>, h: History, k: Key)
    requires k in h.latest
  {
    var a := h.latest[k];
    a in facts && a.Key() == k && a.name in h.ids && a.id in h.owners && h.owners[a.id] == k
  }

  ghost predicate KnownName(h: History, n: Name)
    requires n in h.ids
  {
    exists k | k in h.latest :: h.latest[k].name == n && h.latest[k].id == h.ids[n]
  }

  ghost predicate KnownId(facts: set<MapFact>, h: History, id: uint64)
    requires id in h.owners
  {
    h.owners[id] in h.latest && exists a | a in facts :: a.id == id && a.Key() == h.owners[id]
  }

  /** The history is one of these maps; the id recorded for a name is that of the latest map of a table, its owner. */
  ghost predicate Known(facts: set<MapFact>, h: History) {
    && (forall k | k in h.latest :: KnownTable(facts, h, k))
    && (forall n | n in h.ids :: KnownName(h, n))
    && (forall id | id in h.owners :: KnownId(facts, h, id))
  }

  lemma KnownIsFresh(facts: set<MapFact>, h: History, f: MapFact)
    requires Known(facts, h) && IdUnique(facts) && OneSpelling(facts) && f in facts
    ensures Fresh(h, f)
  {
    hide ParseMap, KeyOf, KnownId;
    if f.Key() in h.latest && f.name in h.ids && h.ids[f.name] == f.id {
      assert KnownName(h, f.name);
      var k :| k in h.latest && h.latest[k].name == f.name && h.latest[k].id == f.id;
      assert KnownTable(facts, h, k);
    }
  }

  lemma TableStaysKnown(facts: set<MapFact>, watched: set<Key>, h: History, f: MapFact, k: Key)
    requires Known(facts, h) && IdUnique(facts) && f in facts && f.Key() in watched
    requires k in Seen(watched, h, Map(f)).latest
    ensures KnownTable(facts, Seen(watched, h, Map(f)), k)
  {
    hide ParseMap, KeyOf, KnownName, KnownId;
    if k != f.Key() {
      assert KnownTable(facts, h, k);
      assert h.latest[k].id != f.id;
    }
  }

  lemma NameStaysKnown(facts: set<MapFact>, watched: set<Key>, h: History, f: MapFact, n: Name)
    requires Known(facts, h) && OneSpelling(facts) && f in facts && f.Key() in watched
    requires n in Seen(watched, h, Map(f)).ids
    ensures KnownName(Seen(watched, h, Map(f)), n)
  {
    hide ParseMap, KeyOf, KnownId;
    var h' := Seen(watched, h, Map(f));
    if n == f.name {
      assert h'.latest[f.Key()].name == n;
    } else {
      assert KnownName(h, n);
      var k :| k in h.latest && h.latest[k].name == n && h.latest[k].id == h.ids[n];
      assert KnownTable(facts, h, k);
      assert h'.latest[k].name == n;
    }
  }

  lemma IdStaysKnown(facts: set<MapFact>, watched: set<Key>, h: History, f: MapFact, id: uint64)
    requires Known(facts, h) && f in facts && f.Key() in watched && id in Seen(watched, h, Map(f)).owners
    ensures KnownId(facts, Seen(watched, h, Map(f)), id)
  {
    hide ParseMap, KeyOf, KnownName, KnownTable;
    assert id != f.id ==> KnownId(facts, h, id);
  }

  lemma KnownStays(facts: set<MapFact>, watched: set<Key>, h: History, e: Event)
    requires Known(facts, h) && IdUnique(facts) && OneSpelling(facts) && (e.Map? ==> e.fact in facts)
    ensures Known(facts, Seen(watched, h, e))
  {
    if e.Map? && e.fact.Key() in watched {
      var f, h' := e.fact, Seen(watched, h, e);
      hide KeyOf, KnownTable, KnownName, KnownId, Seen, IdUnique, OneSpelling;
      forall k | k in h'.latest
        ensures KnownTable(facts, h', k)
      {
        TableStaysKnown(facts, watched, h, f, k);
      }
      forall n | n in h'.ids
        ensures KnownName(h', n)
      {
        NameStaysKnown(facts, watched, h, f, n);
      }
      forall id | id in h'.owners
        ensures KnownId(facts, h', id)
      {
        IdStaysKnown(facts, watched, h, f, id);
      }
    }
  }

  lemma KnownWidth(facts: set<MapFact>, h: History, e: Event)
    requires Known(facts, h) && MapsOk(facts) && WidthOk(facts, e)
    ensures WidthMet(h, e)
  {
    hide ParseMap, KeyOf, KnownName, KnownId;
    assert e.Rows? && e.ev.tableId in h.owners && h.owners[e.ev.tableId] in h.latest ==>
      KnownTable(facts, h, h.owners[e.ev.tableId]);
  }

  lemma {:induction false} KnownRun(facts: set<MapFact>, watched: set<Key>, h: History, es: seq<Event>)
    requires Known(facts, h) && IdUnique(facts) && OneSpelling(facts) && MapsOk(facts)
    requires forall e | e in es :: WidthOk(facts, e) && (e.Map? ==> e.fact in facts)
    ensures FreshRun(watched, h, es) && WidthRun(watched, h, es)
    decreases |es|
  {
    hide Known, IdUnique, OneSpelling, MapsOk, Fresh, WidthMet, WidthOk, Seen, KeyOf;
    if es != [] {
      var e := es[0];
      assert e in es;
      if e.Map? {
        KnownIsFresh(facts, h, e.fact);
      }
      KnownWidth(facts, h, e);
      KnownStays(facts, watched, h, e);
      KnownRun(facts, watched, Seen(watched, h, e), es[1..]);
    }
  }

  /** The usual assumptions about a run. */
  ghost predicate RunOk(es: seq<Event>) {
    && IdUnique(Facts(es)) && OneSpelling(Facts(es)) && MapsOk(Facts(es))
    && forall e | e in es :: WidthOk(Facts(es), e)
  }

  lemma FactIn(es: seq<Event>, e: Event)
    requires e in es && e.Map?
    ensures e.fact in Facts(es)
  {
  }

  /** Unique ids and consistent spelling are enough. */
  lemma AssumptionsSuffice(watched: set<Key>, es: seq<Event>)
    requires RunOk(es)
    ensures MapsValid(es) && FreshRun(watched, Nothing(), es) && WidthRun(watched, Nothing(), es)
  {
    hide IdUnique, OneSpelling, WidthOk, Facts, ParseMap;
    forall e | e in es && e.Map?
      ensures e.fact in Facts(es)
    {
      FactIn(es, e);
    }
    KnownRun(Facts(es), watched, Nothing(), es);
  }

  lemma {:induction false} SeenIsKnown(facts: set<MapFact>, watched: set<Key>, h: History, es: seq<Event>)
    requires Known(facts, h) && IdUnique(facts) && OneSpelling(facts)
    requires forall e | e in es && e.Map? :: e.fact in facts
    ensures Known(facts, SeenAll(watched, h, es))
    decreases |es|
  {
    hide Known, IdUnique, OneSpelling, Seen;
    if es != [] {
      assert es[0] in es;
      KnownStays(facts, watched, h, es[0]);
      SeenIsKnown(facts, watched, Seen(watched, h, es[0]), es[1..]);
    }
  }

  /** The table holds the layout of one of its maps, whose name has a recorded id. */
  ghost predicate TunedByMap(facts: set<MapFact>, s: State, k: Key)
    requires k in s.tables
  {
    exists a | a in facts :: a.Key() == k && a.name in s.tableToId && Loaded(s.tables[k], a)
  }

  /** The id recorded for a name is held by the tuned table of a map with that name, and leads to that table. */
  ghost predicate RecordedIsHeld(facts: set<MapFact>, s: State, n: Name)
    requires n in s.tableToId
  {
    exists a | a in facts ::
      && a.name == n && a.Key() in s.tables && Loaded(s.tables[a.Key()], a)
      && s.tables[a.Key()].tm.id == s.tableToId[n]
      && s.tableToId[n] in s.idToTable && s.idToTable[s.tableToId[n]] == a.Key()
  }

  lemma TableOfHistory(facts: set<MapFact>, r: State, h: History, k: Key)
    requires Known(facts, h) && Tracked(r, h) && k in r.tables && r.tables[k].tuned
    ensures TunedByMap(facts, r, k)
  {
    hide ParseMap, KeyOf, Shaped, KnownName, KnownId;
    assert Settled(h, k, r.tables[k]);
    assert KnownTable(facts, h, k) && Loaded(r.tables[k], h.latest[k]);
  }

  lemma NameOfHistory(facts: set<MapFact>, r: State, h: History, n: Name)
    requires Known(facts, h) && Tracked(r, h) && MapsOk(facts) && n in r.tableToId
    ensures RecordedIsHeld(facts, r, n)
  {
    hide ParseMap, KeyOf, Shaped, KnownId;
    assert KnownName(h, n);
    var k :| k in h.latest && h.latest[k].name == n && h.latest[k].id == h.ids[n];
    assert Settled(h, k, r.tables[k]) && KnownTable(facts, h, k);
    assert h.latest[k].name == n;
  }

  lemma IdOfHistory(facts: set<MapFact>, r: State, h: History, id: uint64)
    requires Known(facts, h) && Tracked(r, h) && id in r.idToTable
    ensures exists a | a in facts :: a.id == id && a.Key() == r.idToTable[id]
  {
    hide ParseMap, KeyOf, Settled, KnownTable, KnownName;
    assert KnownId(facts, h, id);
  }

  /**
   * In every reachable state, a table is tuned only by one of its maps whose name has a recorded id; a recorded id is
   * held by the tuned table that it leads to; and every id leads to a table that it was given to.
   */
  lemma ReachableState(s: State, es: seq<Event>)
    requires Initial(s) && RunOk(es)
    ensures s.Linked()
    ensures var r, facts := Run(s, es, false), Facts(es);
      && (forall k | k in r.tables && r.tables[k].tuned :: TunedByMap(facts, r, k))
      && (forall n | n in r.tableToId :: RecordedIsHeld(facts, r, n))
      && (forall id | id in r.idToTable :: exists a | a in facts :: a.id == id && a.Key() == r.idToTable[id])
  {
    hide ParseMap, KeyOf, Run, SeenAll, FreshRun, WidthRun, WidthOk, Loaded;
    var facts, w := Facts(es), s.tables.Keys;
    AssumptionsSuffice(w, es);
    InitialTracked(s);
    RunAgrees(s, s, Nothing(), es);
    forall e | e in es && e.Map?
      ensures e.fact in facts
    {
      FactIn(es, e);
    }
    SeenIsKnown(facts, w, Nothing(), es);
    hide *;
    var r, h := Run(s, es, false), SeenAll(w, Nothing(), es);
    forall k | k in r.tables && r.tables[k].tuned
      ensures TunedByMap(facts, r, k)
    {
      TableOfHistory(facts, r, h, k);
    }
    forall n | n in r.tableToId
      ensures RecordedIsHeld(facts, r, n)
    {
      NameOfHistory(facts, r, h, n);
    }
    forall id | id in r.idToTable
      ensures exists a | a in facts :: a.id == id && a.Key() == r.idToTable[id]
    {
      IdOfHistory(facts, r, h, id);
    }
  }

  // ---------------------------------------------------------------- rows events meet their layout

  /** What every state a client can reach satisfies, when all the maps it may be sent are among `facts`. */
  ghost predicate CacheInv(facts: set<MapFact>, s: State) { exists h :: Known(facts, h) && Tracked(s, h) }

  lemma InitialInv(facts: set<MapFact>, s: State)
    requires Initial(s)
    ensures CacheInv(facts, s)
  {
    InitialTracked(s);
    assert Known(facts, Nothing());
  }

  lemma InvLinked(facts: set<MapFact>, s: State)
    requires CacheInv(facts, s)
    ensures s.Linked()
  {
  }

  lemma StepKeepsInv(facts: set<MapFact>, s: State, e: Event)
    requires CacheInv(facts, s) && IdUnique(facts) && OneSpelling(facts) && MapsOk(facts)
    requires e.Map? ==> e.fact in facts
    ensures s.Linked() && CacheInv(facts, Step(s, e, false))
  {
    hide Known, Tracked, IdUnique, OneSpelling, Step, Fresh, Seen, ParseMap, KeyOf;
    var h :| Known(facts, h) && Tracked(s, h);
    TrackedLinked(s, h);
    if e.Map? {
      KnownIsFresh(facts, h, e.fact);
    }
    StepIsTracked(s, h, e);
    KnownStays(facts, s.tables.Keys, h, e);
  }

  /** The latest map of each table. */
  ghost function Track(latest: map<Key, MapFact>, e: Event): map<Key, MapFact> {
    if e.Map? then latest[e.fact.Key() := e.fact] else latest
  }

  /** A table of that map holds its layout, and its id leads to the table. */
  ghost predicate Reached(s: State, k: Key, a: MapFact)
    requires k in s.tables
  {
    a.Key() == k && Loaded(s.tables[k], a) && a.id in s.idToTable && s.idToTable[a.id] == k
  }

  /** Every tracked table holds the layout of its latest map, and that map's id leads to it. */
  ghost predicate Current(facts: set<MapFact>, s: State, latest: map<Key, MapFact>) {
    forall k | k in latest && k in s.tables :: latest[k] in facts && Reached(s, k, latest[k])
  }

  lemma MapKeepsCurrent(facts: set<MapFact>, s: State, latest: map<Key, MapFact>, f: MapFact)
    requires CacheInv(facts, s) && IdUnique(facts) && OneSpelling(facts) && MapsOk(facts) && f in facts
    requires Current(facts, s, latest)
    ensures s.Linked() && Current(facts, OnMap(s, f, false), latest[f.Key() := f])
  {
    hide ParseMap, KeyOf, TuneTable, Known, Tracked, OneSpelling, MapsOk, Loaded;
    var h :| Known(facts, h) && Tracked(s, h);
    TrackedLinked(s, h);
    if f.Key() in s.tables {
      KnownIsFresh(facts, h, f);
      MapOk(facts, f);
      MappedTable(s, h, f);
      var r := OnMap(s, f, false);
      forall k | k in latest && k in s.tables && k != f.Key()
        ensures Reached(r, k, latest[k])
      {
        assert Reached(s, k, latest[k]);
        assert latest[k].id != f.id;
      }
    }
  }

  lemma MapOk(facts: set<MapFact>, f: MapFact)
    requires MapsOk(facts) && f in facts
    ensures f.Layout().Valid() && f.Layout().id == f.id
  {
  }

  lemma RowsKeepCurrent(facts: set<MapFact>, s: State, latest: map<Key, MapFact>, ev: RowsEvent)
    requires s.Linked() && Current(facts, s, latest)
    ensures Current(facts, OnRows(s, ev), latest)
  {
    hide ParseMap, KeyOf, UpdateTable, KindOf, Stuck;
    if ev.tableId in s.idToTable && !Stuck(s.tables[s.idToTable[ev.tableId]], ev) {
      UpdateKeepsLayout(s.tables[s.idToTable[ev.tableId]], ev);
      forall k | k in latest && k in s.tables
        ensures Reached(OnRows(s, ev), k, latest[k])
      {
        assert Reached(s, k, latest[k]);
      }
    }
  }

  lemma SameTablesKeepCurrent(facts: set<MapFact>, s: State, r: State, latest: map<Key, MapFact>)
    requires Current(facts, s, latest) && r.tables == s.tables && r.idToTable == s.idToTable
    ensures Current(facts, r, latest)
  {
    hide Loaded, KeyOf;
    forall k | k in latest && k in s.tables
      ensures Reached(r, k, latest[k])
    {
      assert Reached(s, k, latest[k]);
    }
  }

  lemma StepCases(s: State, latest: map<Key, MapFact>, e: Event)
    requires s.Linked()
    ensures e.Map? ==>
      Step(s, e, false) == OnMap(s, e.fact, false) && Track(latest, e) == latest[e.fact.Key() := e.fact]
    ensures e.Rows? ==> Step(s, e, false) == OnRows(s, e.ev)
    ensures !e.Map? ==> Track(latest, e) == latest
    ensures !e.Map? && !e.Rows? ==>
      var r := Step(s, e, false); r.tables == s.tables && r.idToTable == s.idToTable && r.calls == s.calls
  {
    hide OnMap, OnRows, KeyOf;
  }

  lemma StepKeepsCurrent(facts: set<MapFact>, s: State, latest: map<Key, MapFact>, e: Event)
    requires CacheInv(facts, s) && IdUnique(facts) && OneSpelling(facts) && MapsOk(facts)
    requires Current(facts, s, latest) && (e.Map? ==> e.fact in facts)
    ensures s.Linked() && Current(facts, Step(s, e, false), Track(latest, e))
  {
    hide *;
    InvLinked(facts, s);
    StepCases(s, latest, e);
    match e {
      case Map(f) => MapKeepsCurrent(facts, s, latest, f);
      case Rows(ev) => RowsKeepCurrent(facts, s, latest, ev);
      case _ => SameTablesKeepCurrent(facts, s, Step(s, e, false), latest);
    }
  }

  /** The callback a rows event should cause: its rows, read under the layout of the map `a`. */
  ghost function IdealCall(a: MapFact, ev: RowsEvent): Callback
    requires ev.Ends()
  {
    var r := ReadRows(a.Layout(), ev, Blanks(|a.Layout().types|), ev.data, ev.len);
    Callback(KindOf(ev.etype), a.Key(), ev.mem, r.rows, if KindOf(ev.etype) == Update then r.newRows else [])
  }

  /** The map `a` is the one the rows event was written under. */
  ghost predicate WrittenUnder(a: MapFact, ev: RowsEvent, latest: map<Key, MapFact>) {
    && a.id == ev.tableId && a.Key() in latest && latest[a.Key()].id == a.id
    && a.Layout().Valid() && a.Layout().id == a.id && ev.ncolumns == |a.Layout().types|
  }

  /** A rows event under a table's current id is never refused; it causes its callback if the table is watched. */
  lemma RowsMeetTheirLayout(facts: set<MapFact>, s: State, latest: map<Key, MapFact>, a: MapFact, ev: RowsEvent)
    requires CacheInv(facts, s) && IdUnique(facts) && Current(facts, s, latest)
    requires a in facts && WrittenUnder(a, ev, latest) && ev.Ends()
    ensures s.Linked()
    ensures OnRows(s, ev).calls == s.calls + (if a.Key() in s.tables then [IdealCall(a, ev)] else [])
    ensures RowsFit(s, ev)
  {
    hide ParseMap, KeyOf, CallFor, IdealCall, CacheInv, UpdateTable, Loaded, IdUnique, Shaped;
    InvLinked(facts, s);
    LayoutById(facts, a, ev, latest);
    var k := a.Key();
    if k in s.tables {
      assert Reached(s, k, latest[k]);
      LoadedIsShaped(facts, s, k, latest[k]);
      TableMakesIdealCall(s.tables[k], a, ev);
    } else {
      UntracedUnwatched(facts, s, a, ev.tableId);
    }
  }

  lemma LayoutById(facts: set<MapFact>, a: MapFact, ev: RowsEvent, latest: map<Key, MapFact>)
    requires IdUnique(facts) && a in facts && WrittenUnder(a, ev, latest)
    ensures latest[a.Key()] in facts ==> latest[a.Key()].Layout() == a.Layout()
  {
    hide ParseMap, KeyOf;
  }

  lemma LoadedIsShaped(facts: set<MapFact>, s: State, k: Key, a: MapFact)
    requires CacheInv(facts, s) && k in s.tables && Loaded(s.tables[k], a)
    ensures Shaped(s.tables[k]) && s.tables[k].tm == a.Layout()
  {
    hide Known, ParseMap, KeyOf;
    var h :| Known(facts, h) && Tracked(s, h);
    assert Settled(h, k, s.tables[k]);
  }

  lemma UntracedUnwatched(facts: set<MapFact>, s: State, a: MapFact, id: uint64)
    requires CacheInv(facts, s) && IdUnique(facts) && a in facts && a.id == id && a.Key() !in s.tables
    ensures id !in s.idToTable
  {
    hide ParseMap, KeyOf, Settled, KnownTable, KnownName;
    var h :| Known(facts, h) && Tracked(s, h);
  }

  lemma TableMakesIdealCall(t: TableState, a: MapFact, ev: RowsEvent)
    requires Shaped(t) && t.tm == a.Layout() && ev.Ends()
    requires a.Layout().id == ev.tableId && ev.ncolumns == |a.Layout().types|
    ensures Matches(t, ev) && CallFor(UpdateTable(t, ev), a.Key(), ev) == IdealCall(a, ev)
    ensures Positioned(t.row, ev.ncolumns)
  {
    hide ParseMap, KeyOf, ReadRows;
    RowsForgetTheLast(t.tm, ev, t.row, Blanks(|t.row|), ev.data, ev.len);
  }

  /** An id that no map mentions leads nowhere. */
  lemma UnmappedRows(facts: set<MapFact>, s: State, ev: RowsEvent)
    requires CacheInv(facts, s) && forall a | a in facts :: a.id != ev.tableId
    ensures s.Linked() && OnRows(s, ev) == s && RowsFit(s, ev)
  {
    hide KeyOf, Settled, KnownTable, KnownName;
    var h :| Known(facts, h) && Tracked(s, h);
    assert ev.tableId in h.owners ==> KnownId(facts, h, ev.tableId);
  }
}
