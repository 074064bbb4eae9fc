/**
 * The event loop in a session with a master: the packets of a log can be given to the loop, and it leaves the parser
 * in the state that the delivery theorems speak of.
 */
module Session {
  import opened Memory
  import opened Values
  import opened RowEvents
  import opened Framing
  import opened Dispatcher
  import opened Replication
  import opened Stream

  /** What is read in a session: the packets of the events `i..i + n`, until the connection is lost. */
  function Sent(ws: seq<Written>, i: nat, n: nat): seq<Read>
    requires i + n <= |ws|
    decreases n
  {
    if n == 0 then [Lost] else [Packet(Print(ws[i]))] + Sent(ws, i + 1, n - 1)
  }

  lemma RecognizedIsGood(e: Event, w: Written)
    requires Recognized(e, w)
    ensures e != Bad
  {
    hide KeyOf, HoldsRows;
  }

  lemma FirstAccepted(m: seq<byte>, rest: seq<Read>, useChecksum: bool)
    requires Classify(m, useChecksum) != Bad
    ensures Accepted([Packet(m)] + rest, useChecksum) == [Classify(m, useChecksum)] + Accepted(rest, useChecksum)
  {
    hide Classify;
    assert ([Packet(m)] + rest)[1..] == rest;
  }

  lemma SentFirst(ws: seq<Written>, useChecksum: bool, i: nat, n: nat)
    requires i + n <= |ws| && n > 0
    ensures Sent(ws, i, n) == [Packet(Print(ws[i]))] + Sent(ws, i + 1, n - 1)
    ensures |EventsOf(ws, useChecksum)| == |ws| && EventsOf(ws, useChecksum)[i] == Classify(Print(ws[i]), useChecksum)
  {
    hide Print, Classify;
  }

  lemma SliceJoin(es: seq<Event>, i: nat, n: nat)
    requires n > 0 && i + n <= |es|
    ensures [es[i]] + es[i + 1..i + n] == es[i..i + n]
  {
  }

  lemma NothingSent(ws: seq<Written>, useChecksum: bool, i: nat)
    requires i <= |ws|
    ensures Sent(ws, i, 0) == [Lost] && |EventsOf(ws, useChecksum)| == |ws|
    ensures Accepted([Lost], useChecksum) == [] == EventsOf(ws, useChecksum)[i..i]
  {
    hide Print, Classify;
  }

  /** The loop takes the packets of a log for its events, all of them, and then finds the connection lost. */
  lemma {:induction false} SentAccepted(ws: seq<Written>, starts: seq<Pos>, useChecksum: bool, i: nat, n: nat)
    requires StreamOk(ws, starts, useChecksum) && i + n <= |ws|
    ensures |EventsOf(ws, useChecksum)| == |ws|
    ensures Accepted(Sent(ws, i, n), useChecksum) == EventsOf(ws, useChecksum)[i..i + n]
    ensures |Sent(ws, i, n)| == n + 1 && Sent(ws, i, n)[n] == Lost
    decreases n
  {
    hide *;
    var es := EventsOf(ws, useChecksum);
    if n == 0 {
      NothingSent(ws, useChecksum, i);
    } else {
      SentFirst(ws, useChecksum, i, n);
      EventRecognized(ws, starts, useChecksum, i);
      RecognizedIsGood(es[i], ws[i]);
      SentAccepted(ws, starts, useChecksum, i + 1, n - 1);
      FirstAccepted(Print(ws[i]), Sent(ws, i + 1, n - 1), useChecksum);
      SliceJoin(es, i, n);
    }
  }

  /** The state of the client after these deliveries and the loss of the connection. */
  ghost function AfterSession(b: Binlog, c: Client, n: nat): (r: Client)
    requires c.parser.Linked()
    ensures r.parser.Linked()
  {
    Next(b, RunMoves(b, c, Delivers(n)), Lose)
  }

  lemma SessionParser(b: Binlog, c: Client, n: nat)
    requires c.parser.Linked() && c.cursor.Some? && c.cursor.value + n <= |b.events| && RunsThrough(b, c, n)
    ensures var es := b.events[c.cursor.value..c.cursor.value + n];
      RunFits(c.parser, es) && AfterSession(b, c, n).parser == Run(c.parser, es, false)
  {
    hide Run, RunFits, RunMoves;
  }

  lemma LogEvents(ws: seq<Written>, starts: seq<Pos>, useChecksum: bool)
    ensures LogOf(ws, starts, useChecksum).events == EventsOf(ws, useChecksum)
  {
    hide EventsOf;
  }

  /** What the loop needs to be given a session, and what it makes of it. */
  lemma SessionFits(ws: seq<Written>, starts: seq<Pos>, useChecksum: bool, c: Client, start: nat, was: seq<Callback>,
                    i: nat, n: nat)
    requires StreamOk(ws, starts, useChecksum) && WellFormed(LogOf(ws, starts, useChecksum))
    requires ClientInv(LogOf(ws, starts, useChecksum), c, start, was) && c.cursor == Some(i) && i + n <= |ws|
    ensures c.parser.Linked()
    ensures var es := Accepted(Sent(ws, i, n), useChecksum);
      && RunFits(c.parser, es) && |es| == n && |Sent(ws, i, n)| == n + 1 && Sent(ws, i, n)[n] == Lost
      && Run(c.parser, es, false) == AfterSession(LogOf(ws, starts, useChecksum), c, n).parser
  {
    hide *;
    var b := LogOf(ws, starts, useChecksum);
    LogEvents(ws, starts, useChecksum);
    SentAccepted(ws, starts, useChecksum, i, n);
    SessionIsRun(b, c, start, was, n);
    SessionParser(b, c, n);
  }

  /**
   * A session that is under way: whatever the client went through before, the loop may be given the next `n` packets
   * and then nothing more. It throws, disconnected, in the state of the client after `n` deliveries.
   */
  method ReadSession(parser: LogParser, ws: seq<Written>, i: nat, n: nat,
                     ghost starts: seq<Pos>, ghost c: Client, ghost start: nat, ghost was: seq<Callback>)
    returns (thrown: bool)
    requires parser.Valid() && parser.isConnected && parser.View() == c.parser
    requires StreamOk(ws, starts, parser.useChecksum) && WellFormed(LogOf(ws, starts, parser.useChecksum))
    requires ClientInv(LogOf(ws, starts, parser.useChecksum), c, start, was)
    requires c.cursor == Some(i) && i + n <= |ws|
    modifies parser`idToTable, parser`tableToId, parser`binlogName, parser`binlogPos, parser`isConnected, parser`calls
    modifies parser.eventRow, parser.tables.Values
    ensures parser.Valid() && thrown && !parser.isConnected
    ensures c.parser.Linked()
    ensures parser.View() == AfterSession(LogOf(ws, starts, parser.useChecksum), c, n).parser
  {
    hide *;
    SessionFits(ws, starts, parser.useChecksum, c, start, was, i, n);
    thrown := parser.DispatchEvents(Sent(ws, i, n));
  }

  /** The two packets that a dump starts with: a rotation to where it was asked for, and a format description. */
  function Greeting(h: Header, h': Header, data: seq<byte>, log: Name, pos: uint32): (seq<byte>, seq<byte>) {
    (Print(WRotate(h, log, pos)), Print(WFormat(h', data)))
  }

  ghost predicate GreetingOk(h: Header, h': Header, data: seq<byte>, log: Name, useChecksum: bool) {
    && |h.crc| == |h'.crc| == (if useChecksum then 4 else 0)
    && HEADER_LEN + 8 + |log| + 4 < TWO32 && HEADER_LEN + |data| + 4 < TWO32
  }

  lemma GreetingRecognized(h: Header, h': Header, data: seq<byte>, log: Name, pos: uint32, useChecksum: bool)
    requires GreetingOk(h, h', data, log, useChecksum)
    ensures var (m, m') := Greeting(h, h', data, log, pos);
      Classify(m, useChecksum) == Rotate(log, pos) && Classify(m', useChecksum) == Format
  {
    hide Classify, Print;
    PrintedIsRecognized(WRotate(h, log, pos), useChecksum);
    PrintedIsRecognized(WFormat(h', data), useChecksum);
  }

  lemma GreetingAccepted(h: Header, h': Header, data: seq<byte>, log: Name, pos: uint32, useChecksum: bool,
                         rest: seq<Read>)
    requires GreetingOk(h, h', data, log, useChecksum)
    ensures var (m, m') := Greeting(h, h', data, log, pos);
      Accepted([Packet(m)] + ([Packet(m')] + rest), useChecksum) ==
        [Rotate(log, pos)] + ([Format] + Accepted(rest, useChecksum))
  {
    hide Classify, Accepted, Greeting;
    GreetingRecognized(h, h', data, log, pos, useChecksum);
    var (m, m') := Greeting(h, h', data, log, pos);
    FirstAccepted(m', rest, useChecksum);
    FirstAccepted(m, [Packet(m')] + rest, useChecksum);
  }

  /** Running the loop on the greeting and then on the events. */
  lemma GreetedRun(s: State, es: seq<Event>)
    requires s.Linked()
    ensures var all := [Rotate(s.log, s.pos)] + ([Format] + es);
      && Run(s, all, false) == Run(Greeted(s), es, false)
      && (RunFits(s, all) <==> RunFits(Greeted(s), es))
  {
    var a, b := Rotate(s.log, s.pos), Format;
    var all := [a] + ([b] + es);
    assert all[1..] == [b] + es && ([b] + es)[1..] == es;
    RunFirst(s, all);
    RunFirst(Step(s, a, false), [b] + es);
  }

  /** What a reconnection makes of the client. */
  lemma ReconnectedAt(b: Binlog, c: Client, i: nat)
    requires c.parser.Linked() && !c.connected && ResumePoint(c.parser).Some?
    requires IndexOf(b, ResumePoint(c.parser).value) == Some(i)
    ensures var r := Next(b, c, Reconnect(true)); r.parser == Greeted(c.parser) && r.cursor == Some(i) && r.connected
  {
    hide IndexOf, Step;
  }

  lemma ParserPosition(parser: LogParser)
    ensures parser.View().log == parser.binlogName && parser.View().pos == parser.binlogPos
  {
  }

  /** The same as `SessionFits`, for a session that starts with a reconnection. */
  lemma ResumedFits(ws: seq<Written>, starts: seq<Pos>, useChecksum: bool, h: Header, h': Header, data: seq<byte>,
                    c: Client, start: nat, was: seq<Callback>, i: nat, n: nat)
    requires StreamOk(ws, starts, useChecksum) && WellFormed(LogOf(ws, starts, useChecksum))
    requires ClientInv(LogOf(ws, starts, useChecksum), c, start, was) && !c.connected && i + n <= |ws|
    requires ResumePoint(c.parser).Some?
    requires IndexOf(LogOf(ws, starts, useChecksum), ResumePoint(c.parser).value) == Some(i)
    requires GreetingOk(h, h', data, c.parser.log, useChecksum)
    ensures c.parser.Linked()
    ensures var b := LogOf(ws, starts, useChecksum);
      var (m, m') := Greeting(h, h', data, c.parser.log, c.parser.pos);
      var input := [Packet(m)] + ([Packet(m')] + Sent(ws, i, n));
      var es := Accepted(input, useChecksum);
      && RunFits(c.parser, es) && |es| == n + 2 && |input| == n + 3 && input[n + 2] == Lost
      && Run(c.parser, es, false) == AfterSession(b, Next(b, c, Reconnect(true)), n).parser
  {
    hide *;
    var b := LogOf(ws, starts, useChecksum);
    ReconnectKeepsInv(b, c, start, was, true);
    ReconnectedAt(b, c, i);
    SessionFits(ws, starts, useChecksum, Next(b, c, Reconnect(true)), start, was, i, n);
    GreetedRun(c.parser, Accepted(Sent(ws, i, n), useChecksum));
    GreetingAccepted(h, h', data, c.parser.log, c.parser.pos, useChecksum, Sent(ws, i, n));
  }

  /**
   * A session from reconnection to loss. `i` is where in the log the master finds the position it is asked for; it
   * greets, sends `n` events, and is lost. The loop ends in the state of the client after these moves.
   */
  method ResumeSession(parser: LogParser, h: Header, h': Header, data: seq<byte>, ws: seq<Written>, i: nat, n: nat,
                       ghost starts: seq<Pos>, ghost c: Client, ghost start: nat, ghost was: seq<Callback>)
    returns (thrown: bool)
    requires parser.Valid() && !parser.isConnected && parser.View() == c.parser && !c.connected
    requires StreamOk(ws, starts, parser.useChecksum) && WellFormed(LogOf(ws, starts, parser.useChecksum))
    requires ClientInv(LogOf(ws, starts, parser.useChecksum), c, start, was)
    requires ResumePoint(c.parser).Some? && i + n <= |ws|
    requires IndexOf(LogOf(ws, starts, parser.useChecksum), ResumePoint(c.parser).value) == Some(i)
    requires GreetingOk(h, h', data, c.parser.log, parser.useChecksum)
    modifies parser`idToTable, parser`tableToId, parser`binlogName, parser`binlogPos, parser`isConnected, parser`calls
    modifies parser.eventRow, parser.tables.Values
    ensures parser.Valid() && thrown && !parser.isConnected
    ensures c.parser.Linked()
    ensures var b := LogOf(ws, starts, parser.useChecksum);
      parser.View() == AfterSession(b, Next(b, c, Reconnect(true)), n).parser
  {
    hide *;
    ParserPosition(parser);
    ResumedFits(ws, starts, parser.useChecksum, h, h', data, c, start, was, i, n);
    var (m, m') := Greeting(h, h', data, parser.binlogName, parser.binlogPos);
    var _ := parser.Reconnect(true, true);
    thrown := parser.DispatchEvents([Packet(m)] + ([Packet(m')] + Sent(ws, i, n)));
  }
}
