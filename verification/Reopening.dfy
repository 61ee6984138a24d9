/** Addresses opened again, in time and too soon: runs of two ends in which it happens. */
module Reopenings {
  import opened Protocol
  import opened Framing
  import opened Connections
  import opened Writers
  import opened Demux
  import opened Readers
  import opened Network
  import opened Duplexes

  /** One connection that dialled. */
  function Dialled(a: Addr, phase: Phase, port: Port): Sys {
    Sys([Dial(0, a).(phase := phase)], [1], port)
  }

  lemma DialSteps(a: Addr)
    ensures Act(EMPTY, Open(a, true)) == Dialled(a, Opening, Port(None, []))
    ensures var s := Dialled(a, Opening, Port(None, []));
            CanAct(s, Do(0, Grant)) && Act(s, Do(0, Grant)) == Dialled(a, Handshaking(0), Port(Some(0), []))
    ensures var s := Dialled(a, Handshaking(HEADER_SIZE), Port(Some(0), Header(a, 0)));
            CanAct(s, Do(0, Drained)) && Act(s, Do(0, Drained)) == Dialled(a, Buffering, Port(None, Header(a, 0)))
  {
    assert Header(a, 0) + [] == Header(a, 0);
  }

  lemma DialSends(a: Addr)
    ensures var s, e := Dialled(a, Handshaking(0), Port(Some(0), [])), Send(HEADER_SIZE);
            CanAct(s, Do(0, e)) && Act(s, Do(0, e)) == Dialled(a, Handshaking(HEADER_SIZE), Port(Some(0), Header(a, 0)))
  {
    assert Encode(a, [])[0..HEADER_SIZE] == Header(a, 0) && [] + Header(a, 0) == Header(a, 0);
  }

  /** The handshake of a new connection. */
  lemma OpenedOnce(a: Addr)
    ensures var s, es := Act(EMPTY, Open(a, true)), [Grant, Send(HEADER_SIZE), Drained];
            && EventRun(s, 0, es) && AllQuiet(es)
            && AfterEvents(s, 0, es) == Dialled(a, Buffering, Port(None, Header(a, 0)))
  {
    hide Act, CanAct, Dialled, Header;
    DialSteps(a);
    DialSends(a);
    var s3, s2 := Dialled(a, Buffering, Port(None, Header(a, 0))), Dialled(a, Handshaking(HEADER_SIZE), Port(Some(0), Header(a, 0)));
    var e3, e2, e1 := [Drained], [Send(HEADER_SIZE), Drained], [Grant, Send(HEADER_SIZE), Drained];
    assert e3[1..] == [] && e2[1..] == e3 && e1[1..] == e2;
    assert EventRun(s3, 0, []) && AfterEvents(s3, 0, []) == s3;
    assert EventRun(s2, 0, e3) && AfterEvents(s2, 0, e3) == s3;
    assert EventRun(Dialled(a, Handshaking(0), Port(Some(0), [])), 0, e2);
  }

  lemma ShutSteps(a: Addr)
    ensures var s := Dialled(a, Buffering, Port(None, Header(a, 0)));
            CanAct(s, Do(0, Shutdown)) && Act(s, Do(0, Shutdown)) == Dialled(a, CloseWaiting, Port(None, Header(a, 0)))
    ensures var s := Dialled(a, CloseWaiting, Port(None, Header(a, 0)));
            CanAct(s, Do(0, Grant)) && Act(s, Do(0, Grant)) == Dialled(a, CloseFlushing(0), Port(Some(0), Header(a, 0)))
    ensures var s := Dialled(a, CloseFlushing(0), Port(Some(0), Header(a, 0)));
            CanAct(s, Do(0, Skip)) && Act(s, Do(0, Skip)) == Dialled(a, CloseWriting(0), Port(Some(0), Header(a, 0)))
  {
    assert Header(a, 0) + [] == Header(a, 0);
  }

  lemma ShutSends(a: Addr)
    ensures var s, e := Dialled(a, CloseWriting(0), Port(Some(0), Header(a, 0))), Send(HEADER_SIZE);
            && CanAct(s, Do(0, e))
            && Act(s, Do(0, e)) == Dialled(a, CloseWriting(HEADER_SIZE), Port(Some(0), Header(a, 0) + Header(a, 0)))
  {
    assert Encode(a, [])[0..HEADER_SIZE] == Header(a, 0);
  }

  lemma EventCons(s: Sys, i: nat, e: Event, es: seq<Event>)
    requires CanAct(s, Do(i, e)) && Quiet(e) && EventRun(Act(s, Do(i, e)), i, es) && AllQuiet(es)
    ensures EventRun(s, i, [e] + es) && AllQuiet([e] + es)
    ensures AfterEvents(s, i, [e] + es) == AfterEvents(Act(s, Do(i, e)), i, es)
  {
    assert ([e] + es)[1..] == es;
  }

  /** A connection that is opened and shut down, as its writer does it. */
  lemma ShutOnce(a: Addr) returns (es: seq<Event>)
    ensures EventRun(Dialled(a, Buffering, Port(None, Header(a, 0))), 0, es) && AllQuiet(es)
    ensures AfterEvents(Dialled(a, Buffering, Port(None, Header(a, 0))), 0, es)
         == Dialled(a, CloseWriting(HEADER_SIZE), Port(Some(0), Header(a, 0) + Header(a, 0)))
  {
    hide Act, CanAct, Dialled, Header, EventRun, AfterEvents;
    ShutSteps(a);
    ShutSends(a);
    NoEvents(Dialled(a, CloseWriting(HEADER_SIZE), Port(Some(0), Header(a, 0) + Header(a, 0))));
    EventCons(Dialled(a, CloseWriting(0), Port(Some(0), Header(a, 0))), 0, Send(HEADER_SIZE), []);
    es := [Send(HEADER_SIZE)] + [];
    EventCons(Dialled(a, CloseFlushing(0), Port(Some(0), Header(a, 0))), 0, Skip, es);
    es := [Skip] + es;
    EventCons(Dialled(a, CloseWaiting, Port(None, Header(a, 0))), 0, Grant, es);
    es := [Grant] + es;
    EventCons(Dialled(a, Buffering, Port(None, Header(a, 0))), 0, Shutdown, es);
    es := [Shutdown] + es;
  }

  lemma NoEvents(s: Sys)
    ensures EventRun(s, 0, []) && AfterEvents(s, 0, []) == s
  {
  }

  /** Opening again happens too: after the close is on the wire, `a` can be dialled anew, even
      before the peer has read anything. */
  lemma ReopeningHappens(a: Addr) returns (xs: seq<Step>)
    ensures NetRun(START_NET, xs)
    ensures var n := NetAfter(START_NET, xs); n.taken == 0 && |n.tx.conns| == 1 && CanStep(n, Call(a)) && Forgotten(n, a)
  {
    StartInv();
    OpenedOnce(a);
    var n1 := Perform(START_NET, Call(a));
    assert n1 == START_NET.(tx := Act(EMPTY, Open(a, true)));
    var opening := [Grant, Send(HEADER_SIZE), Drained];
    var closing := ShutOnce(a);
    hide EventRun, AfterEvents, Act, Dialled, CanStep, Perform, NetRun, NetAfter;
    EventsConcat(n1.tx, 0, opening, closing);
    assert AllQuiet(opening + closing);
    CallsAreRuns(n1, 0, opening + closing);
    assert CanStep(START_NET, Call(a)) by { IdleAtStart(a); }
    NetCons(START_NET, Call(a), Writes(0, opening + closing));
    xs := [Call(a)] + Writes(0, opening + closing);
    IdleWhenClosed(NetAfter(START_NET, xs), a);
  }

  lemma IdleAtStart(a: Addr)
    ensures CanStep(START_NET, Call(a))
  {
  }

  lemma IdleWhenClosed(n: Net, a: Addr)
    requires n.tx == Dialled(a, CloseWriting(HEADER_SIZE), Port(Some(0), Header(a, 0) + Header(a, 0))) && n.pending == {}
    ensures |n.tx.conns| == 1 && CanStep(n, Call(a)) && Forgotten(n, a)
  {
  }

  // ---------------------------------------------------------------- too soon

  /** One connection that was accepted. */
  function Answering(a: Addr, phase: Phase, port: Port): Sys {
    Sys([Respond(0, a).(phase := phase)], [0], port)
  }

  lemma AnswerSteps(a: Addr)
    ensures Act(EMPTY, Open(a, false)) == Answering(a, Buffering, Port(None, []))
    ensures var s := Answering(a, Buffering, Port(None, []));
            CanAct(s, Do(0, Shutdown)) && Act(s, Do(0, Shutdown)) == Answering(a, CloseWaiting, Port(None, []))
    ensures var s := Answering(a, CloseWaiting, Port(None, []));
            CanAct(s, Do(0, Grant)) && Act(s, Do(0, Grant)) == Answering(a, CloseFlushing(0), Port(Some(0), []))
    ensures var s := Answering(a, CloseFlushing(0), Port(Some(0), []));
            CanAct(s, Do(0, Skip)) && Act(s, Do(0, Skip)) == Answering(a, CloseWriting(0), Port(Some(0), []))
  {
  }

  lemma AnswerSends(a: Addr)
    ensures var s, e := Answering(a, CloseWriting(0), Port(Some(0), [])), Send(HEADER_SIZE);
            && CanAct(s, Do(0, e))
            && Act(s, Do(0, e)) == Answering(a, CloseWriting(HEADER_SIZE), Port(Some(0), Header(a, 0)))
    ensures var s := Answering(a, CloseWriting(HEADER_SIZE), Port(Some(0), Header(a, 0)));
            CanAct(s, Do(0, Drained)) && Act(s, Do(0, Drained)) == Answering(a, Closed, Port(None, Header(a, 0)))
  {
    assert Encode(a, [])[0..HEADER_SIZE] == Header(a, 0) && [] + Header(a, 0) == Header(a, 0);
    assert Header(a, 0) + [] == Header(a, 0);
  }

  /** The accepted connection is shut down. */
  lemma AnswerShut(a: Addr) returns (es: seq<Event>)
    ensures EventRun(Answering(a, Buffering, Port(None, [])), 0, es) && AllQuiet(es)
    ensures AfterEvents(Answering(a, Buffering, Port(None, [])), 0, es) == Answering(a, Closed, Port(None, Header(a, 0)))
  {
    hide Act, CanAct, Answering, Header, EventRun, AfterEvents;
    AnswerSteps(a);
    AnswerSends(a);
    NoEvents(Answering(a, Closed, Port(None, Header(a, 0))));
    EventCons(Answering(a, CloseWriting(HEADER_SIZE), Port(Some(0), Header(a, 0))), 0, Drained, []);
    es := [Drained] + [];
    EventCons(Answering(a, CloseWriting(0), Port(Some(0), [])), 0, Send(HEADER_SIZE), es);
    es := [Send(HEADER_SIZE)] + es;
    EventCons(Answering(a, CloseFlushing(0), Port(Some(0), [])), 0, Skip, es);
    es := [Skip] + es;
    EventCons(Answering(a, CloseWaiting, Port(None, [])), 0, Grant, es);
    es := [Grant] + es;
    EventCons(Answering(a, Buffering, Port(None, [])), 0, Shutdown, es);
    es := [Shutdown] + es;
  }

  /** A reading end that knows one connection. */
  function Knows(a: Addr, byHeader: bool, state: State, sockets: map<Addr, nat>, chan: seq<nat>, accepted: seq<nat>): Rx {
    Rx(state, sockets, [Entry(a, Buf.View(0, []), true, [], byHeader)], chan, accepted, 1, true)
  }

  predicate At(n: Net, tx: Sys, rx: Rx, taken: nat, pending: set<Addr>) {
    n.tx == tx && n.rx == rx && n.taken == taken && n.pending == pending
  }

  /** The whole wire is one header: it is fetched at once. */
  lemma FetchHeader(n: Net, a: Addr)
    requires n.rx.Valid() && n.rx.state == NextPacket([]) && n.Wire() == Header(a, 0) && n.taken == 0
    ensures CanStep(n, Fetch(Buf.Ready(Header(a, 0))))
    ensures At(Perform(n, Fetch(Buf.Ready(Header(a, 0)))), n.tx, Dispatch(n.rx, Header(a, 0)), HEADER_SIZE, n.pending)
    ensures HeaderAddr(Header(a, 0)) == a && HeaderLen(Header(a, 0)) == 0
  {
    var h := Header(a, 0);
    HeaderRoundTrip(a, 0, []);
    assert h + [] == h && [] + h == h && h[..HEADER_SIZE] == h && n.Wire()[0..] == h;
    var p := PollOnce(n.rx, Buf.Ready(h));
    assert p == Polled(Dispatch(n.rx, h), Progress, h);
  }

  lemma OneFetch(n: Net, x: Step)
    requires n.rx.Valid() && x.Fetch? && CanStep(n, x)
    ensures NetRun(n, [x]) && NetAfter(n, [x]) == Perform(n, x) && Ordinary([x])
  {
    hide CanStep, Perform;
    NetNil(Perform(n, x));
    NetCons(n, x, []);
    assert [x] + [] == [x];
  }

  lemma NetNil(n: Net)
    ensures NetRun(n, []) && NetAfter(n, []) == n
  {
  }

  /** The near end opens a connection. */
  lemma FirstTurn(a: Addr)
    ensures CanMove(NEW_PAIR, Connect(a))
    ensures var d := Moved(NEW_PAIR, Connect(a));
            && At(d.there, Dialled(a, Opening, Port(None, [])), FRESH, 0, {})
            && At(d.back, EMPTY, Knows(a, false, NextPacket([]), map[a := 0], [], []), 0, {a})
  {
    DialSteps(a);
    StartInv();
    assert CanStep(START_NET, Call(a)) && CanStep(START_NET, Adopt(a));
  }

  lemma OrdinaryWrites(i: nat, es: seq<Event>)
    ensures Ordinary(Writes(i, es))
  {
  }

  /** One direction goes on by some writes. */
  lemma WriteTurns(d: Duplex, far: bool, es: seq<Event>) returns (ts: seq<Turn>)
    requires var n := if far then d.back else d.there; n.rx.Valid() && EventRun(n.tx, 0, es) && AllQuiet(es)
    ensures DuplexRun(d, ts)
    ensures DuplexAfter(d, ts) == if far then d.(back := d.back.(tx := AfterEvents(d.back.tx, 0, es)))
                                  else d.(there := d.there.(tx := AfterEvents(d.there.tx, 0, es)))
  {
    hide NetRun, NetAfter, DuplexRun, DuplexAfter, EventRun, AfterEvents, Rx.Valid, Ordinary;
    CallsAreRuns(if far then d.back else d.there, 0, es);
    OrdinaryWrites(0, es);
    RunsAreTurns(d, far, Writes(0, es));
    ts := Turns(far, Writes(0, es));
  }

  /** One direction goes on by a fetch. */
  lemma FetchTurn(d: Duplex, far: bool, x: Step) returns (ts: seq<Turn>)
    requires var n := if far then d.back else d.there; n.rx.Valid() && x.Fetch? && CanStep(n, x)
    ensures DuplexRun(d, ts)
    ensures DuplexAfter(d, ts) == if far then d.(back := Perform(d.back, x)) else d.(there := Perform(d.there, x))
  {
    hide NetRun, NetAfter, DuplexRun, DuplexAfter, Rx.Valid, Ordinary, CanStep, Perform;
    OneFetch(if far then d.back else d.there, x);
    RunsAreTurns(d, far, [x]);
    ts := Turns(far, [x]);
  }

  /** It is accepted by the far end. */
  lemma AcceptTurn(d: Duplex, a: Addr)
    requires At(d.there, Dialled(a, Buffering, Port(None, Header(a, 0))),
                Knows(a, true, NextPacket([]), map[a := 0], [0], []), HEADER_SIZE, {})
    requires At(d.back, EMPTY, Knows(a, false, NextPacket([]), map[a := 0], [], []), 0, {a})
    ensures CanMove(d, AcceptOne)
    ensures var d' := Moved(d, AcceptOne);
            && At(d'.there, d.there.tx, Knows(a, true, NextPacket([]), map[a := 0], [], [0]), HEADER_SIZE, {})
            && At(d'.back, Answering(a, Buffering, Port(None, [])), d.back.rx, 0, {})
  {
    AnswerSteps(a);
    hide Dialled, Header, Act;
    assert d.there.rx.Valid() && d.back.rx.Valid();
    assert CanStep(d.there, Local(Accept)) && CanStep(d.back, Reply(a));
    assert [] + [0] == [0] && [0][1..] == [];
  }

  lemma TurnOnce(d: Duplex, t: Turn)
    requires CanTurn(d, t)
    ensures DuplexRun(d, [t]) && DuplexAfter(d, [t]) == Turned(d, t)
  {
    hide CanTurn, Turned;
    TurnsNil(Turned(d, t));
    TurnCons(d, t, []);
    assert [t] + [] == [t];
  }

  lemma TurnsNil(d: Duplex)
    ensures DuplexRun(d, []) && DuplexAfter(d, []) == d
  {
  }

  lemma FreshDispatch(a: Addr)
    ensures Dispatch(FRESH, Header(a, 0)) == Knows(a, true, SendSocket(0), map[a := 0], [], [])
  {
    HeaderRoundTrip(a, 0, []);
    assert Header(a, 0) + [] == Header(a, 0);
  }

  lemma HandedOff(n: Net, a: Addr)
    requires n.rx == Knows(a, true, SendSocket(0), map[a := 0], [], []) && n.taken <= |n.Wire()|
    ensures n.rx.Valid() && CanStep(n, Fetch(Buf.Stalled))
    ensures At(Perform(n, Fetch(Buf.Stalled)), n.tx, Knows(a, true, NextPacket([]), map[a := 0], [0], []), n.taken, n.pending)
  {
    assert [] + [0] == [0];
  }

  /** The opening reaches the far end and its channel. */
  lemma ReachesChannel(d: Duplex, a: Addr) returns (ts: seq<Turn>)
    requires At(d.there, Dialled(a, Buffering, Port(None, Header(a, 0))), FRESH, 0, {})
    ensures DuplexRun(d, ts)
    ensures var d' := DuplexAfter(d, ts);
            && At(d'.there, d.there.tx, Knows(a, true, NextPacket([]), map[a := 0], [0], []), HEADER_SIZE, {})
            && d'.back == d.back
  {
    var x := Fetch(Buf.Ready(Header(a, 0)));
    assert d.there.rx.Valid() && d.there.Wire() == Header(a, 0);
    FetchHeader(d.there, a);
    hide Perform, CanStep, DuplexRun, DuplexAfter, Rx.Valid, Dispatch, Dialled, Header;
    FreshDispatch(a);
    HandedOff(Perform(d.there, x), a);
    var ts1 := FetchTurn(d, false, x);
    var ts2 := FetchTurn(DuplexAfter(d, ts1), false, Fetch(Buf.Stalled));
    TurnsConcat(d, ts1, ts2);
    ts := ts1 + ts2;
  }

  /** The close of the accepted connection reaches the near end, which forgets the address. */
  lemma Forgets(d: Duplex, a: Addr) returns (ts: seq<Turn>)
    requires At(d.back, Answering(a, Closed, Port(None, Header(a, 0))), Knows(a, false, NextPacket([]), map[a := 0], [], []), 0, {})
    ensures DuplexRun(d, ts)
    ensures DuplexAfter(d, ts).there == d.there && a !in DuplexAfter(d, ts).back.rx.sockets && DuplexAfter(d, ts).back.pending == {}
  {
    var x := Fetch(Buf.Ready(Header(a, 0)));
    assert d.back.rx.Valid() && d.back.Wire() == Header(a, 0);
    FetchHeader(d.back, a);
    hide Header;
    assert a !in Dispatch(d.back.rx, Header(a, 0)).sockets;
    hide Perform, CanStep, DuplexRun, DuplexAfter, Rx.Valid, Dispatch;
    ts := FetchTurn(d, true, x);
  }

  /** Opening an address too soon happens: the near end opens it, the far end accepts and shuts
      its side down, the near end reads that and forgets the address, so that add_connection
      accepts it again; but the near end's first writer is still alive. The second opening
      would close the first connection at the far end and open none. */
  lemma TooSoonHappens(a: Addr) returns (ts: seq<Turn>)
    ensures DuplexRun(NEW_PAIR, ts)
    ensures var d := DuplexAfter(NEW_PAIR, ts);
            && a !in d.back.rx.sockets && a !in d.there.pending && a !in d.back.pending && !Forgotten(d.there, a)
            && d.there.rx.Valid() && d.there.taken <= |d.there.Wire()|
            && var r := Feed(Abs(d.there.rx), d.there.Wire()[d.there.taken..]);
               var r' := Feed(r, Header(a, 0));
               a in r.sockets && a !in r'.sockets && r'.regs == r.regs
  {
    FirstTurn(a);
    OpenedOnce(a);
    DialSteps(a);
    var t1 := Turn(false, Connect(a));
    var d1 := Turned(NEW_PAIR, t1);
    assert FRESH.Valid();
    hide Act, CanMove, Moved, Dialled, Answering, Header, EventRun, AfterEvents, DuplexRun, DuplexAfter, Rx.Valid;
    TurnOnce(NEW_PAIR, t1);
    var ts2 := WriteTurns(d1, false, [Grant, Send(HEADER_SIZE), Drained]);
    var d2 := DuplexAfter(d1, ts2);
    var ts3 := ReachesChannel(d2, a);
    var d3 := DuplexAfter(d2, ts3);
    AcceptTurn(d3, a);
    TurnOnce(d3, Turn(false, AcceptOne));
    var d4 := Moved(d3, AcceptOne);
    var es := AnswerShut(a);
    assert d4.back.rx.Valid() by { KnowsIsValid(a, false, map[a := 0]); }
    var ts5 := WriteTurns(d4, true, es);
    var d5 := DuplexAfter(d4, ts5);
    var ts6 := Forgets(d5, a);
    ts := Chained(NEW_PAIR, t1, ts2, ts3, Turn(false, AcceptOne), ts5, ts6);
    var d := DuplexAfter(NEW_PAIR, ts);
    NewPairInv();
    DuplexInvRun(NEW_PAIR, ts);
    StillInUse(d, a);
  }

  lemma KnowsIsValid(a: Addr, byHeader: bool, sockets: map<Addr, nat>)
    requires sockets == map[a := 0]
    ensures Knows(a, byHeader, NextPacket([]), sockets, [], []).Valid()
  {
  }

  lemma Chained(d: Duplex, t1: Turn, ts2: seq<Turn>, ts3: seq<Turn>, t4: Turn, ts5: seq<Turn>, ts6: seq<Turn>) returns (ts: seq<Turn>)
    requires CanTurn(d, t1) && DuplexRun(Turned(d, t1), ts2)
    requires var d2 := DuplexAfter(Turned(d, t1), ts2);
             && DuplexRun(d2, ts3)
             && var d3 := DuplexAfter(d2, ts3);
                && CanTurn(d3, t4) && DuplexRun(Turned(d3, t4), ts5)
                && DuplexRun(DuplexAfter(Turned(d3, t4), ts5), ts6)
    ensures DuplexRun(d, ts)
    ensures var d3 := DuplexAfter(DuplexAfter(Turned(d, t1), ts2), ts3);
            DuplexAfter(d, ts) == DuplexAfter(DuplexAfter(Turned(d3, t4), ts5), ts6)
  {
    hide Turned, CanTurn, DuplexRun, DuplexAfter;
    var d1 := Turned(d, t1);
    var d3 := DuplexAfter(DuplexAfter(d1, ts2), ts3);
    TurnsConcat(Turned(d3, t4), ts5, ts6);
    TurnCons(d3, t4, ts5 + ts6);
    TurnsConcat(DuplexAfter(d1, ts2), ts3, [t4] + (ts5 + ts6));
    TurnsConcat(d1, ts2, ts3 + ([t4] + (ts5 + ts6)));
    TurnCons(d, t1, ts2 + (ts3 + ([t4] + (ts5 + ts6))));
    ts := [t1] + (ts2 + (ts3 + ([t4] + (ts5 + ts6))));
  }

  lemma EmptyIsHeader(a: Addr)
    ensures Encode(a, []) == Header(a, 0)
  {
  }

  /** The far end still holds the first connection, and would close it. */
  lemma StillInUse(d: Duplex, a: Addr)
    requires DuplexInv(d)
    requires At(d.there, Dialled(a, Buffering, Port(None, Header(a, 0))),
                Knows(a, true, NextPacket([]), map[a := 0], [], [0]), HEADER_SIZE, {})
    ensures !Forgotten(d.there, a) && d.there.rx.Valid() && d.there.taken <= |d.there.Wire()|
    ensures var r := Feed(Abs(d.there.rx), d.there.Wire()[d.there.taken..]);
            var r' := Feed(r, Header(a, 0));
            a in r.sockets && a !in r'.sockets && r'.regs == r.regs
  {
    hide HalfInv, BookInv, NetInv, InOrder, Feed, Header, Parse, Rx.Valid, Empties, Session;
    HalfIsNet(d.there, d.back.pending);
    var c := d.there.tx.conns[0];
    assert c.addr == a && Opened(c) && !CloseSent(c);
    OneFrame(Frame(a, []), a, 0);
    EmptyIsHeader(a);
    ReopensExactly(d.there, a);
  }
}
