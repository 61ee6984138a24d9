/** src/write.rs and src/poll_mutex.rs, one atomic action at a time: the state of one
    connection's write half and of the writer it shares with the other connections. */
module Connections {
  import opened Protocol
  import opened Packets

  /** `Opening` and `Handshaking` are the two halves of `handshake`; the `Close` phases are
      `ShutDownState`; the `Drop` phases are the future spawned when a connection is dropped,
      the `Abort` phases the same future after a handshake that failed. It ends with the close
      sent, with the connection abandoned, or without the peer ever having heard of it. A
      connection that was shut down stays closed when it is dropped. */
  datatype Phase =
    | Opening
    | Handshaking(sent: nat)
    | Buffering
    | Flushing(sent: nat)
    | CloseWaiting
    | CloseFlushing(sent: nat)
    | CloseWriting(sent: nat)
    | Closed
    | CloseError
    | DropWaiting
    | DropFlushing(sent: nat)
    | DropWriting(sent: nat)
    | AbortWaiting
    | AbortWriting(sent: nat)
    | Gone
    | Abandoned
    | Unheard

  /** `id` tells writers apart, also those of one address; `queued` is a stored lock request;
      `pushed` is every byte the packet ever accepted. */
  datatype Conn = Conn(
    id: nat,
    addr: Addr,
    dialled: bool,
    payload: seq<Byte>,
    phase: Phase,
    queued: bool,
    pushed: seq<Byte>)
  {
    predicate SendsPacket() {
      phase.Flushing? || phase.CloseFlushing? || phase.DropFlushing?
    }

    predicate SendsHeader() {
      phase.Handshaking? || phase.CloseWriting? || phase.DropWriting? || phase.AbortWriting?
    }

    /** Does this connection own the writer lock? */
    predicate Holds() {
      SendsPacket() || SendsHeader()
    }

    function Sent(): nat {
      if Holds() then phase.sent else 0
    }

    /** The payload of the frame this phase sends: the packet, or nothing. */
    function Current(): seq<Byte> {
      if SendsPacket() then payload else []
    }

    function Out(): seq<Byte>
      requires |payload| <= PACKET_SIZE
    {
      Encode(addr, Current())
    }

    /** Packet bytes that are not on the wire. */
    function Unsent(): seq<Byte> {
      if SendsPacket() && HEADER_SIZE < phase.sent <= HEADER_SIZE + |payload|
      then payload[phase.sent - HEADER_SIZE..] else payload
    }

    /** The handshake, or what is left of one that failed. */
    predicate Opening() {
      phase.Opening? || phase.Handshaking? || phase.AbortWaiting? || phase.AbortWriting? || phase.Unheard?
    }

    ghost predicate Ok() {
      && |payload| <= PACKET_SIZE
      && (Holds() ==> !queued && phase.sent <= |Out()|)
      && (SendsPacket() && payload == [] ==> phase.sent == 0)
      && (phase.DropFlushing? ==> phase.sent > 0)
      && (Opening() ==> pushed == [] && payload == [] && !queued)
      && (phase.CloseWriting? || phase.Closed? ==> payload == [])
    }

    /** Between calls a begun flush always has something left to send. */
    ghost predicate AtRest() {
      && Ok()
      && (phase.Flushing? ==> payload != [])
      && (Holds() ==> phase.sent < |Out()|)
    }
  }

  function Dial(id: nat, a: Addr): Conn {
    Conn(id, a, true, [], Opening, false, [])
  }

  function Respond(id: nat, a: Addr): Conn {
    Conn(id, a, false, [], Buffering, false, [])
  }

  /** The shared `Arc<Mutex<Writer>>`: who holds the lock, and all bytes ever written. */
  datatype Port = Port(owner: Option<nat>, wire: seq<Byte>)

  datatype Event =
    | Push(data: seq<Byte>)  // bytes accepted into the packet
    | Queue                  // the lock is taken: keep a request
    | Grant                  // the lock is acquired
    | Send(n: nat)           // the TCP writer takes n bytes
    | Drained                // the current frame is complete
    | Skip                   // nothing to flush
    | Fail                   // the TCP writer fails
    | Shutdown               // the first poll_shutdown
    | Drop                   // the connection is dropped

  /** Can this event happen to this connection? */
  predicate Can(c: Conn, e: Event) {
    match e
    case Push(data) =>
      && (c.phase.Buffering? || c.phase.Flushing?)
      && |c.payload| <= PACKET_SIZE && |data| <= PushLimit(|c.payload|, c.Sent())
    case Queue => c.phase.Buffering? || c.phase.CloseWaiting?
    case Grant =>
      c.phase.Opening? || c.phase.Buffering? || c.phase.CloseWaiting? || c.phase.DropWaiting? || c.phase.AbortWaiting?
    case Send(n) => Sending(c) && 0 < n <= |c.Out()| - c.Sent()
    case Drained => Sending(c) && c.Sent() == |c.Out()|
    case Skip => (c.phase.Flushing? || c.phase.CloseFlushing?) && c.payload == []
    case Fail => Sending(c) && c.Sent() < |c.Out()|
    case Shutdown => c.phase.Buffering? || c.phase.Flushing?
    case Drop =>
      && (c.phase.Buffering? || c.phase.Flushing? || Closing(c.phase))
      && |c.payload| <= PACKET_SIZE && c.Sent() < |c.Out()|
  }

  /** The lock is held and there is a frame to send. */
  predicate Sending(c: Conn) {
    c.Holds() && |c.payload| <= PACKET_SIZE && (c.SendsPacket() ==> c.payload != [])
  }

  predicate Closing(p: Phase) {
    p.CloseWaiting? || p.CloseFlushing? || p.CloseWriting? || p.Closed? || p.CloseError?
  }

  predicate Dropping(p: Phase) {
    || p.DropWaiting? || p.DropFlushing? || p.DropWriting? || p.AbortWaiting? || p.AbortWriting?
    || p.Gone? || p.Abandoned? || p.Unheard?
  }

  /** The connection after an event. */
  function After(c: Conn, e: Event): Conn
    requires Can(c, e)
  {
    match e
    case Push(data) => c.(payload := c.payload + data, pushed := c.pushed + data)
    case Queue => c.(queued := true)
    case Grant => c.(phase := WhenGranted(c.phase), queued := false)
    case Send(n) => c.(phase := Advance(c.phase, n))
    case Drained => c.(phase := WhenDrained(c.phase), payload := if c.SendsPacket() then [] else c.payload)
    case Skip => c.(phase := if c.phase.Flushing? then Buffering else CloseWriting(0))
    case Fail => c.(phase := WhenFailed(c.phase))
    case Shutdown => c.(phase := if c.phase.Buffering? then CloseWaiting else CloseFlushing(c.phase.sent))
    case Drop => c.(phase := WhenDropped(c.phase), queued := c.queued && c.phase.Buffering?)
  }

  function WhenGranted(p: Phase): Phase {
    match p
    case Opening => Handshaking(0)
    case Buffering => Flushing(0)
    case CloseWaiting => CloseFlushing(0)
    case DropWaiting => DropWriting(0)
    case AbortWaiting => AbortWriting(0)
    case _ => p
  }

  function Advance(p: Phase, n: nat): Phase {
    match p
    case Handshaking(s) => Handshaking(s + n)
    case Flushing(s) => Flushing(s + n)
    case CloseFlushing(s) => CloseFlushing(s + n)
    case CloseWriting(s) => CloseWriting(s + n)
    case DropFlushing(s) => DropFlushing(s + n)
    case DropWriting(s) => DropWriting(s + n)
    case AbortWriting(s) => AbortWriting(s + n)
    case _ => p
  }

  function WhenDrained(p: Phase): Phase {
    match p
    case Handshaking(_) => Buffering
    case Flushing(_) => Buffering
    case CloseFlushing(_) => CloseWriting(0)
    case CloseWriting(_) => Closed
    case DropFlushing(_) => DropWriting(0)
    case DropWriting(_) => Gone
    case AbortWriting(_) => Abandoned
    case _ => p
  }

  function WhenFailed(p: Phase): Phase {
    match p
    case Handshaking(_) => AbortWaiting
    case Flushing(_) => Buffering
    case CloseFlushing(_) => CloseError
    case CloseWriting(_) => CloseError
    case AbortWriting(_) => Unheard
    case _ => Abandoned
  }

  function WhenDropped(p: Phase): Phase {
    match p
    case Buffering => DropWaiting
    case Flushing(s) => if s == 0 then DropWriting(0) else DropFlushing(s)
    case Closed => Closed
    case _ => Abandoned
  }

  /** The bytes an event puts on the wire. */
  function Emits(c: Conn, e: Event): seq<Byte>
    requires Can(c, e)
  {
    if e.Send? then c.Out()[c.Sent()..c.Sent() + e.n] else []
  }

  /** An event needs the lock free only to acquire it. */
  predicate PortAllows(p: Port, e: Event) {
    e.Grant? ==> p.owner.None?
  }

  /** The writer after an event: who holds the lock follows the phase. */
  function PortAfter(c: Conn, p: Port, e: Event): Port
    requires Can(c, e)
  {
    Port(if After(c, e).Holds() then Some(c.id) else if c.Holds() then None else p.owner,
         p.wire + Emits(c, e))
  }

  /** Half a frame is abandoned on the wire. */
  predicate Tears(c: Conn, e: Event) {
    && (e.Fail? || (e.Drop? && Closing(c.phase)))
    && |c.payload| <= PACKET_SIZE && 0 < c.Sent() < |c.Out()|
  }

  lemma OkKept(c: Conn, e: Event)
    requires c.Ok() && Can(c, e)
    ensures After(c, e).Ok()
    ensures After(c, e).id == c.id && After(c, e).addr == c.addr && After(c, e).dialled == c.dialled
  {
    if e.Send? {
      OkSend(c, e.n);
    } else if e.Push? || e.Queue? || e.Grant? || e.Shutdown? {
      OkBefore(c, e);
    } else {
      OkOver(c, e);
    }
  }

  lemma OkSend(c: Conn, n: nat)
    requires c.Ok() && Can(c, Send(n))
    ensures After(c, Send(n)).Ok()
  {
  }

  lemma OkBefore(c: Conn, e: Event)
    requires c.Ok() && Can(c, e) && (e.Push? || e.Queue? || e.Grant? || e.Shutdown?)
    ensures After(c, e).Ok()
  {
  }

  lemma OkOver(c: Conn, e: Event)
    requires c.Ok() && Can(c, e) && (e.Drained? || e.Skip? || e.Fail? || e.Drop?)
    ensures After(c, e).Ok()
  {
  }

  // ---------------------------------------------------------------- shutting down

  /** Bytes a connection still has to put on the wire before it is closed or gone: the rest
      of a frame that must be sent, then one empty header. */
  ghost function Owed(c: Conn): seq<Byte>
    requires c.Ok()
  {
    match c.phase
    case CloseWaiting => Packet(c) + Header(c.addr, 0)
    case CloseFlushing(s) => (if c.payload == [] then [] else c.Out()[s..]) + Header(c.addr, 0)
    case CloseWriting(s) => Header(c.addr, 0)[s..]
    case DropWaiting => Header(c.addr, 0)
    case DropFlushing(s) => c.Out()[s..] + Header(c.addr, 0)
    case DropWriting(s) => Header(c.addr, 0)[s..]
    case AbortWaiting => Header(c.addr, 0)
    case AbortWriting(s) => Header(c.addr, 0)[s..]
    case _ => []
  }

  /** The frame of a packet that has not been begun, if there is anything in it. */
  function Packet(c: Conn): seq<Byte>
    requires |c.payload| <= PACKET_SIZE
  {
    if c.payload == [] then [] else Encode(c.addr, c.payload)
  }

  ghost predicate Quiet(e: Event) {
    !e.Fail? && !e.Drop?
  }

  /** What a sending connection owes is the rest of its frame and what comes after it. */
  lemma OwedWhileSending(c: Conn)
    requires c.Ok() && Sending(c) && (Closing(c.phase) || Dropping(c.phase))
    ensures Owed(c) == c.Out()[c.Sent()..] + if c.SendsPacket() then Header(c.addr, 0) else []
  {
    if c.SendsHeader() {
      assert c.Out() == Header(c.addr, 0);
    }
  }

  /** Sending takes the same frame on. */
  lemma SentFurther(c: Conn, n: nat)
    requires c.Ok() && Can(c, Send(n)) && (Closing(c.phase) || Dropping(c.phase))
    ensures var c' := After(c, Send(n));
            && c'.Ok() && Sending(c) && Sending(c') && (Closing(c'.phase) || Dropping(c'.phase))
            && c'.Out() == c.Out() && c'.Sent() == c.Sent() + n <= |c.Out()| && c'.addr == c.addr
            && (c'.SendsPacket() <==> c.SendsPacket())
            && Emits(c, Send(n)) == c.Out()[c.Sent()..c.Sent() + n]
  {
    OkSend(c, n);
  }

  lemma OwedSend(c: Conn, n: nat)
    requires c.Ok() && Can(c, Send(n)) && (Closing(c.phase) || Dropping(c.phase))
    ensures After(c, Send(n)).Ok()
    ensures Owed(c) == Emits(c, Send(n)) + Owed(After(c, Send(n)))
  {
    SentFurther(c, n);
    hide After, Owed, Can, Conn.Ok, Conn.Out, Conn.Sent, Conn.SendsPacket, Header, Sending, Emits, Closing, Dropping;
    var c', out, s := After(c, Send(n)), c.Out(), c.Sent();
    OwedWhileSending(c);
    OwedWhileSending(c');
    TailSplit(out, s, s + n);
    Assoc(out[s..s + n], out[s + n..], if c.SendsPacket() then Header(c.addr, 0) else []);
  }

  /** Each action of a closing connection pays off exactly what it emits. */
  lemma OwedStep(c: Conn, e: Event)
    requires c.Ok() && Can(c, e) && Quiet(e) && (Closing(c.phase) || Dropping(c.phase))
    ensures After(c, e).Ok()
    ensures Closing(c.phase) ==> Closing(After(c, e).phase)
    ensures Dropping(c.phase) ==> Dropping(After(c, e).phase)
    ensures Owed(c) == Emits(c, e) + Owed(After(c, e))
  {
    if e.Send? {
      OwedSend(c, e.n);
    } else {
      OkKept(c, e);
      assert Emits(c, e) == [];
      OwedOther(c, e);
    }
  }

  /** Actions that send nothing leave what is owed as it is. */
  lemma OwedOther(c: Conn, e: Event)
    requires c.Ok() && Can(c, e) && Quiet(e) && !e.Send? && (Closing(c.phase) || Dropping(c.phase))
    requires After(c, e).Ok()
    ensures Owed(c) == Owed(After(c, e))
  {
    if e.Drained? {
      OwedDrained(c);
    }
  }

  lemma OwedDrained(c: Conn)
    requires c.Ok() && Can(c, Drained) && (Closing(c.phase) || Dropping(c.phase))
    requires After(c, Drained).Ok()
    ensures Owed(c) == Owed(After(c, Drained))
  {
    OwedWhileSending(c);
    assert c.Out()[c.Sent()..] == [];
  }

  /** A whole run of one connection's own actions. */
  ghost predicate CanRun(c: Conn, es: seq<Event>)
    decreases |es|
  {
    es == [] || (Can(c, es[0]) && CanRun(After(c, es[0]), es[1..]))
  }

  ghost function RunConn(c: Conn, es: seq<Event>): Conn
    requires CanRun(c, es)
    decreases |es|
  {
    if es == [] then c else RunConn(After(c, es[0]), es[1..])
  }

  ghost function Emitted(c: Conn, es: seq<Event>): seq<Byte>
    requires CanRun(c, es)
    decreases |es|
  {
    if es == [] then [] else Emits(c, es[0]) + Emitted(After(c, es[0]), es[1..])
  }

  ghost predicate AllQuiet(es: seq<Event>) {
    forall k :: 0 <= k < |es| ==> Quiet(es[k])
  }

  lemma {:induction false} OwedRun(c: Conn, es: seq<Event>)
    requires c.Ok() && CanRun(c, es) && AllQuiet(es) && (Closing(c.phase) || Dropping(c.phase))
    ensures RunConn(c, es).Ok()
    ensures Closing(c.phase) ==> Closing(RunConn(c, es).phase)
    ensures Dropping(c.phase) ==> Dropping(RunConn(c, es).phase)
    ensures Owed(c) == Emitted(c, es) + Owed(RunConn(c, es))
    decreases |es|
  {
    if es != [] {
      hide After, Can, Emits, Owed, Conn.Ok, Closing, Dropping;
      var c', rest := After(c, es[0]), es[1..];
      OwedStep(c, es[0]);
      OwedRun(c', rest);
      Assoc(Emits(c, es[0]), Emitted(c', rest), Owed(RunConn(c', rest)));
    }
  }

  /** Clean shutdown: however the lock and the TCP writer behave, a shutdown that reaches
      its end has put the rest of a begun frame, or the whole buffered frame, and then
      exactly one empty header on the wire, and no longer holds the lock. */
  lemma CleanShutdown(c: Conn, es: seq<Event>)
    requires c.AtRest() && (c.phase.Buffering? || c.phase.Flushing?)
    requires es != [] && es[0] == Shutdown && AllQuiet(es) && CanRun(c, es)
    requires RunConn(c, es).phase.Closed?
    ensures Emitted(c, es)
         == (if c.payload == [] then [] else Encode(c.addr, c.payload)[c.Sent()..]) + Header(c.addr, 0)
    ensures !RunConn(c, es).Holds() && RunConn(c, es).Unsent() == []
  {
    var c' := After(c, Shutdown);
    OkKept(c, Shutdown);
    OwedRun(c', es[1..]);
    assert Emitted(c, es) == Emitted(c', es[1..]) == Owed(c');
    if c.phase.Buffering? {
      assert Encode(c.addr, c.payload)[0..] == Encode(c.addr, c.payload);
    }
  }

  /** Dropping a connection that was not shut down: its future completes a begun frame,
      gives up only a frame of which no byte was sent, and sends one empty header. */
  lemma DropKeepsFrames(c: Conn, es: seq<Event>)
    requires c.AtRest() && (c.phase.Buffering? || c.phase.Flushing?)
    requires es != [] && es[0] == Drop && AllQuiet(es[1..]) && CanRun(c, es)
    requires RunConn(c, es).phase.Gone?
    ensures Emitted(c, es) == (if c.Sent() > 0 then c.Out()[c.Sent()..] else []) + Header(c.addr, 0)
    ensures RunConn(c, es).Unsent() == (if c.Sent() > 0 then [] else c.payload)
    ensures !RunConn(c, es).Holds()
  {
    DropFacts(c);
    hide Owed, Emits, Can, Header, Conn.Ok, Conn.Out, Conn.Unsent, After, Dropping;
    var c', rest := After(c, Drop), es[1..];
    OwedRun(c', rest);
    DropKeepsPayload(c', rest);
    GoneOwesNothing(RunConn(c', rest));
    assert Emitted(c', rest) + [] == Emitted(c', rest);
    assert [] + Emitted(c', rest) == Emitted(c', rest);
  }

  /** What a connection that is dropped at rest has to do. */
  lemma DropFacts(c: Conn)
    requires c.AtRest() && (c.phase.Buffering? || c.phase.Flushing?)
    ensures var c' := After(c, Drop);
            && c'.Ok() && Dropping(c'.phase) && Emits(c, Drop) == []
            && c'.payload == c.payload && (c'.phase.DropFlushing? <==> c.Sent() > 0)
            && (c.phase.Buffering? ==> c'.queued == c.queued)
            && Owed(c') == (if c.Sent() > 0 then c.Out()[c.Sent()..] else []) + Header(c.addr, 0)
  {
    OkKept(c, Drop);
    assert [] + Header(c.addr, 0) == Header(c.addr, 0);
  }

  lemma GoneOwesNothing(c: Conn)
    requires c.Ok() && c.phase.Gone?
    ensures Owed(c) == [] && !c.Holds()
  {
  }

  /** A dropped packet is sent to its end or kept, untouched, as given up. */
  lemma {:induction false} DropKeepsPayload(c: Conn, es: seq<Event>)
    requires c.Ok() && CanRun(c, es) && AllQuiet(es) && Dropping(c.phase) && RunConn(c, es).phase.Gone?
    ensures RunConn(c, es).Unsent() == if c.phase.DropFlushing? then [] else c.payload
    decreases |es|
  {
    if es != [] {
      OwedStep(c, es[0]);
      DropKeepsPayload(After(c, es[0]), es[1..]);
    }
  }

  // ---------------------------------------------------------------- opening

  /** Bytes a handshake still has to put on the wire. */
  ghost function OwedOpening(c: Conn): seq<Byte>
    requires c.Ok()
  {
    if c.phase.Opening? then Header(c.addr, 0)
    else if c.phase.Handshaking? then Header(c.addr, 0)[c.phase.sent..]
    else []
  }

  /** In the handshake, or past it with nothing written yet. */
  ghost predicate Early(c: Conn) {
    c.Ok() && c.payload == [] && (c.phase.Opening? || c.phase.Handshaking? || c.phase.Buffering? || c.phase.Flushing?)
  }

  ghost predicate HandshakeAction(e: Event) {
    e.Grant? || e.Send? || e.Drained?
  }

  lemma HandshakeStep(c: Conn, e: Event)
    requires Early(c) && HandshakeAction(e) && Can(c, e)
    ensures Early(After(c, e)) && OwedOpening(c) == Emits(c, e) + OwedOpening(After(c, e))
  {
    OkKept(c, e);
    assert c.phase.Handshaking? ==> c.Out() == Header(c.addr, 0);
    if e.Send? {
      TailSplit(c.Out(), c.Sent(), c.Sent() + e.n);
    }
  }

  lemma {:induction false} HandshakeRun(c: Conn, es: seq<Event>)
    requires Early(c) && CanRun(c, es) && (forall k :: 0 <= k < |es| ==> HandshakeAction(es[k]))
    ensures Early(RunConn(c, es)) && OwedOpening(c) == Emitted(c, es) + OwedOpening(RunConn(c, es))
    decreases |es|
  {
    if es != [] {
      hide After, Can, Emits, OwedOpening, Early;
      var c', rest := After(c, es[0]), es[1..];
      HandshakeStep(c, es[0]);
      HandshakeRun(c', rest);
      Assoc(Emits(c, es[0]), Emitted(c', rest), OwedOpening(RunConn(c', rest)));
    }
  }

  /** A handshake that does not fail and is over has put exactly one empty header on the
      wire, and leaves an idle connection that does not hold the lock. */
  lemma HandshakeSendsOneHeader(id: nat, a: Addr, es: seq<Event>)
    requires CanRun(Dial(id, a), es) && (forall k :: 0 <= k < |es| ==> HandshakeAction(es[k]))
    requires RunConn(Dial(id, a), es).phase.Buffering?
    ensures Emitted(Dial(id, a), es) == Header(a, 0)
    ensures RunConn(Dial(id, a), es).payload == [] && !RunConn(Dial(id, a), es).Holds()
  {
    HandshakeRun(Dial(id, a), es);
    assert Emitted(Dial(id, a), es) + [] == Emitted(Dial(id, a), es);
  }

  /** A handshake that fails, however much of its header was sent, is followed by a whole
      empty header of the dropped connection. */
  lemma FailedHandshakeStillSpeaks(c: Conn, es: seq<Event>)
    requires c.Ok() && c.phase.Handshaking?
    requires es != [] && es[0] == Fail && AllQuiet(es[1..]) && CanRun(c, es)
    requires RunConn(c, es).phase.Abandoned?
    ensures Emitted(c, es) == Header(c.addr, 0)
  {
    OkKept(c, Fail);
    var c', rest := After(c, Fail), es[1..];
    assert c'.phase.AbortWaiting? && c'.addr == c.addr && Emits(c, Fail) == [];
    assert Owed(c') == Header(c.addr, 0);
    OwedRun(c', rest);
    assert Owed(RunConn(c', rest)) == [];
    hide Owed, Emits, After, Can, Header, Conn.Ok;
    assert Emitted(c', rest) + [] == Emitted(c', rest);
    assert [] + Emitted(c', rest) == Emitted(c', rest);
  }

  /** It happens: the writer fails at once and works again afterwards. */
  lemma FailedHandshakeHappens(id: nat, a: Addr)
    ensures var es := [Grant, Fail, Grant, Send(HEADER_SIZE), Drained];
            && CanRun(Dial(id, a), es)
            && RunConn(Dial(id, a), es).phase.Abandoned?
            && Emitted(Dial(id, a), es) == Header(a, 0)
  {
    var es := [Grant, Fail, Grant, Send(HEADER_SIZE), Drained];
    var c := After(Dial(id, a), Grant);
    var rest := es[1..];
    assert rest == [Fail, Grant, Send(HEADER_SIZE), Drained];
    var c1, c2 := After(c, Fail), After(After(c, Fail), Grant);
    var c3 := After(c2, Send(HEADER_SIZE));
    assert rest[1..] == [Grant, Send(HEADER_SIZE), Drained];
    assert rest[1..][1..] == [Send(HEADER_SIZE), Drained];
    assert rest[1..][1..][1..] == [Drained];
    assert [Drained][1..] == [];
    assert CanRun(c3, [Drained]) && RunConn(c3, [Drained]).phase.Abandoned?;
    assert CanRun(c2, rest[1..][1..]) && RunConn(c2, rest[1..][1..]).phase.Abandoned?;
    assert CanRun(c1, rest[1..]) && RunConn(c1, rest[1..]).phase.Abandoned?;
    FailedHandshakeStillSpeaks(c, rest);
    assert Emitted(Dial(id, a), es) == [] + Emitted(c, rest);
  }
}
