/** Any number of connections writing through one lock onto one wire; also several of the same
    address, in turn or at once. */
module Writers {
  import opened Protocol
  import opened Packets
  import opened Framing
  import opened Connections

  /** Writers are numbered in the order they are made. The epoch of a writer is the number of
      empty frames for its address that its payload has to come after: those on the wire when
      it is made, and its own opening if it dialled. */
  datatype Sys = Sys(conns: seq<Conn>, epochs: seq<nat>, port: Port)

  /** One action of one connection, or a new connection. */
  datatype Action = Do(i: nat, e: Event) | Open(a: Addr, dialled: bool)

  predicate CanAct(s: Sys, x: Action) {
    x.Do? ==> x.i < |s.conns| && Can(s.conns[x.i], x.e) && PortAllows(s.port, x.e)
  }

  function NewConn(id: nat, a: Addr, dialled: bool): Conn {
    if dialled then Dial(id, a) else Respond(id, a)
  }

  function Act(s: Sys, x: Action): Sys
    requires CanAct(s, x)
  {
    match x
    case Do(i, e) => s.(conns := s.conns[i := After(s.conns[i], e)], port := PortAfter(s.conns[i], s.port, e))
    case Open(a, dialled) =>
      Sys(s.conns + [NewConn(|s.conns|, a, dialled)],
          s.epochs + [Empties(START, s.port.wire, a) + if dialled then 1 else 0],
          s.port)
  }

  predicate Tearing(s: Sys, x: Action)
    requires CanAct(s, x)
  {
    x.Do? && Tears(s.conns[x.i], x.e)
  }

  // ---------------------------------------------------------------- lock discipline

  /** The lock has at most one holder, which is the connection whose phase says so, and a
      holder has no request of its own waiting. */
  ghost predicate WellOwned(s: Sys) {
    && |s.epochs| == |s.conns|
    && (forall i :: 0 <= i < |s.conns| ==>
          s.conns[i].id == i && s.conns[i].Ok() && (s.conns[i].Holds() <==> s.port.owner == Some(i)))
    && (s.port.owner.Some? ==> s.port.owner.value < |s.conns|)
  }

  lemma OwnedKept(s: Sys, x: Action)
    requires WellOwned(s) && CanAct(s, x)
    ensures WellOwned(Act(s, x))
  {
    if x.Do? {
      OkKept(s.conns[x.i], x.e);
      hide Conn.Ok, Can, After, Emits;
    }
  }

  // ---------------------------------------------------------------- frame atomicity

  /** What a holder has put on the wire of a frame that is not complete. */
  ghost function Begun(c: Conn): seq<Byte>
    requires c.Ok()
  {
    if c.Holds() && c.phase.sent < |c.Out()| then c.Out()[..c.phase.sent] else []
  }

  ghost function InProgress(s: Sys): seq<Byte>
    requires WellOwned(s)
  {
    if s.port.owner.Some? then Begun(s.conns[s.port.owner.value]) else []
  }

  /** The wire is whole frames, followed by exactly the bytes the lock holder has sent of
      its current frame; by nothing when the lock is free. */
  ghost predicate Aligned(s: Sys) {
    WellOwned(s) && Unframe(s.port.wire).rest == InProgress(s)
  }

  /** Short of sending, only tearing a frame changes what is in progress. */
  lemma BegunKept(c: Conn, e: Event)
    requires c.Ok() && Can(c, e) && !e.Send?
    ensures After(c, e).Ok()
    ensures Begun(After(c, e)) == Begun(c) <==> !Tears(c, e)
    ensures Tears(c, e) ==> !After(c, e).Holds()
  {
    OkKept(c, e);
    if e.Push? {
      BegunPush(c, e.data);
    } else {
      BegunOther(c, e);
    }
  }

  /** A late append leaves what was sent as it is. */
  lemma BegunPush(c: Conn, data: seq<Byte>)
    requires c.Ok() && Can(c, Push(data)) && After(c, Push(data)).Ok()
    ensures Begun(After(c, Push(data))) == Begun(c)
  {
    if c.phase.Flushing? {
      LateAppend(c.addr, c.payload, data, c.phase.sent);
      assert data == [] ==> c.payload + data == c.payload;
    }
  }

  lemma BegunOther(c: Conn, e: Event)
    requires c.Ok() && Can(c, e) && !e.Send? && !e.Push? && After(c, e).Ok()
    ensures Begun(After(c, e)) == Begun(c) <==> !Tears(c, e)
    ensures Tears(c, e) ==> !After(c, e).Holds()
  {
  }

  /** Sending moves only the count of sent bytes. */
  lemma SendAdvances(c: Conn, n: nat)
    requires c.Ok() && Can(c, Send(n))
    ensures var c' := After(c, Send(n));
            && c'.Ok() && c'.Out() == c.Out() && c'.Holds() && c'.phase.sent == c.Sent() + n
            && c'.payload == c.payload && (c'.SendsPacket() <==> c.SendsPacket()) && c'.pushed == c.pushed
    ensures WholeFrame(c.Out()) && c.Holds() && c.Sent() + n <= |c.Out()| && c.phase.sent == c.Sent() < |c.Out()|
    ensures Emits(c, Send(n)) == c.Out()[c.Sent()..c.Sent() + n]
  {
    OkKept(c, Send(n));
    EncodeIsFrame(c.addr, c.Current());
  }

  lemma BegunSent(c: Conn, n: nat, fs: seq<Frame>)
    requires c.Ok() && Can(c, Send(n))
    ensures After(c, Send(n)).Ok()
    ensures CutFrom(Cut(fs, Begun(c)), Emits(c, Send(n))).rest == Begun(After(c, Send(n)))
  {
    SendAdvances(c, n);
    hide After, Can, Encode, Emits, WholeFrame, Conn.Ok, CutFrom;
    CutAdvance(fs, c.Out(), c.Sent(), c.Sent() + n);
  }

  /** Frame atomicity, exactly: from an aligned state every action keeps the wire aligned,
      except that abandoning a partly sent frame always breaks it. */
  lemma AlignedExactly(s: Sys, x: Action)
    requires Aligned(s) && CanAct(s, x)
    ensures WellOwned(Act(s, x))
    ensures Aligned(Act(s, x)) <==> !Tearing(s, x)
  {
    OwnedKept(s, x);
    if x.Do? {
      var c := s.conns[x.i];
      var s' := Act(s, x);
      if x.e.Send? {
        BegunSent(c, x.e.n, Unframe(s.port.wire).frames);
        CutFromConcat(Cut([], []), s.port.wire, Emits(c, x.e));
        assert Unframe(s.port.wire) == Cut(Unframe(s.port.wire).frames, Begun(c));
      } else {
        BegunKept(c, x.e);
        assert s'.port.wire == s.port.wire;
      }
    }
  }

  // ---------------------------------------------------------------- what a connection sends

  /** Has the opening header, if there is one, been sent completely? */
  predicate Opened(c: Conn) {
    && !c.phase.Opening? && !c.phase.AbortWaiting? && !c.phase.Unheard?
    && (c.phase.Handshaking? || c.phase.AbortWriting? ==> c.phase.sent == HEADER_SIZE)
  }

  /** Has the closing header been sent completely? */
  predicate CloseSent(c: Conn) {
    || c.phase.Closed? || c.phase.Gone?
    || ((c.phase.CloseWriting? || c.phase.DropWriting?) && c.phase.sent == HEADER_SIZE)
  }

  /** A connection of epoch `e`, when there are `z` empty frames for its address: its opening
      is the last of the first `e` of them, its close the next. */
  ghost predicate Ledger(c: Conn, e: nat, z: nat) {
    && (!Opened(c) ==> c.dialled && z + 1 == e)
    && (Opened(c) && !CloseSent(c) ==> z == e)
    && (CloseSent(c) ==> z > e)
    && (c.dialled ==> e > 0)
  }

  /** Everything the connection accepted is on the wire or still in its packet. */
  ghost predicate Conserved(c: Conn, d: seq<Byte>) {
    d + c.Unsent() == c.pushed
  }

  lemma SpeechKept(c: Conn, e: Event)
    requires c.Ok() && Can(c, e) && !Tears(c, e) && !e.Send?
    ensures Opened(After(c, e)) == Opened(c) && CloseSent(After(c, e)) == CloseSent(c)
  {
  }

  lemma LedgerSent(c: Conn, n: nat, e: nat, z: nat)
    requires c.Ok() && Can(c, Send(n)) && Ledger(c, e, z)
    ensures Ledger(After(c, Send(n)), e, z + if CompletesHeader(c, n) && c.Current() == [] then 1 else 0)
  {
  }

  predicate CompletesHeader(c: Conn, n: nat) {
    c.Sent() < HEADER_SIZE <= c.Sent() + n
  }

  lemma ConservedKept(c: Conn, e: Event, d: seq<Byte>)
    requires c.Ok() && Can(c, e) && !Tears(c, e) && !e.Send?
    requires Conserved(c, d)
    ensures Conserved(After(c, e), d)
  {
    if e.Push? {
      PushUnsent(c, e.data);
    } else {
      assert After(c, e).pushed == c.pushed && After(c, e).Unsent() == c.Unsent();
    }
  }

  lemma PushUnsent(c: Conn, data: seq<Byte>)
    requires c.Ok() && Can(c, Push(data))
    ensures After(c, Push(data)).Unsent() == c.Unsent() + data
  {
    if data == [] {
      assert c.payload + data == c.payload;
    }
  }

  /** The payload of a frame from its first `lo` bytes on: what lies before `hi`, and after. */
  lemma PayloadParts(a: Addr, payload: seq<Byte>, lo: nat, hi: nat)
    requires |payload| <= PACKET_SIZE && lo <= hi <= HEADER_SIZE + |payload|
    ensures payload[AfterHeader(lo) - HEADER_SIZE..]
         == PayloadSlice(Encode(a, payload), lo, hi) + payload[AfterHeader(hi) - HEADER_SIZE..]
  {
    var x, y := AfterHeader(lo), AfterHeader(hi);
    var out := Encode(a, payload);
    assert out[x..y] == payload[x - HEADER_SIZE..y - HEADER_SIZE];
    TailSplit(payload, x - HEADER_SIZE, y - HEADER_SIZE);
  }

  lemma UnsentAt(c: Conn)
    requires c.Ok() && c.SendsPacket()
    ensures c.Unsent() == c.payload[AfterHeader(c.phase.sent) - HEADER_SIZE..]
  {
  }

  lemma NoPayload(a: Addr, lo: nat, hi: nat)
    requires lo <= hi <= HEADER_SIZE
    ensures PayloadSlice(Encode(a, []), lo, hi) == []
  {
  }

  /** What was unsent is what is sent now, followed by what is still unsent. */
  lemma UnsentSplit(c: Conn, n: nat)
    requires c.Ok() && Can(c, Send(n))
    ensures HEADER_SIZE <= |c.Out()| && c.Sent() + n <= |c.Out()|
    ensures c.Unsent() == PayloadSlice(c.Out(), c.Sent(), c.Sent() + n) + After(c, Send(n)).Unsent()
  {
    SendAdvances(c, n);
    if c.SendsPacket() {
      UnsentSplitPacket(c, After(c, Send(n)), n);
    } else {
      hide PayloadSlice;
      NoPayload(c.addr, c.Sent(), c.Sent() + n);
      assert c.Unsent() == c.payload && After(c, Send(n)).Unsent() == c.payload;
    }
  }

  lemma UnsentSplitPacket(c: Conn, c': Conn, n: nat)
    requires c.Ok() && c'.Ok() && c.SendsPacket() && c'.SendsPacket() && c'.payload == c.payload
    requires c.phase.sent + n <= HEADER_SIZE + |c.payload| && c'.phase.sent == c.phase.sent + n
    ensures c.Unsent() == PayloadSlice(Encode(c.addr, c.payload), c.phase.sent, c.phase.sent + n) + c'.Unsent()
  {
    assert |c.payload| <= PACKET_SIZE;
    hide Encode, PayloadSlice, Conn.Ok, Conn.Unsent, Conn.Out, Conn.Current, Conn.Opening, AfterHeader;
    UnsentAt(c);
    UnsentAt(c');
    PayloadParts(c.addr, c.payload, c.phase.sent, c.phase.sent + n);
  }

  lemma ConservedSent(c: Conn, n: nat, d: seq<Byte>)
    requires c.Ok() && Can(c, Send(n)) && Conserved(c, d)
    ensures Conserved(After(c, Send(n)), d + PayloadSlice(c.Out(), c.Sent(), c.Sent() + n))
  {
    UnsentSplit(c, n);
    hide PayloadSlice, Conn.Unsent, Conn.Out, After, Can, Conn.Ok;
    var part, rest := PayloadSlice(c.Out(), c.Sent(), c.Sent() + n), After(c, Send(n)).Unsent();
    Assoc(d, part, rest);
  }

  ghost predicate Accounts(c: Conn, e: nat, wire: seq<Byte>) {
    Ledger(c, e, Empties(START, wire, c.addr)) && Conserved(c, Session(START, wire, c.addr, e))
  }

  /** No writer of this address can still speak. */
  predicate Free(s: Sys, a: Addr) {
    forall i :: 0 <= i < |s.conns| && s.conns[i].addr == a ==> CloseSent(s.conns[i])
  }

  /** The empty frame a connection begins with: its opening if it dialled, else its close. */
  function First(c: Conn, e: nat): int {
    if c.dialled then e - 1 else e
  }

  /** Connections of one address do not share empty frames. */
  ghost predicate Apart(s: Sys)
    requires |s.epochs| == |s.conns|
  {
    forall i, j :: 0 <= i < j < |s.conns| && s.conns[i].addr == s.conns[j].addr ==>
      s.epochs[i] < First(s.conns[j], s.epochs[j])
  }

  /** A header for `a` announcing `n` after `z` empty ones is due to this connection. */
  predicate Covers(c: Conn, e: nat, a: Addr, z: nat, n: Length) {
    c.addr == a && (e == z || (n == 0 && c.dialled && e == z + 1))
  }

  ghost predicate Due(s: Sys, a: Addr, z: nat, n: Length) {
    exists i :: 0 <= i < |s.conns| && i < |s.epochs| && Covers(s.conns[i], s.epochs[i], a, z, n)
  }

  /** Every header for `a` is the opening, the close or the data of one of its connections. */
  ghost predicate Explained(s: Sys, a: Addr) {
    AllDue(s, a, Heads(START, s.port.wire, a))
  }

  ghost predicate AllDue(s: Sys, a: Addr, h: seq<Length>) {
    forall k :: 0 <= k < |h| ==> Due(s, a, Zeros(h[..k]), h[k])
  }

  /** And so is every payload byte. */
  ghost predicate Sourced(s: Sys, a: Addr) {
    forall z: nat :: Session(START, s.port.wire, a, z) != [] ==> Due(s, a, z, 1)
  }

  ghost predicate Inv(s: Sys) {
    && Aligned(s) && Apart(s)
    && (forall i :: 0 <= i < |s.conns| ==> Accounts(s.conns[i], s.epochs[i], s.port.wire))
    && (forall a: Addr :: Explained(s, a) && Sourced(s, a))
  }

  /** A reader that has read the whole wire is where the holder has got to in its frame. */
  lemma ParserAtSend(c: Conn, wire: seq<Byte>)
    requires c.Ok() && c.Holds() && c.Sent() < |c.Out()| && Unframe(wire).rest == Begun(c)
    ensures WholeFrame(c.Out()) && Parse(START, wire) == StateAt(c.Out(), c.Sent())
  {
    EncodeIsFrame(c.addr, c.Current());
    FramePrefix(c.Out(), c.Sent());
    ParserMatchesCut(wire);
  }

  /** How a wire looks to a reader after `n` more bytes of the frame it ends in. */
  lemma WireGrows(wire: seq<Byte>, out: seq<Byte>, s: nat, n: nat, who: Addr)
    requires WholeFrame(out) && s + n <= |out| && Parse(START, wire) == StateAt(out, s)
    ensures Heads(START, wire + out[s..s + n], who) == Heads(START, wire, who) +
              (if who == HeaderAddr(out) && s < HEADER_SIZE <= s + n then [HeaderLen(out)] else [])
  {
    hide Parse, Heads, StateAt, WholeFrame, HeaderAddr, HeaderLen;
    var bytes := out[s..s + n];
    ParseAdvance(bytes, out, s, who);
    HeadsConcat(START, wire, bytes, who);
  }

  lemma WireSession(wire: seq<Byte>, out: seq<Byte>, s: nat, n: nat, who: Addr, e: int)
    requires WholeFrame(out) && s + n <= |out| && Parse(START, wire) == StateAt(out, s)
    ensures Session(START, wire + out[s..s + n], who, e) == Session(START, wire, who, e) +
              (if who == HeaderAddr(out) && e == Empties(START, wire, who) then PayloadSlice(out, s, s + n) else [])
  {
    hide Parse, Session, Empties, StateAt, WholeFrame, HeaderAddr, HeaderLen, PayloadSlice;
    var bytes := out[s..s + n];
    SessionAdvance(bytes, out, s, who, e - Empties(START, wire, who));
    SessionConcat(START, wire, bytes, who, e);
  }

  /** What a connection adds to the headers, when it sends `n` bytes. */
  function HeadSent(c: Conn, n: nat, who: Addr): seq<Length>
    requires |c.payload| <= PACKET_SIZE
  {
    if who == c.addr && CompletesHeader(c, n) then [|c.Current()|] else []
  }

  lemma HeadsAfterSend(c: Conn, n: nat, wire: seq<Byte>, who: Addr)
    requires c.Ok() && Can(c, Send(n)) && Unframe(wire).rest == Begun(c)
    ensures Heads(START, wire + Emits(c, Send(n)), who) == Heads(START, wire, who) + HeadSent(c, n, who)
    ensures Empties(START, wire + Emits(c, Send(n)), who)
         == Empties(START, wire, who) + if HeadSent(c, n, who) == [0] then 1 else 0
  {
    SendAdvances(c, n);
    ParserAtSend(c, wire);
    EncodeIsFrame(c.addr, c.Current());
    hide Parse, Heads, StateAt, WholeFrame, HeaderAddr, HeaderLen, Encode, After, Emits, Begun, Unframe;
    WireGrows(wire, c.Out(), c.Sent(), n, who);
    ZerosConcat(Heads(START, wire, who), HeadSent(c, n, who));
    ZerosOfOne(|c.Current()|);
  }

  lemma SessionAfterSend(c: Conn, n: nat, wire: seq<Byte>, who: Addr, e: int)
    requires c.Ok() && Can(c, Send(n)) && Unframe(wire).rest == Begun(c)
    ensures HEADER_SIZE <= |c.Out()| && c.Sent() + n <= |c.Out()|
    ensures Session(START, wire + Emits(c, Send(n)), who, e) == Session(START, wire, who, e) +
              (if who == c.addr && e == Empties(START, wire, who) then PayloadSlice(c.Out(), c.Sent(), c.Sent() + n) else [])
  {
    SendAdvances(c, n);
    ParserAtSend(c, wire);
    EncodeIsFrame(c.addr, c.Current());
    hide Parse, Session, Empties, StateAt, WholeFrame, HeaderAddr, PayloadSlice, Encode, After, Emits, Begun, Unframe;
    WireSession(wire, c.Out(), c.Sent(), n, who, e);
  }

  /** Who sends payload has opened and not closed. */
  lemma SpeaksInItsEpoch(c: Conn, n: nat, e: nat, z: nat)
    requires c.Ok() && Can(c, Send(n)) && Ledger(c, e, z)
    ensures !CloseSent(c)
    ensures c.SendsPacket() ==> e == z
    ensures CompletesHeader(c, n) ==> Covers(c, e, c.addr, z, |c.Current()|)
  {
  }

  lemma AccountsSent(c: Conn, n: nat, e: nat, wire: seq<Byte>)
    requires c.Ok() && Can(c, Send(n)) && Unframe(wire).rest == Begun(c) && Accounts(c, e, wire)
    ensures Accounts(After(c, Send(n)), e, wire + Emits(c, Send(n)))
  {
    var z := Empties(START, wire, c.addr);
    SpeaksInItsEpoch(c, n, e, z);
    HeadsAfterSend(c, n, wire, c.addr);
    SessionAfterSend(c, n, wire, c.addr, e);
    LedgerSent(c, n, e, z);
    ConservedSent(c, n, Session(START, wire, c.addr, e));
    SendAdvances(c, n);
    hide Empties, Session, Emits, Conserved, Ledger, Unframe, Begun;
    if !c.SendsPacket() {
      NoPayload(c.addr, c.Sent(), c.Sent() + n);
    }
    assert Session(START, wire, c.addr, e) + [] == Session(START, wire, c.addr, e);
  }

  /** A connection that has closed is not concerned by what others send. */
  lemma OthersUnmoved(c: Conn, n: nat, wire: seq<Byte>, d: Conn, e: nat)
    requires c.Ok() && Can(c, Send(n)) && Unframe(wire).rest == Begun(c)
    requires Accounts(d, e, wire) && (d.addr == c.addr ==> CloseSent(d))
    ensures Accounts(d, e, wire + Emits(c, Send(n)))
  {
    HeadsAfterSend(c, n, wire, d.addr);
    SessionAfterSend(c, n, wire, d.addr, e);
    hide Empties, Session, Emits, Unframe, Begun;
    assert Session(START, wire, d.addr, e) + [] == Session(START, wire, d.addr, e);
  }

  /** Of several connections of one address at most one can still speak. */
  lemma OneSpeaker(s: Sys, i: nat, j: nat)
    requires |s.epochs| == |s.conns| && Apart(s) && i < |s.conns| && j < |s.conns| && i != j
    requires s.conns[i].addr == s.conns[j].addr
    requires Accounts(s.conns[i], s.epochs[i], s.port.wire) && Accounts(s.conns[j], s.epochs[j], s.port.wire)
    ensures CloseSent(s.conns[i]) || CloseSent(s.conns[j])
  {
  }

  predicate OrderlyAction(s: Sys, x: Action)
    requires CanAct(s, x)
  {
    if x.Do? then !Tears(s.conns[x.i], x.e) else Free(s, x.a)
  }

  /** The same connections, and perhaps more. */
  ghost predicate Extends(s: Sys, s': Sys) {
    && |s.epochs| == |s.conns| <= |s'.conns| && s.epochs <= s'.epochs
    && (forall i :: 0 <= i < |s.conns| ==>
          s'.conns[i].addr == s.conns[i].addr && s'.conns[i].dialled == s.conns[i].dialled)
  }

  lemma ActExtends(s: Sys, x: Action)
    requires |s.epochs| == |s.conns| && CanAct(s, x)
    ensures Extends(s, Act(s, x))
  {
  }

  /** What is due stays due when connections go on and more are made. */
  lemma StillDue(s: Sys, s': Sys, a: Addr, z: nat, n: Length)
    requires Extends(s, s') && Due(s, a, z, n)
    ensures Due(s', a, z, n)
  {
    var i :| 0 <= i < |s.conns| && i < |s.epochs| && Covers(s.conns[i], s.epochs[i], a, z, n);
    assert Covers(s'.conns[i], s'.epochs[i], a, z, n);
  }

  lemma StillAllDue(s: Sys, s': Sys, a: Addr, h: seq<Length>)
    requires Extends(s, s') && AllDue(s, a, h)
    ensures AllDue(s', a, h)
  {
    hide Due, Extends;
    forall k | 0 <= k < |h|
      ensures Due(s', a, Zeros(h[..k]), h[k])
    {
      StillDue(s, s', a, Zeros(h[..k]), h[k]);
    }
  }

  lemma OneMoreDue(s: Sys, a: Addr, h: seq<Length>, n: Length)
    requires AllDue(s, a, h) && Due(s, a, Zeros(h), n)
    ensures AllDue(s, a, h + [n])
  {
    hide Due;
    forall k | 0 <= k < |h + [n]|
      ensures Due(s, a, Zeros((h + [n])[..k]), (h + [n])[k])
    {
      assert (h + [n])[..k] == h[..k];
      assert k == |h| ==> h[..k] == h;
    }
  }

  lemma StillExplained(s: Sys, s': Sys, a: Addr)
    requires Extends(s, s') && s'.port.wire == s.port.wire && Explained(s, a) && Sourced(s, a)
    ensures Explained(s', a) && Sourced(s', a)
  {
    StillAllDue(s, s', a, Heads(START, s.port.wire, a));
    hide Extends, Due;
    forall z: nat | Session(START, s.port.wire, a, z) != []
      ensures Due(s', a, z, 1)
    {
      StillDue(s, s', a, z, 1);
    }
  }

  /** A new connection begins behind all that its address has been used for. */
  lemma OpenKept(s: Sys, a: Addr, dialled: bool)
    requires Inv(s) && Free(s, a)
    ensures Inv(Act(s, Open(a, dialled)))
  {
    var s', n, z := Act(s, Open(a, dialled)), |s.conns|, Empties(START, s.port.wire, a);
    AlignedExactly(s, Open(a, dialled));
    forall i | 0 <= i < n && s.conns[i].addr == a
      ensures s.epochs[i] < z
    {
      assert Accounts(s.conns[i], s.epochs[i], s.port.wire);
    }
    NothingYet(s, a, s'.epochs[n]);
    ActExtends(s, Open(a, dialled));
    assert Accounts(s'.conns[n], s'.epochs[n], s.port.wire);
    hide Accounts, Explained, Sourced, Aligned, Empties;
    forall b: Addr
      ensures Explained(s', b) && Sourced(s', b)
    {
      StillExplained(s, s', b);
    }
  }

  /** Behind the epochs of all its connections nothing is on the wire for an address. */
  lemma NothingYet(s: Sys, a: Addr, e: nat)
    requires Sourced(s, a) && forall i :: 0 <= i < |s.conns| && i < |s.epochs| && s.conns[i].addr == a ==> s.epochs[i] < e
    ensures Session(START, s.port.wire, a, e) == []
  {
    assert !Due(s, a, e, 1);
  }

  /** A step in which the connection `i` sends, seen from outside. */
  lemma SendFacts(s: Sys, i: nat, n: nat)
    requires WellOwned(s) && CanAct(s, Do(i, Send(n)))
    ensures var c, s' := s.conns[i], Act(s, Do(i, Send(n)));
            && c.Ok() && Can(c, Send(n)) && Extends(s, s')
            && |s'.conns| == |s.conns| == |s.epochs| && s'.epochs == s.epochs
            && s'.port.wire == s.port.wire + Emits(c, Send(n))
            && s'.conns[i] == After(c, Send(n)) && s'.conns[i].addr == c.addr && s'.conns[i].dialled == c.dialled
            && (forall j :: 0 <= j < |s.conns| && j != i ==> s'.conns[j] == s.conns[j])
  {
    OkKept(s.conns[i], Send(n));
  }

  lemma ExplainedSent(s: Sys, s': Sys, c: Conn, i: nat, n: nat, a: Addr)
    requires Extends(s, s') && i < |s.conns| && c == s.conns[i] && c.Ok() && Can(c, Send(n))
    requires Accounts(c, s.epochs[i], s.port.wire) && Unframe(s.port.wire).rest == Begun(c)
    requires s'.port.wire == s.port.wire + Emits(c, Send(n)) && Explained(s, a)
    ensures Explained(s', a)
  {
    hide Heads, Emits, Unframe, Begun, AllDue, Can, Conn.Ok, Conserved, Session;
    var h := Heads(START, s.port.wire, a);
    HeadsAfterSend(c, n, s.port.wire, a);
    SpeaksInItsEpoch(c, n, s.epochs[i], Empties(START, s.port.wire, c.addr));
    hide Ledger;
    StillAllDue(s, s', a, h);
    if a == c.addr && CompletesHeader(c, n) {
      assert Covers(s'.conns[i], s'.epochs[i], a, Zeros(h), |c.Current()|);
      OneMoreDue(s', a, h, |c.Current()|);
    } else {
      assert h + [] == h;
    }
  }

  lemma SourcedSent(s: Sys, s': Sys, c: Conn, i: nat, n: nat, a: Addr)
    requires Extends(s, s') && i < |s.conns| && c == s.conns[i] && c.Ok() && Can(c, Send(n))
    requires Accounts(c, s.epochs[i], s.port.wire) && Unframe(s.port.wire).rest == Begun(c)
    requires s'.port.wire == s.port.wire + Emits(c, Send(n)) && Sourced(s, a)
    ensures Sourced(s', a)
  {
    SpeaksInItsEpoch(c, n, s.epochs[i], Empties(START, s.port.wire, c.addr));
    SendAdvances(c, n);
    if !c.SendsPacket() {
      NoPayload(c.addr, c.Sent(), c.Sent() + n);
    }
    hide Session, Emits, Unframe, Begun, PayloadSlice, Can, Conn.Ok, Ledger, Conserved, After;
    forall z: nat | Session(START, s'.port.wire, a, z) != []
      ensures Due(s', a, z, 1)
    {
      SessionAfterSend(c, n, s.port.wire, a, z);
      if Session(START, s.port.wire, a, z) != [] {
        StillDue(s, s', a, z, 1);
      } else {
        assert Covers(s'.conns[i], s'.epochs[i], a, z, 1);
      }
    }
  }

  /** Sending concerns the sender; all others of its address have closed. */
  lemma SendAccounts(s: Sys, i: nat, n: nat, j: nat)
    requires WellOwned(s) && Apart(s) && CanAct(s, Do(i, Send(n))) && Unframe(s.port.wire).rest == Begun(s.conns[i])
    requires forall k :: 0 <= k < |s.conns| ==> Accounts(s.conns[k], s.epochs[k], s.port.wire)
    requires j < |s.conns|
    ensures var s' := Act(s, Do(i, Send(n))); Accounts(s'.conns[j], s'.epochs[j], s'.port.wire)
  {
    var c := s.conns[i];
    assert Accounts(c, s.epochs[i], s.port.wire) && Accounts(s.conns[j], s.epochs[j], s.port.wire);
    SpeaksInItsEpoch(c, n, s.epochs[i], Empties(START, s.port.wire, c.addr));
    hide Accounts, Emits, Begun, Unframe, CloseSent, Can, After;
    if j == i {
      AccountsSent(c, n, s.epochs[i], s.port.wire);
    } else {
      if s.conns[j].addr == c.addr {
        OneSpeaker(s, i, j);
      }
      OthersUnmoved(c, n, s.port.wire, s.conns[j], s.epochs[j]);
    }
  }

  lemma SendKept(s: Sys, i: nat, n: nat)
    requires Inv(s) && CanAct(s, Do(i, Send(n)))
    ensures Inv(Act(s, Do(i, Send(n))))
  {
    hide Accounts, Explained, Sourced, Begun, Unframe, Can, Aligned, Act, Emits, After, Conn.Ok, WellOwned, Apart, Extends;
    AlignedSender(s, i, n);
    SendFacts(s, i, n);
    AlignedExactly(s, Do(i, Send(n)));
    var s' := Act(s, Do(i, Send(n)));
    ApartKept(s, s');
    forall j | 0 <= j < |s.conns|
      ensures Accounts(s'.conns[j], s'.epochs[j], s'.port.wire)
    {
      SendAccounts(s, i, n, j);
    }
    assert Accounts(s.conns[i], s.epochs[i], s.port.wire);
    forall b: Addr
      ensures Explained(s', b) && Sourced(s', b)
    {
      ExplainedSent(s, s', s.conns[i], i, n, b);
      SourcedSent(s, s', s.conns[i], i, n, b);
    }
  }

  lemma ApartKept(s: Sys, s': Sys)
    requires Extends(s, s') && |s'.conns| == |s.conns| == |s'.epochs| && Apart(s)
    ensures Apart(s')
  {
  }

  lemma AlignedSender(s: Sys, i: nat, n: nat)
    requires Aligned(s) && CanAct(s, Do(i, Send(n)))
    ensures WellOwned(s) && Unframe(s.port.wire).rest == Begun(s.conns[i])
  {
  }

  lemma OtherKept(s: Sys, i: nat, e: Event)
    requires Inv(s) && CanAct(s, Do(i, e)) && !Tears(s.conns[i], e) && !e.Send?
    ensures Inv(Act(s, Do(i, e)))
  {
    var c, s' := s.conns[i], Act(s, Do(i, e));
    AlignedExactly(s, Do(i, e));
    assert s'.port.wire == s.port.wire;
    ActExtends(s, Do(i, e));
    assert Accounts(c, s.epochs[i], s.port.wire);
    OkKept(c, e);
    SpeechKept(c, e);
    ConservedKept(c, e, Session(START, s.port.wire, c.addr, s.epochs[i]));
    assert Accounts(After(c, e), s.epochs[i], s.port.wire);
    hide Accounts, Explained, Sourced, Aligned, Opened, CloseSent, Tears;
    forall b: Addr
      ensures Explained(s', b) && Sourced(s', b)
    {
      StillExplained(s, s', b);
    }
  }

  /** Every orderly action of every connection keeps the invariant, and so does opening an
      address whose earlier writers have closed. */
  lemma InvKept(s: Sys, x: Action)
    requires Inv(s) && CanAct(s, x) && OrderlyAction(s, x)
    ensures Inv(Act(s, x))
  {
    hide Inv, Tears, Free;
    match x
    case Open(a, dialled) => OpenKept(s, a, dialled);
    case Do(i, e) =>
      if e.Send? {
        SendKept(s, i, e.n);
      } else {
        OtherKept(s, i, e);
      }
  }

  // ---------------------------------------------------------------- whole runs

  const EMPTY := Sys([], [], Port(None, []))

  /** Any actions of any connections, one after the other, whatever the lock and the TCP
      writer do. */
  ghost predicate CanRunSys(s: Sys, xs: seq<Action>)
    decreases |xs|
  {
    xs == [] || (CanAct(s, xs[0]) && CanRunSys(Act(s, xs[0]), xs[1..]))
  }

  ghost function RunSys(s: Sys, xs: seq<Action>): Sys
    requires CanRunSys(s, xs)
    decreases |xs|
  {
    if xs == [] then s else RunSys(Act(s, xs[0]), xs[1..])
  }

  /** No frame is torn in the run. */
  ghost predicate Untorn(s: Sys, xs: seq<Action>)
    requires CanRunSys(s, xs)
    decreases |xs|
  {
    xs == [] || (!Tearing(s, xs[0]) && Untorn(Act(s, xs[0]), xs[1..]))
  }

  ghost predicate AllOrderly(s: Sys, xs: seq<Action>)
    requires CanRunSys(s, xs)
    decreases |xs|
  {
    xs == [] || (OrderlyAction(s, xs[0]) && AllOrderly(Act(s, xs[0]), xs[1..]))
  }

  lemma {:induction false} OwnedRun(s: Sys, xs: seq<Action>)
    requires WellOwned(s) && CanRunSys(s, xs)
    ensures WellOwned(RunSys(s, xs))
    decreases |xs|
  {
    if xs != [] {
      OwnedKept(s, xs[0]);
      hide WellOwned;
      OwnedRun(Act(s, xs[0]), xs[1..]);
    }
  }

  lemma {:induction false} AlignedRun(s: Sys, xs: seq<Action>)
    requires Aligned(s) && CanRunSys(s, xs) && Untorn(s, xs)
    ensures Aligned(RunSys(s, xs))
    decreases |xs|
  {
    if xs != [] {
      AlignedExactly(s, xs[0]);
      hide Aligned;
      AlignedRun(Act(s, xs[0]), xs[1..]);
    }
  }

  lemma {:induction false} InvRun(s: Sys, xs: seq<Action>)
    requires Inv(s) && CanRunSys(s, xs) && AllOrderly(s, xs)
    ensures Inv(RunSys(s, xs))
    decreases |xs|
  {
    if xs != [] {
      InvKept(s, xs[0]);
      hide Inv;
      InvRun(Act(s, xs[0]), xs[1..]);
    }
  }

  /** A run of actions of the connection `i` alone. */
  ghost predicate EventRun(s: Sys, i: nat, es: seq<Event>)
    decreases |es|
  {
    es == [] || (CanAct(s, Do(i, es[0])) && EventRun(Act(s, Do(i, es[0])), i, es[1..]))
  }

  ghost function AfterEvents(s: Sys, i: nat, es: seq<Event>): Sys
    requires EventRun(s, i, es)
    decreases |es|
  {
    if es == [] then s else AfterEvents(Act(s, Do(i, es[0])), i, es[1..])
  }

  /** Some run of `i`'s own actions leads from one state to the other; a quiet one, without
      failing and dropping, if so asked. */
  ghost predicate Reaches(s: Sys, i: nat, s': Sys, quiet: bool) {
    exists es :: EventRun(s, i, es) && AfterEvents(s, i, es) == s' && (quiet ==> AllQuiet(es))
  }

  lemma {:induction false} EventsConcat(s: Sys, i: nat, xs: seq<Event>, ys: seq<Event>)
    requires EventRun(s, i, xs) && EventRun(AfterEvents(s, i, xs), i, ys)
    ensures EventRun(s, i, xs + ys) && AfterEvents(s, i, xs + ys) == AfterEvents(AfterEvents(s, i, xs), i, ys)
    decreases |xs|
  {
    if xs == [] {
      assert xs + ys == ys;
    } else {
      hide Act, CanAct;
      ConcatTail(xs, ys);
      EventsConcat(Act(s, Do(i, xs[0])), i, xs[1..], ys);
    }
  }

  lemma ReachesTrans(s: Sys, i: nat, t: Sys, u: Sys, quiet: bool)
    requires Reaches(s, i, t, quiet) && Reaches(t, i, u, quiet)
    ensures Reaches(s, i, u, quiet)
  {
    var xs :| EventRun(s, i, xs) && AfterEvents(s, i, xs) == t && (quiet ==> AllQuiet(xs));
    var ys :| EventRun(t, i, ys) && AfterEvents(t, i, ys) == u && (quiet ==> AllQuiet(ys));
    EventsConcat(s, i, xs, ys);
    assert quiet ==> AllQuiet(xs + ys);
  }

  lemma ReachesRefl(s: Sys, i: nat, quiet: bool)
    ensures Reaches(s, i, s, quiet)
  {
    assert EventRun(s, i, []) && AfterEvents(s, i, []) == s && AllQuiet([]);
  }

  lemma ReachesStep(s: Sys, i: nat, e: Event, quiet: bool)
    requires CanAct(s, Do(i, e)) && (quiet ==> Quiet(e))
    ensures Reaches(s, i, Act(s, Do(i, e)), quiet)
  {
    var es := [e];
    assert es[1..] == [];
    assert EventRun(Act(s, Do(i, e)), i, es[1..]);
    assert EventRun(s, i, es) && AfterEvents(s, i, es) == Act(s, Do(i, e));
    assert quiet ==> AllQuiet(es);
  }

  lemma EmptyInv()
    ensures Inv(EMPTY)
  {
  }

  /** Frame atomicity over every run that tears no frame: the wire is a sequence of whole
      frames, each within the 16-bit length, followed by what the lock holder has sent of
      the next, and by nothing if the lock is free. */
  lemma WireIsFrames(xs: seq<Action>)
    requires CanRunSys(EMPTY, xs) && Untorn(EMPTY, xs)
    ensures var s := RunSys(EMPTY, xs);
            && WellOwned(s)
            && AllFit(Unframe(s.port.wire).frames)
            && s.port.wire == EncodeAll(Unframe(s.port.wire).frames) + InProgress(s)
            && (s.port.owner.None? ==> InProgress(s) == [])
  {
    EmptyInv();
    AlignedRun(EMPTY, xs);
    UnframeSound(RunSys(EMPTY, xs).port.wire);
  }

  /** Data never looks like an opening or a close, over every orderly run. Count the empty
      frames for an address: a connection has closed exactly if there are more than its
      epoch, and has opened exactly if there are no fewer; and each header for the address,
      after `z` empty ones, is the data or the close of a connection of epoch `z`, or the
      opening of one of epoch `z + 1`. No two connections share one of these. */
  lemma ZeroOnlyOpensAndCloses(xs: seq<Action>, i: nat)
    requires CanRunSys(EMPTY, xs) && AllOrderly(EMPTY, xs) && i < |RunSys(EMPTY, xs).conns|
    ensures var s := RunSys(EMPTY, xs);
            && WellOwned(s) && Apart(s)
            && var c, h := s.conns[i], Heads(START, s.port.wire, s.conns[i].addr);
            && (CloseSent(c) <==> Zeros(h) > s.epochs[i])
            && (Opened(c) <==> Zeros(h) >= s.epochs[i])
            && AllDue(s, c.addr, h)
  {
    EmptyInv();
    InvRun(EMPTY, xs);
    var s := RunSys(EMPTY, xs);
    hide Aligned, RunSys, CanRunSys, AllOrderly, Heads;
    assert Accounts(s.conns[i], s.epochs[i], s.port.wire) && Explained(s, s.conns[i].addr);
    assert WellOwned(s) by { AlignedOwned(s); }
  }

  lemma AlignedOwned(s: Sys)
    requires Aligned(s)
    ensures WellOwned(s)
  {
  }

  /** Lock discipline and counter bounds over every run, write errors and torn frames
      included: at most one connection holds the lock, a holder has no request waiting and
      is sending a frame, and no count of sent bytes exceeds the frame it counts in, so that
      the one-byte count of an empty header stays within it. */
  lemma LockDiscipline(xs: seq<Action>, i: nat, j: nat)
    requires CanRunSys(EMPTY, xs) && i < |RunSys(EMPTY, xs).conns| && j < |RunSys(EMPTY, xs).conns|
    ensures var s := RunSys(EMPTY, xs);
            var c := s.conns[i];
            && (c.Holds() && s.conns[j].Holds() ==> i == j)
            && !(c.Holds() && c.queued)
            && (s.port.owner == Some(i) <==> c.Holds())
            && |c.payload| <= PACKET_SIZE
            && (c.SendsPacket() ==> c.phase.sent <= HEADER_SIZE + |c.payload|)
            && (c.SendsHeader() ==> c.phase.sent <= HEADER_SIZE)
  {
    EmptyInv();
    OwnedRun(EMPTY, xs);
  }

  // ---------------------------------------------------------------- what breaks it

  /** One accepted connection with one byte to send. */
  function Lone(a: Addr, payload: seq<Byte>, phase: Phase, port: Port): Sys {
    Sys([Conn(0, a, false, payload, phase, false, payload)], [0], port)
  }

  lemma LoneBegins(a: Addr)
    ensures Act(EMPTY, Open(a, false)) == Lone(a, [], Buffering, Port(None, []))
    ensures var s := Lone(a, [], Buffering, Port(None, []));
            CanAct(s, Do(0, Push([0]))) && Act(s, Do(0, Push([0]))) == Lone(a, [0], Buffering, Port(None, []))
    ensures var s := Lone(a, [0], Buffering, Port(None, []));
            CanAct(s, Do(0, Grant)) && Act(s, Do(0, Grant)) == Lone(a, [0], Flushing(0), Port(Some(0), []))
  {
    assert [] + [0] == [0];
  }

  lemma LoneFails(a: Addr)
    ensures var s := Lone(a, [0], Flushing(0), Port(Some(0), []));
            CanAct(s, Do(0, Send(1))) && Act(s, Do(0, Send(1))) == Lone(a, [0], Flushing(1), Port(Some(0), [a[0]]))
    ensures var s := Lone(a, [0], Flushing(1), Port(Some(0), [a[0]]));
            CanAct(s, Do(0, Fail)) && Act(s, Do(0, Fail)) == Lone(a, [0], Buffering, Port(None, [a[0]]))
  {
    assert Encode(a, [0])[0..1] == [a[0]];
    assert [] + [a[0]] == [a[0]] && [a[0]] + [] == [a[0]];
  }

  lemma RunCons(s: Sys, x: Action, xs: seq<Action>)
    requires CanAct(s, x) && CanRunSys(Act(s, x), xs)
    ensures CanRunSys(s, [x] + xs) && RunSys(s, [x] + xs) == RunSys(Act(s, x), xs)
  {
    assert ([x] + xs)[1..] == xs;
  }

  /** A frame is torn when the writer fails in the middle of it. */
  lemma TornFrameHappens(a: Addr)
    ensures var xs := [Open(a, false)] + ([Do(0, Push([0]))] + ([Do(0, Grant)] + ([Do(0, Send(1))] + ([Do(0, Fail)] + []))));
            CanRunSys(EMPTY, xs) && !Aligned(RunSys(EMPTY, xs))
  {
    var x1, x2, x3, x4, x5 := Open(a, false), Do(0, Push([0])), Do(0, Grant), Do(0, Send(1)), Do(0, Fail);
    LoneBegins(a);
    LoneFails(a);
    var torn := Lone(a, [0], Buffering, Port(None, [a[0]]));
    assert CanRunSys(torn, []) && RunSys(torn, []) == torn;
    hide Act, CanAct, RunSys, CanRunSys;
    RunCons(Lone(a, [0], Flushing(1), Port(Some(0), [a[0]])), x5, []);
    RunCons(Lone(a, [0], Flushing(0), Port(Some(0), [])), x4, [x5] + []);
    RunCons(Lone(a, [0], Buffering, Port(None, [])), x3, [x4] + ([x5] + []));
    RunCons(Lone(a, [], Buffering, Port(None, [])), x2, [x3] + ([x4] + ([x5] + [])));
    RunCons(EMPTY, x1, [x2] + ([x3] + ([x4] + ([x5] + []))));
    OneByteIsNoFrame(a[0]);
  }

  lemma OneByteIsNoFrame(b: Byte)
    ensures Unframe([b]).rest == [b]
  {
    assert [b][..0] == [];
    assert CutFrom(Cut([], []), [b][..0]) == Cut([], []);
    assert [] + [b] == [b];
  }
}
