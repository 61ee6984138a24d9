/** What callers and the other connections may rely on when poll_write, poll_flush and
    poll_shutdown run, for every answer of the lock and of the TCP writer. */
module PollLaws {
  import opened Protocol
  import opened Connections
  import opened Writers
  import opened WritePolls

  // ---------------------------------------------------------------- bytes accepted

  lemma Regroup(pushed: seq<Byte>, buf: seq<Byte>, n: nat, k: nat)
    requires n <= |buf| && k <= |buf| - n
    ensures pushed + buf[..n] + buf[n..][..k] == pushed + buf[..n + k]
  {
    assert buf[..n] + buf[n..][..k] == buf[..n + k];
  }

  /** A call appends exactly the first `accepted` bytes of its input to the connection's
      stream, however it ends, and never reports an empty success for a nonempty input. */
  lemma {:induction false} WriteAppends(l: Local, buf: seq<Byte>, wrote: nat)
    requires l.Valid() && l.Callable()
    ensures var (l', r) := PollWrite(l, buf, wrote);
            && wrote <= r.accepted <= wrote + |buf|
            && l'.c.pushed == l.c.pushed + buf[..r.accepted - wrote]
            && (r.Ready? ==> r.accepted > 0 || (buf == [] && wrote == 0))
    decreases |buf|, if l.c.phase.Flushing? then 1 else 0
  {
    hide WriteTurn, FlushingTurn, FullTurn, AppendingTurn;
    if buf == [] || !l.Writing() {
      assert l.c.pushed + buf[..0] == l.c.pushed;
    } else {
      var t := WriteTurn(l, buf, wrote);
      if t.Again? {
        WriteAppends(t.l, buf[t.taken..], wrote + t.taken);
        Regroup(l.c.pushed, buf, t.taken, PollWrite(l, buf, wrote).1.accepted - wrote - t.taken);
      }
    }
  }

  // ---------------------------------------------------------------- Pending

  /** How much input a call can take before it may have to ask for the lock a second time. */
  function SafeRoom(c: Conn): nat
    requires |c.payload| <= PACKET_SIZE
  {
    if c.phase.Flushing? then Room(c) + PACKET_SIZE
    else if |c.payload| == PACKET_SIZE then PACKET_SIZE
    else PACKET_SIZE - |c.payload|
  }

  lemma FittingInputIsReady(l: Local, buf: seq<Byte>, wrote: nat)
    requires l.Valid() && l.c.phase.Buffering? && |buf| <= PACKET_SIZE - |l.c.payload|
    ensures PollWrite(l, buf, wrote).1 == Ready(wrote + |buf|)
  {
    if buf != [] {
      assert WriteTurn(l, buf, wrote).taken == |buf|;
      assert buf[|buf|..] == [];
    }
  }

  /** A full packet and no lock: the call can only wait. */
  lemma FullIsPending(l: Local, buf: seq<Byte>, wrote: nat)
    requires l.Valid() && l.c.phase.Buffering? && l.script == [] && |l.c.payload| == PACKET_SIZE && buf != []
    ensures PollWrite(l, buf, wrote).1 == Pending(wrote)
  {
  }

  /** A packet that overflows while the lock is refused: the bytes that fitted are kept and
      the call still says Pending. */
  lemma OverflowIsPending(l: Local, buf: seq<Byte>, wrote: nat)
    requires l.Valid() && l.c.phase.Buffering? && l.script == []
    requires |buf| > PACKET_SIZE - |l.c.payload|
    ensures PollWrite(l, buf, wrote).1 == Pending(wrote + PACKET_SIZE - |l.c.payload|)
  {
    if |l.c.payload| == PACKET_SIZE {
      FullIsPending(l, buf, wrote);
    } else {
      var n := PACKET_SIZE - |l.c.payload|;
      assert WriteTurn(l, buf, wrote) == Again(Append(l, buf[..n]), n);
      FullIsPending(Append(l, buf[..n]), buf[n..], wrote + n);
    }
  }

  lemma SafeInput(l: Local, buf: seq<Byte>)
    requires l.Valid() && l.Writing() && |buf| <= SafeRoom(l.c)
    ensures var r := PollWrite(l, buf, 0).1; r.Pending? ==> r.accepted == 0
  {
    if buf != [] {
      var t := WriteTurn(l, buf, 0);
      if t.Again? {
        FittingInputIsReady(t.l, buf[t.taken..], t.taken);
      }
    }
  }

  /** The answers under which an unsafe input is half accepted and reported as Pending. */
  function Spoiler(c: Conn): (Port, seq<Answer>)
    requires |c.payload| <= PACKET_SIZE
  {
    if c.phase.Flushing? then (Port(Some(c.id), []), [Took(HEADER_SIZE + PACKET_SIZE)])
    else if |c.payload| == PACKET_SIZE then (Port(None, []), [Granted, Took(HEADER_SIZE + PACKET_SIZE)])
    else (Port(None, []), [])
  }

  lemma AllTaken(l: Local)
    requires l.Owned() && Sending(l.c) && l.c.Sent() < |l.c.Out()|
    requires l.script == [Took(HEADER_SIZE + PACKET_SIZE)]
    ensures Flush(l).1.Flushed? && Flush(l).0.script == []
  {
    assert l.script[1..] == [];
    assert Pump(l.c.Out(), l.c.Sent(), l.script).script == [];
  }

  /** Once the whole packet has gone, the rest of the input fills a new one and more. */
  lemma SpoiledTurn(l: Local, buf: seq<Byte>)
    requires l.Valid() && l.Writing() && l.p == Spoiler(l.c).0 && l.script == Spoiler(l.c).1 && l.script != []
    requires |buf| > SafeRoom(l.c)
    ensures var t := WriteTurn(l, buf, 0);
            && t.Again? && t.l.script == []
            && |buf[t.taken..]| > PACKET_SIZE - |t.l.c.payload|
            && t.taken + PACKET_SIZE - |t.l.c.payload| > 0
  {
    if l.c.phase.Flushing? {
      AllTaken(Append(l, buf[..Room(l.c)]));
    } else {
      assert l.script[1..] == [Took(HEADER_SIZE + PACKET_SIZE)];
      AllTaken(PollLock(l));
    }
  }

  ghost predicate HalfTaken(r: WriteResult) {
    r.Pending? && r.accepted > 0
  }

  lemma UnsafeInput(l: Local, buf: seq<Byte>)
    requires l.Valid() && l.Writing() && l.p == Spoiler(l.c).0 && l.script == Spoiler(l.c).1
    requires |buf| > SafeRoom(l.c)
    ensures HalfTaken(PollWrite(l, buf, 0).1)
  {
    hide WriteTurn, FlushingTurn, FullTurn, AppendingTurn;
    if l.script == [] {
      OverflowIsPending(l, buf, 0);
    } else {
      var t := WriteTurn(l, buf, 0);
      SpoiledTurn(l, buf);
      OverflowIsPending(t.l, buf[t.taken..], t.taken);
    }
  }

  /** Pending means that nothing was accepted, whatever the lock and the writer do, exactly
      for inputs within the safe room; a longer one can be taken in part and still be
      reported as Pending. */
  lemma {:induction false} PendingContract(c: Conn, buf: seq<Byte>)
    requires c.AtRest() && (c.phase.Buffering? || c.phase.Flushing?)
    ensures (forall p, script :: Local(c, p, script).Valid() ==> !HalfTaken(PollWrite(Local(c, p, script), buf, 0).1))
       <==> |buf| <= SafeRoom(c)
  {
    hide PollWrite;
    if |buf| <= SafeRoom(c) {
      forall p, script | Local(c, p, script).Valid()
        ensures !HalfTaken(PollWrite(Local(c, p, script), buf, 0).1)
      {
        SafeInput(Local(c, p, script), buf);
      }
    } else {
      UnsafeInput(Local(c, Spoiler(c).0, Spoiler(c).1), buf);
    }
  }

  // ---------------------------------------------------------------- among other connections

  /** The system in which one connection has got to `l`. */
  function Within(s: Sys, l: Local): Sys {
    if l.c.id < |s.conns| then s.(conns := s.conns[l.c.id := l.c], port := l.p) else s
  }

  /** From one moment of a call to another the connection got by its own actions; quiet ones
      if so asked, which neither fail nor drop. */
  ghost predicate Leads(s: Sys, l: Local, l': Local, quiet: bool) {
    l'.c.id == l.c.id && Reaches(Within(s, l), l.c.id, Within(s, l'), quiet)
  }

  lemma LeadsTwice(s: Sys, l: Local, m: Local, n: Local, quiet: bool)
    requires Leads(s, l, m, quiet) && Leads(s, m, n, quiet)
    ensures Leads(s, l, n, quiet)
  {
    hide Reaches, Within;
    ReachesTrans(Within(s, l), l.c.id, Within(s, m), Within(s, n), quiet);
  }

  lemma LeadsNowhere(s: Sys, l: Local, l': Local, quiet: bool)
    requires l'.c == l.c && l'.p == l.p
    ensures Leads(s, l, l', quiet)
  {
    ReachesRefl(Within(s, l), l.c.id, quiet);
  }

  lemma DoLeads(s: Sys, l: Local, e: Event, quiet: bool)
    requires l.c.id < |s.conns| && Can(l.c, e) && PortAllows(l.p, e) && (quiet ==> Quiet(e))
    ensures Leads(s, l, l.Do(e), quiet)
  {
    var t := Within(s, l);
    assert After(l.c, e).id == l.c.id;
    ReachesStep(t, l.c.id, e, quiet);
    assert Within(s, l.Do(e)) == Act(t, Action.Do(l.c.id, e));
  }

  lemma LockLeads(s: Sys, l: Local, quiet: bool)
    requires l.c.id < |s.conns| && l.Owned() && Can(l.c, Grant) && Can(l.c, Queue)
    ensures Leads(s, l, PollLock(l), quiet)
  {
    hide Leads;
    var r := PollLock(l);
    var e := if r.c.Holds() then Grant else Queue;
    DoLeads(s, l, e, quiet);
    assert l.p.wire + [] == l.p.wire;
    LeadsNowhere(s, l.Do(e), r, quiet);
    LeadsTwice(s, l, l.Do(e), r, quiet);
  }

  lemma PushedLeads(s: Sys, l: Local, quiet: bool)
    requires l.c.id < |s.conns| && l.Owned() && Sending(l.c)
    ensures Leads(s, l, Pushed(l), quiet)
  {
    hide Leads;
    var m := Pushed(l);
    var n := m.c.Sent() - l.c.Sent();
    if n > 0 {
      DoLeads(s, l, Send(n), quiet);
      LeadsNowhere(s, l.Do(Send(n)), m, quiet);
      LeadsTwice(s, l, l.Do(Send(n)), m, quiet);
    } else {
      LeadsNowhere(s, l, m, quiet);
    }
  }

  lemma FlushLeads(s: Sys, l: Local, quiet: bool)
    requires l.c.id < |s.conns| && l.Owned() && Sending(l.c) && (quiet ==> !Flush(l).1.Lost?)
    ensures Leads(s, l, Flush(l).0, quiet)
  {
    hide Leads;
    PushedLeads(s, l, quiet);
    if Flush(l).1.Flushed? {
      DoLeads(s, Pushed(l), Drained, quiet);
      LeadsTwice(s, l, Pushed(l), Flush(l).0, quiet);
    } else if Flush(l).1.Lost? {
      DoLeads(s, Pushed(l), Fail, quiet);
      LeadsTwice(s, l, Pushed(l), Flush(l).0, quiet);
    }
  }

  lemma AppendLeads(s: Sys, l: Local, data: seq<Byte>, quiet: bool)
    requires l.c.id < |s.conns| && l.Valid() && l.Writing() && |data| <= Room(l.c)
    ensures Leads(s, l, Append(l, data), quiet)
  {
    DoLeads(s, l, Push(data), quiet);
  }

  lemma FullTurnLeads(s: Sys, l: Local, buf: seq<Byte>, wrote: nat, quiet: bool)
    requires l.c.id < |s.conns| && l.Valid() && l.c.phase.Buffering? && |l.c.payload| == PACKET_SIZE && buf != []
    requires var t := FullTurn(l, buf, wrote); quiet && t.Return? ==> !t.result.Error?
    ensures Leads(s, l, FullTurn(l, buf, wrote).l, quiet)
  {
    hide Leads, Flush, PollLock;
    var m := PollLock(l);
    LockLeads(s, l, quiet);
    if m.c.Holds() {
      var (f, o) := Flush(m);
      FlushLeads(s, m, quiet);
      LeadsTwice(s, l, m, f, quiet);
      if o.Flushed? {
        var n := Min(|buf|, Room(f.c));
        AppendLeads(s, f, buf[..n], quiet);
        LeadsTwice(s, l, f, Append(f, buf[..n]), quiet);
      }
    }
  }

  lemma TurnLeads(s: Sys, l: Local, buf: seq<Byte>, wrote: nat, quiet: bool)
    requires l.c.id < |s.conns| && l.Valid() && l.Writing() && buf != []
    requires var t := WriteTurn(l, buf, wrote); quiet && t.Return? ==> !t.result.Error?
    ensures Leads(s, l, WriteTurn(l, buf, wrote).l, quiet)
  {
    hide Leads, Flush, PollLock, FullTurn;
    if l.c.phase.Flushing? {
      var m := Append(l, buf[..Min(|buf|, Room(l.c))]);
      AppendLeads(s, l, buf[..Min(|buf|, Room(l.c))], quiet);
      FlushLeads(s, m, quiet);
      LeadsTwice(s, l, m, Flush(m).0, quiet);
    } else if |l.c.payload| == PACKET_SIZE {
      FullTurnLeads(s, l, buf, wrote, quiet);
    } else {
      AppendLeads(s, l, buf[..Min(|buf|, Room(l.c))], quiet);
    }
  }

  /** A call of poll_write is a run of the connection's own actions, a quiet one if the call
      does not fail: all that is proved of runs holds of calls. */
  lemma {:induction false} WriteLeads(s: Sys, l: Local, buf: seq<Byte>, wrote: nat, quiet: bool)
    requires l.c.id < |s.conns| && l.Valid() && l.Callable() && (quiet ==> !PollWrite(l, buf, wrote).1.Error?)
    ensures Leads(s, l, PollWrite(l, buf, wrote).0, quiet)
    decreases |buf|, if l.c.phase.Flushing? then 1 else 0
  {
    hide Leads, WriteTurn;
    if buf == [] || !l.Writing() {
      LeadsNowhere(s, l, l, quiet);
    } else {
      var t := WriteTurn(l, buf, wrote);
      TurnLeads(s, l, buf, wrote, quiet);
      if t.Again? {
        assert t.l.c.id == l.c.id by { LeadsSame(s, l, t.l, quiet); }
        WriteLeads(s, t.l, buf[t.taken..], wrote + t.taken, quiet);
        LeadsTwice(s, l, t.l, PollWrite(l, buf, wrote).0, quiet);
      }
    }
  }

  lemma LeadsSame(s: Sys, l: Local, l': Local, quiet: bool)
    requires Leads(s, l, l', quiet)
    ensures l'.c.id == l.c.id
  {
  }

  /** So is a call of poll_flush. */
  lemma FlushCallLeads(s: Sys, l: Local, quiet: bool)
    requires l.c.id < |s.conns| && l.Valid() && l.Callable() && (quiet ==> !PollFlush(l).1.Failed?)
    ensures Leads(s, l, PollFlush(l).0, quiet)
  {
    hide Leads, Flush, PollLock;
    var m := if l.c.phase.Buffering? then PollLock(l) else l;
    if l.c.phase.Buffering? {
      LockLeads(s, l, quiet);
    } else {
      LeadsNowhere(s, l, l, quiet);
    }
    if l.Writing() && m.c.Holds() && m.c.payload == [] {
      DoLeads(s, m, Skip, quiet);
      LeadsTwice(s, l, m, m.Do(Skip), quiet);
    } else if l.Writing() && m.c.Holds() {
      FlushLeads(s, m, quiet);
      LeadsTwice(s, l, m, Flush(m).0, quiet);
    }
  }

  lemma CloseTurnLeads(s: Sys, l: Local, quiet: bool)
    requires l.c.id < |s.conns| && l.Valid() && Closing(l.c.phase)
    requires quiet ==> CloseTurn(l).1 != Some(PollResult.Failed)
    ensures Leads(s, l, CloseTurn(l).0, quiet)
  {
    hide Leads, Flush, PollLock;
    if l.c.phase.CloseWaiting? {
      LockLeads(s, l, quiet);
    } else if l.c.phase.CloseFlushing? && l.c.payload == [] {
      DoLeads(s, l, Skip, quiet);
    } else if l.c.Holds() {
      FlushLeads(s, l, quiet);
    } else {
      LeadsNowhere(s, l, l, quiet);
    }
  }

  lemma {:induction false} CloseLeads(s: Sys, l: Local, quiet: bool)
    requires l.c.id < |s.conns| && l.Valid() && Closing(l.c.phase) && (quiet ==> !PollClose(l).1.Failed?)
    ensures Leads(s, l, PollClose(l).0, quiet)
    decreases Rank(l.c.phase)
  {
    hide Leads, CloseTurn;
    CloseTurnLeads(s, l, quiet);
    var m := CloseTurn(l).0;
    if CloseTurn(l).1.None? {
      LeadsSame(s, l, m, quiet);
      CloseLeads(s, m, quiet);
      LeadsTwice(s, l, m, PollClose(m).0, quiet);
    }
  }

  /** And so is a call of poll_shutdown. */
  lemma ShutdownLeads(s: Sys, l: Local, quiet: bool)
    requires l.c.id < |s.conns| && l.Valid() && l.Callable() && (quiet ==> !PollShutdown(l).1.Failed?)
    ensures Leads(s, l, PollShutdown(l).0, quiet)
  {
    hide Leads, PollClose;
    if l.Writing() {
      OkKept(l.c, Shutdown);
      DoLeads(s, l, Shutdown, quiet);
      CloseLeads(s, l.Do(Shutdown), quiet);
      LeadsTwice(s, l, l.Do(Shutdown), PollShutdown(l).0, quiet);
    } else {
      CloseLeads(s, l, quiet);
    }
  }

  /** And a poll of the handshake. */
  lemma HandshakeLeads(s: Sys, l: Local, quiet: bool)
    requires l.c.id < |s.conns| && l.Valid() && (l.c.phase.Opening? || l.c.phase.Handshaking?)
    requires quiet ==> !PollHandshake(l).1.Failed?
    ensures Leads(s, l, PollHandshake(l).0, quiet)
  {
    hide Leads, Flush;
    if l.c.phase.Handshaking? {
      FlushLeads(s, l, quiet);
    } else if AwaitLock(l).c.Holds() {
      var m := AwaitLock(l);
      assert l.p.wire + [] == l.p.wire;
      DoLeads(s, l, Grant, quiet);
      LeadsNowhere(s, l.Do(Grant), m, quiet);
      LeadsTwice(s, l, l.Do(Grant), m, quiet);
      FlushLeads(s, m, quiet);
      LeadsTwice(s, l, m, Flush(m).0, quiet);
    } else {
      LeadsNowhere(s, l, AwaitLock(l), quiet);
    }
  }

  // ---------------------------------------------------------------- closing

  /** Between two moments a connection put on the wire exactly what it no longer owes. */
  ghost predicate Paid(l: Local, l': Local) {
    && l.c.Ok() && l'.c.Ok()
    && l.p.wire <= l'.p.wire
    && Owed(l.c) == l'.p.wire[|l.p.wire|..] + Owed(l'.c)
  }

  lemma PaidTwice(l: Local, m: Local, n: Local)
    requires Paid(l, m) && Paid(m, n)
    ensures Paid(l, n)
  {
    var x, y := m.p.wire[|l.p.wire|..], n.p.wire[|m.p.wire|..];
    assert n.p.wire[|l.p.wire|..] == x + y;
    assert x + (y + Owed(n.c)) == (x + y) + Owed(n.c);
  }

  lemma DoPays(l: Local, e: Event)
    requires l.c.Ok() && Can(l.c, e) && Quiet(e) && Closing(l.c.phase)
    ensures Paid(l, l.Do(e))
  {
    OwedStep(l.c, e);
  }

  lemma FlushPays(l: Local)
    requires l.Owned() && Sending(l.c) && Closing(l.c.phase) && !Flush(l).1.Lost?
    ensures Paid(l, Flush(l).0)
  {
    var m := Pushed(l);
    var n := m.c.Sent() - l.c.Sent();
    if n > 0 {
      DoPays(l, Send(n));
    }
    assert Paid(l, m);
    if Flush(l).1.Flushed? {
      DoPays(m, Drained);
      PaidTwice(l, m, Flush(l).0);
    }
  }

  lemma CloseTurnPays(l: Local)
    requires l.Valid() && Closing(l.c.phase) && CloseTurn(l).1 != Some(PollResult.Failed)
    ensures Paid(l, CloseTurn(l).0)
  {
    hide Flush, PollLock, Paid;
    if l.c.phase.CloseWaiting? {
      LockPays(l);
    } else if l.c.phase.CloseFlushing? && l.c.payload == [] {
      DoPays(l, Skip);
    } else if l.c.Holds() {
      FlushPays(l);
    } else {
      NothingPaid(l);
    }
  }

  lemma {:induction false} ClosePays(l: Local)
    requires l.Valid() && Closing(l.c.phase) && !PollClose(l).1.Failed?
    ensures Paid(l, PollClose(l).0)
    decreases Rank(l.c.phase)
  {
    hide CloseTurn, Paid;
    CloseTurnPays(l);
    var m := CloseTurn(l).0;
    if CloseTurn(l).1.None? {
      ClosePays(m);
      PaidTwice(l, m, PollClose(m).0);
    }
  }

  lemma NothingPaid(l: Local)
    requires l.c.Ok()
    ensures Paid(l, l)
  {
  }

  lemma LockPays(l: Local)
    requires l.Owned() && l.c.phase.CloseWaiting?
    ensures Paid(l, PollLock(l))
  {
    DoPays(l, if PollLock(l).c.Holds() then Grant else Queue);
  }

  /** The rest of the packet's frame, if there is a packet, and one empty header. */
  function Farewell(c: Conn): seq<Byte>
    requires c.Ok()
  {
    (if c.payload == [] then [] else Encode(c.addr, c.payload)[c.Sent()..]) + Header(c.addr, 0)
  }

  lemma OwedAtShutdown(c: Conn)
    requires c.AtRest() && (c.phase.Buffering? || c.phase.Flushing?)
    ensures After(c, Shutdown).Ok() && Owed(After(c, Shutdown)) == Farewell(c)
  {
    OkKept(c, Shutdown);
    assert c.phase.Buffering? ==> Encode(c.addr, c.payload)[0..] == Encode(c.addr, c.payload);
  }

  /** What a connection that a call of poll_shutdown finds in this state has to send. */
  ghost function OwedByCall(c: Conn): seq<Byte>
    requires c.Ok()
  {
    if c.phase.Buffering? || c.phase.Flushing? then Farewell(c) else Owed(c)
  }

  /** A call of poll_shutdown that does not fail, the first or a later one, sends what is then
      no longer owed. */
  lemma ShutdownPays(l: Local)
    requires l.Valid() && l.Callable() && !PollShutdown(l).1.Failed?
    ensures var r := PollShutdown(l).0;
            && l.p.wire <= r.p.wire && r.c.AtRest() && Closing(r.c.phase)
            && OwedByCall(l.c) == r.p.wire[|l.p.wire|..] + Owed(r.c)
  {
    hide PollClose, Farewell, Owed;
    if l.Writing() {
      OwedAtShutdown(l.c);
      ClosePays(l.Do(Shutdown));
      assert l.Do(Shutdown).p.wire == l.p.wire;
    } else {
      ClosePays(l);
    }
  }

  /** What a call meets: the shared writer as others have left it, and the answers to come. */
  datatype Meeting = Meeting(p: Port, script: seq<Answer>)

  function CallOn(c: Conn, m: Meeting): Local {
    Local(c, m.p, m.script)
  }

  /** Calls of poll_shutdown, one after the other, none of which fails. */
  ghost predicate CanShut(c: Conn, ms: seq<Meeting>)
    decreases |ms|
  {
    ms == [] ||
    var l := CallOn(c, ms[0]);
    l.Valid() && l.Callable() && !PollShutdown(l).1.Failed? && CanShut(PollShutdown(l).0.c, ms[1..])
  }

  ghost function ShutConn(c: Conn, ms: seq<Meeting>): Conn
    requires CanShut(c, ms)
    decreases |ms|
  {
    if ms == [] then c else ShutConn(PollShutdown(CallOn(c, ms[0])).0.c, ms[1..])
  }

  /** The bytes these calls put on the wire. */
  ghost function ShutBytes(c: Conn, ms: seq<Meeting>): seq<Byte>
    requires CanShut(c, ms)
    decreases |ms|
  {
    if ms == [] then []
    else
      var r := PollShutdown(CallOn(c, ms[0])).0;
      (if |ms[0].p.wire| <= |r.p.wire| then r.p.wire[|ms[0].p.wire|..] else []) + ShutBytes(r.c, ms[1..])
  }

  lemma {:induction false} ShutRunPays(c: Conn, ms: seq<Meeting>)
    requires CanShut(c, ms) && c.AtRest() && Closing(c.phase)
    ensures ShutConn(c, ms).AtRest() && Closing(ShutConn(c, ms).phase)
    ensures Owed(c) == ShutBytes(c, ms) + Owed(ShutConn(c, ms))
    decreases |ms|
  {
    if ms != [] {
      var l := CallOn(c, ms[0]);
      ShutdownPays(l);
      hide PollShutdown, Owed, Conn.AtRest, Closing;
      var r := PollShutdown(l).0;
      ShutRunPays(r.c, ms[1..]);
      Assoc(r.p.wire[|l.p.wire|..], ShutBytes(r.c, ms[1..]), Owed(ShutConn(c, ms)));
    }
  }

  /** Clean shutdown by repeated calls of poll_shutdown, with anything happening to the lock
      and the wire in between: when the last call is done, all of them together have sent
      the rest of the packet's frame, if there was a packet, and exactly one empty header. */
  lemma RepeatedShutdown(c: Conn, ms: seq<Meeting>)
    requires c.AtRest() && (c.phase.Buffering? || c.phase.Flushing?)
    requires ms != [] && CanShut(c, ms) && ShutConn(c, ms).phase.Closed?
    ensures ShutBytes(c, ms) == Farewell(c)
    ensures !ShutConn(c, ms).Holds() && ShutConn(c, ms).Unsent() == []
  {
    var l := CallOn(c, ms[0]);
    var r := PollShutdown(l).0;
    ShutdownPays(l);
    ShutRunPays(r.c, ms[1..]);
    assert Owed(ShutConn(c, ms)) == [];
    hide PollShutdown, Owed, Farewell;
    var x, y := r.p.wire[|l.p.wire|..], ShutBytes(r.c, ms[1..]);
    assert y + [] == y;
  }
}
