/** What a connection can always do next, and that it can always get to its end: no phase is a
    dead end, and the lock is never stuck with its holder. */
module Progress {
  import opened Protocol
  import opened Connections
  import opened Writers

  /** How many quiet actions a connection is from the end of what it is doing. */
  function Distance(c: Conn): nat
    requires |c.payload| <= PACKET_SIZE
  {
    var left := if c.Sent() < |c.Out()| then 1 else 0;
    match c.phase
    case Opening => 3
    case Handshaking(_) => 1 + left
    case Flushing(_) => 1 + left
    case CloseWaiting => 6
    case CloseFlushing(_) => 4 + left
    case CloseWriting(_) => 1 + left
    case DropWaiting => 3
    case DropFlushing(_) => 4 + left
    case DropWriting(_) => 1 + left
    case AbortWaiting => 3
    case AbortWriting(_) => 1 + left
    case _ => 0
  }

  /** Where that end is. */
  function Goal(p: Phase): Phase {
    match p
    case Opening => Buffering
    case Handshaking(_) => Buffering
    case Flushing(_) => Buffering
    case CloseWaiting => Closed
    case CloseFlushing(_) => Closed
    case CloseWriting(_) => Closed
    case DropWaiting => Gone
    case DropFlushing(_) => Gone
    case DropWriting(_) => Gone
    case AbortWaiting => Abandoned
    case AbortWriting(_) => Abandoned
    case _ => p
  }

  /** A sender can have any number of its bytes taken, can fail, and can end its frame when all
      of it is gone: the world is not restricted. */
  lemma SenderIsFree(c: Conn)
    requires c.Ok() && c.Holds() && (c.SendsPacket() ==> c.payload != [])
    ensures forall n :: 0 < n <= |c.Out()| - c.Sent() ==> Can(c, Send(n))
    ensures c.Sent() < |c.Out()| ==> Can(c, Fail)
    ensures c.Sent() == |c.Out()| ==> Can(c, Drained)
  {
  }

  /** The next action on the way. */
  function Onward(c: Conn): Event
    requires |c.payload| <= PACKET_SIZE
  {
    if !c.Holds() then Grant
    else if c.SendsPacket() && c.payload == [] then Skip
    else if c.Sent() < |c.Out()| then Send(|c.Out()| - c.Sent())
    else Drained
  }

  /** No phase is a dead end: a connection that has something left to do can do it, by getting
      the lock, sending or ending its frame, and is then nearer to its end. */
  lemma NoDeadEnd(c: Conn)
    requires c.Ok() && Distance(c) > 0
    ensures Can(c, Onward(c)) && Quiet(Onward(c)) && (Onward(c).Grant? <==> !c.Holds())
    ensures After(c, Onward(c)).Ok()
    ensures Distance(After(c, Onward(c))) < Distance(c) && Goal(After(c, Onward(c)).phase) == Goal(c.phase)
  {
    OkKept(c, Onward(c));
  }

  /** From every state a connection can get to the end of what it is doing, if the lock is
      granted and the TCP writer takes its bytes. */
  lemma {:induction false} CanFinish(c: Conn) returns (es: seq<Event>)
    requires c.Ok()
    ensures CanRun(c, es) && AllQuiet(es) && RunConn(c, es).phase == Goal(c.phase)
    decreases Distance(c)
  {
    es := [];
    if Distance(c) > 0 {
      NoDeadEnd(c);
      var c' := After(c, Onward(c));
      var rest := CanFinish(c');
      es := [Onward(c)] + rest;
      assert es[1..] == rest;
    }
  }

  /** Dropping a connection that was not shut down always can end with its close sent. */
  lemma DropCanFinish(c: Conn) returns (es: seq<Event>)
    requires c.AtRest() && (c.phase.Buffering? || c.phase.Flushing?)
    ensures es != [] && es[0] == Drop && AllQuiet(es[1..]) && CanRun(c, es) && RunConn(c, es).phase.Gone?
  {
    DropFacts(c);
    var rest := CanFinish(After(c, Drop));
    es := [Drop] + rest;
    assert es[1..] == rest;
  }

  /** So can a shutdown, in the state a call of poll_shutdown finds. */
  lemma ShutdownCanFinish(c: Conn) returns (es: seq<Event>)
    requires c.AtRest() && (c.phase.Buffering? || c.phase.Flushing?)
    ensures es != [] && es[0] == Shutdown && AllQuiet(es) && CanRun(c, es) && RunConn(c, es).phase.Closed?
  {
    OkKept(c, Shutdown);
    var rest := CanFinish(After(c, Shutdown));
    es := [Shutdown] + rest;
    assert es[1..] == rest;
  }

  /** And a handshake; and, after it has failed, what is left of it. */
  lemma HandshakeCanFinish(id: nat, a: Addr) returns (es: seq<Event>)
    ensures CanRun(Dial(id, a), es) && AllQuiet(es) && RunConn(Dial(id, a), es).phase.Buffering?
  {
    es := CanFinish(Dial(id, a));
  }

  // ---------------------------------------------------------------- among other connections

  /** Whoever holds the lock can always go on to release it, whatever the others do not do: no
      connection waits for it in vain while the TCP writer takes bytes. */
  lemma {:induction false} LockCanBeReleased(s: Sys, i: nat) returns (es: seq<Event>)
    requires WellOwned(s) && s.port.owner == Some(i)
    ensures EventRun(s, i, es) && AllQuiet(es)
    ensures var s' := AfterEvents(s, i, es);
            && s'.port.owner.None? && Released(s.conns, s'.conns, i) && s'.epochs == s.epochs
    decreases Distance(s.conns[i])
  {
    var c := s.conns[i];
    HolderStep(c);
    var e := Onward(c);
    var s' := Act(s, Do(i, e));
    OwnedKept(s, Do(i, e));
    es := [];
    hide Distance, Goal, Onward, Can, After, Conn.Ok, Conn.Holds;
    if s'.port.owner.Some? {
      es := LockCanBeReleased(s', i);
    }
    assert ([e] + es)[1..] == es;
    es := [e] + es;
  }

  /** The connection `i` has got to the end of what it was doing and the others have not moved;
      if it was flushing, its packet is gone. */
  ghost predicate Released(conns: seq<Conn>, conns': seq<Conn>, i: nat) {
    && i < |conns| == |conns'|
    && (forall k :: 0 <= k < |conns| && k != i ==> conns'[k] == conns[k])
    && conns'[i].phase == Goal(conns[i].phase) && conns'[i].pushed == conns[i].pushed
    && conns'[i].addr == conns[i].addr && conns'[i].dialled == conns[i].dialled
    && (conns[i].phase.Flushing? ==> conns'[i].payload == [])
  }

  /** A holder goes on, and what it is when it no longer holds the lock. */
  lemma HolderStep(c: Conn)
    requires c.Ok() && c.Holds()
    ensures Distance(c) > 0 && Can(c, Onward(c)) && Quiet(Onward(c)) && !Onward(c).Grant? && After(c, Onward(c)).Ok()
    ensures var c' := After(c, Onward(c));
            && Distance(c') < Distance(c) && Goal(c'.phase) == Goal(c.phase) && c'.pushed == c.pushed
            && c'.addr == c.addr && c'.dialled == c.dialled && c'.id == c.id
            && (!c'.Holds() ==> c'.phase == Goal(c.phase))
            && (c.phase.Flushing? ==> if c'.Holds() then c'.phase.Flushing? else c'.payload == [])
  {
    NoDeadEnd(c);
  }
}
