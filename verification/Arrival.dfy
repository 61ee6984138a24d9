/** That nothing gets stuck between the two ends: what is on the wire can be taken unless a
    buffer or the channel is full, and what a writer has accepted can get to its reader. */
module Arrivals {
  import opened Protocol
  import opened Connections
  import opened Writers
  import opened Progress
  import opened Readers
  import opened SharedReaders
  import opened ReadOutcomes
  import opened Network
  import opened Duplexes

  /** Some reader, or whoever accepts, has to make room first. */
  predicate HeldUp(rx: Rx) {
    BufferFull(rx) || ChannelFull(rx)
  }

  /** The reader of `j` is not about to be dropped with the listener gone. */
  predicate Safe(rx: Rx) {
    !rx.state.Error? && (rx.listener || !rx.state.SendSocket?)
  }

  lemma {:induction false} NetConcat(n: Net, xs: seq<Step>, ys: seq<Step>)
    requires NetRun(n, xs) && NetRun(NetAfter(n, xs), ys)
    ensures NetRun(n, xs + ys) && NetAfter(n, xs + ys) == NetAfter(NetAfter(n, xs), ys)
    decreases |xs|
  {
    hide CanStep, Next;
    if xs == [] {
      assert xs + ys == ys;
    } else {
      ConcatTail(xs, ys);
      NetConcat(Next(n, xs[0]), xs[1..], ys);
    }
  }

  /** The answer of a TCP reader that has all of the wire. */
  function Eager(n: Net): Buf.ReadAnswer
    requires n.taken <= |n.Wire()|
  {
    if Asks(n.rx.state) then Buf.Ready(n.Wire()[n.taken..]) else Buf.Stalled
  }

  /** What one eager fetch does: it takes a byte, or hands a new connection over, and harms no
      reader. */
  lemma FetchMoves(n: Net)
    requires NetInv(n) && Safe(n.rx) && !HeldUp(n.rx) && n.taken < |n.Wire()|
    ensures CanStep(n, Fetch(Eager(n)))
    ensures var p := PollOnce(n.rx, Eager(n));
            && p.rx.Valid() && Safe(p.rx) && p.rx.listener == n.rx.listener
            && (if Asks(n.rx.state) then p.used != [] else n.rx.state.SendSocket? && !p.rx.state.SendSocket?)
            && |p.rx.entries| >= |n.rx.entries|
            && (forall j :: 0 <= j < |n.rx.entries| && n.rx.entries[j].alive ==> p.rx.entries[j].alive)
  {
    hide NetInv, PollOnce, Safe, HeldUp, Rx.Valid;
    ValidOf(n);
    PollMoves(n.rx, Eager(n));
  }

  lemma PollMoves(rx: Rx, answer: Buf.ReadAnswer)
    requires rx.Valid() && Safe(rx) && !HeldUp(rx) && (Asks(rx.state) ==> answer.Ready? && answer.bytes != [])
    ensures var p := PollOnce(rx, answer);
            && p.rx.Valid() && Safe(p.rx) && p.rx.listener == rx.listener
            && (if Asks(rx.state) then p.used != [] else rx.state.SendSocket? && !p.rx.state.SendSocket?)
            && |p.rx.entries| >= |rx.entries|
            && (forall j :: 0 <= j < |rx.entries| && rx.entries[j].alive ==> p.rx.entries[j].alive)
  {
    PollRefines(rx, answer);
    PollStays(rx, answer);
    hide Rx.Valid, PollRead, PollNextPacket;
    match rx.state
    case Reading(_, _) => PayloadMoves(rx, answer);
    case NextPacket(_) => HeaderMoves(rx, answer);
    case SendSocket(_) =>
  }

  lemma PayloadMoves(rx: Rx, answer: Buf.ReadAnswer)
    requires rx.Valid() && rx.state.Reading? && !BufferFull(rx) && answer.Ready? && answer.bytes != []
    ensures var p := PollRead(rx, answer);
            && p.used != [] && !p.rx.state.Error? && !p.rx.state.SendSocket? && p.rx.listener == rx.listener
            && |p.rx.entries| >= |rx.entries|
            && (forall j :: 0 <= j < |rx.entries| && rx.entries[j].alive ==> p.rx.entries[j].alive)
  {
    PayloadIsTaken(rx, answer);
  }

  lemma HeaderMoves(rx: Rx, answer: Buf.ReadAnswer)
    requires rx.Valid() && rx.state.NextPacket? && answer.Ready? && answer.bytes != []
    ensures var p := PollNextPacket(rx, answer);
            && p.used != [] && !p.rx.state.Error? && p.rx.listener == rx.listener && (p.rx.state.SendSocket? ==> rx.listener)
            && |p.rx.entries| >= |rx.entries|
            && (forall j :: 0 <= j < |rx.entries| && rx.entries[j].alive ==> p.rx.entries[j].alive)
  {
    HeaderIsGathered(rx, answer);
  }

  /** The rest of the wire can be taken, in one go of eager fetches, unless a full buffer or a
      full channel holds it up; no reader is lost over it. */
  lemma {:induction false} WireCanBeTaken(n: Net) returns (xs: seq<Step>)
    requires NetInv(n) && Safe(n.rx)
    ensures NetRun(n, xs) && Ordinary(xs)
    ensures var n' := NetAfter(n, xs);
            && NetInv(n') && n'.tx == n.tx && GoesOn(n, n')
            && (n'.taken == |n'.Wire()| || HeldUp(n'.rx))
            && (forall j :: 0 <= j < |n.rx.entries| && n.rx.entries[j].alive ==> n'.rx.entries[j].alive)
    decreases |n.Wire()| - n.taken, if n.rx.state.SendSocket? then 1 else 0
  {
    hide NetInv, PollOnce, CanStep, Perform, Rx.Valid, HeldUp, Safe, GoesOn;
    ValidOf(n);
    xs := [];
    StaysItself(n);
    if n.taken < |n.Wire()| && !HeldUp(n.rx) {
      var x := Fetch(Eager(n));
      FetchMoves(n);
      NetInvKept(n, x);
      FetchFacts(n, Eager(n));
      FetchCounts(n);
      OwnFacts(n, x);
      var n' := Perform(n, x);
      var rest := WireCanBeTaken(n');
      NetCons(n, x, rest);
      GoesOnTwice(n, n', NetAfter(n', rest));
      xs := [x] + rest;
    }
  }

  lemma FetchCounts(n: Net)
    requires NetInv(n) && CanStep(n, Fetch(Eager(n)))
    ensures var n', p := Perform(n, Fetch(Eager(n))), PollOnce(n.rx, Eager(n));
            n'.rx == p.rx && n'.taken == n.taken + |p.used| <= |n.Wire()| && n'.tx == n.tx && Next(n, Fetch(Eager(n))) == n'
  {
    ValidOf(n);
    SettledJoined(n);
    FetchedShape(n, Eager(n));
  }

  lemma GoesOnTwice(n: Net, m: Net, k: Net)
    requires GoesOn(n, m) && GoesOn(m, k)
    ensures GoesOn(n, k)
  {
  }

  // ---------------------------------------------------------------- from a packet to its reader

  /** A run of one writer leaves the reading end alone. */
  lemma WritesRun(n: Net, i: nat, es: seq<Event>)
    requires NetInv(n) && EventRun(n.tx, i, es) && AllQuiet(es)
    ensures NetRun(n, Writes(i, es)) && NetAfter(n, Writes(i, es)) == n.(tx := AfterEvents(n.tx, i, es))
    ensures NetInv(NetAfter(n, Writes(i, es)))
  {
    ValidOf(n);
    CallsAreRuns(n, i, es);
    NetInvRun(n, Writes(i, es));
  }

  /** The lock can be made free, without moving the reading end or accepting more bytes. */
  lemma LockCanBeFree(n: Net) returns (xs: seq<Step>)
    requires NetInv(n)
    ensures NetRun(n, xs)
    ensures var n' := NetAfter(n, xs);
            && NetInv(n') && n'.tx.port.owner.None? && n' == n.(tx := n'.tx) && Kept(n.tx, n'.tx)
  {
    hide NetInv, EventRun, AfterEvents, NetRun, NetAfter, Released, Kept;
    TxOwned(n);
    xs := [];
    NothingHappens(n);
    if n.tx.port.owner.Some? {
      var k := n.tx.port.owner.value;
      var es := LockCanBeReleased(n.tx, k);
      ReleasedIsKept(n.tx, AfterEvents(n.tx, k, es), k);
      WritesRun(n, k, es);
      xs := Writes(k, es);
    }
  }

  lemma NothingHappens(n: Net)
    requires WellOwned(n.tx)
    ensures NetRun(n, []) && NetAfter(n, []) == n && (n.tx.port.owner.None? ==> Kept(n.tx, n.tx))
  {
  }

  lemma ReleasedIsKept(s: Sys, s': Sys, k: nat)
    requires WellOwned(s) && Released(s.conns, s'.conns, k) && s'.epochs == s.epochs && s.port.owner == Some(k)
    ensures Kept(s, s')
  {
  }

  lemma TxOwned(n: Net)
    requires NetInv(n)
    ensures WellOwned(n.tx)
  {
  }

  /** The same writers with the same bytes accepted; one that was buffering or flushing is
      buffering, and if it was flushing its packet is gone. */
  ghost predicate Kept(s: Sys, s': Sys) {
    && |s'.conns| == |s.conns| && s'.epochs == s.epochs
    && (forall i :: 0 <= i < |s.conns| ==>
          && s'.conns[i].addr == s.conns[i].addr && s'.conns[i].pushed == s.conns[i].pushed
          && s'.conns[i].dialled == s.conns[i].dialled
          && (s.conns[i].phase.Buffering? || s.conns[i].phase.Flushing? ==> s'.conns[i].phase.Buffering?))
  }

  /** A buffering connection can send its packet when the lock is free. */
  lemma PacketCanBeSent(s: Sys, i: nat) returns (es: seq<Event>)
    requires WellOwned(s) && s.port.owner.None? && i < |s.conns| && s.conns[i].phase.Buffering?
    ensures EventRun(s, i, es) && AllQuiet(es)
    ensures var s' := AfterEvents(s, i, es);
            Kept(s, s') && s'.conns[i].phase.Buffering? && s'.conns[i].payload == []
  {
    var s1 := Act(s, Do(i, Grant));
    OwnedKept(s, Do(i, Grant));
    var rest := LockCanBeReleased(s1, i);
    es := [Grant] + rest;
    assert es[1..] == rest;
  }

  lemma KeptTwice(s: Sys, t: Sys, u: Sys)
    requires Kept(s, t) && Kept(t, u)
    ensures Kept(s, u)
  {
  }

  lemma KeptGoesOn(n: Net, n': Net)
    requires NetInv(n) && n' == n.(tx := n'.tx) && Kept(n.tx, n'.tx)
    ensures GoesOn(n, n')
  {
    ValidOf(n);
  }

  /** What is left to say when everything sent has been taken. */
  lemma AllArrived(n: Net, i: nat, j: nat)
    requires NetInv(n) && Paired(n, i, j) && n.rx.entries[j].alive && n.taken == |n.Wire()|
    requires n.tx.conns[i].phase.Buffering? && n.tx.conns[i].payload == []
    ensures n.tx.conns[i].pushed == n.rx.entries[j].got + n.rx.entries[j].buffer.Contents()
  {
    ConservedNow(n, i, j);
    var a, e := n.tx.conns[i].addr, n.tx.epochs[i];
    assert n.Wire()[n.taken..] == [];
    assert n.InFlight(a, e) == [] && n.tx.conns[i].Unsent() == [];
    hide NetInv;
    var all := n.rx.entries[j].got + n.rx.entries[j].buffer.Contents();
    assert all + [] + [] == all;
  }

  /** Every byte accepted can arrive: from every state of every orderly run in which a writer is
      writing and its reader lives, whatever the other connections are in the middle of, there
      is a continuation, without any other connection being asked for more than to end its
      frame, after which the reader has got or buffered all the writer had accepted; unless a
      full buffer or a full channel holds up the stream. */
  lemma AcceptedCanArrive(n: Net, i: nat, j: nat) returns (xs: seq<Step>)
    requires NetInv(n) && Safe(n.rx) && Paired(n, i, j) && n.rx.entries[j].alive
    requires n.tx.conns[i].phase.Buffering? || n.tx.conns[i].phase.Flushing?
    ensures NetRun(n, xs)
    ensures var n' := NetAfter(n, xs);
            && Paired(n', i, j) && n'.rx.entries[j].alive && n'.tx.conns[i].pushed == n.tx.conns[i].pushed
            && (HeldUp(n'.rx) ||
                n.tx.conns[i].pushed == n'.rx.entries[j].got + n'.rx.entries[j].buffer.Contents())
  {
    var xs1 := LockCanBeFree(n);
    var n1 := NetAfter(n, xs1);
    TxOwned(n1);
    var es := PacketCanBeSent(n1.tx, i);
    KeptTwice(n.tx, n1.tx, AfterEvents(n1.tx, i, es));
    hide NetInv, NetRun, NetAfter, EventRun, AfterEvents, WellOwned, Safe, HeldUp, Rx.Valid;
    WritesRun(n1, i, es);
    NetConcat(n, xs1, Writes(i, es));
    var n2 := NetAfter(n1, Writes(i, es));
    KeptGoesOn(n, n2);
    hide Kept;
    var xs3 := WireCanBeTaken(n2);
    var n3 := NetAfter(n2, xs3);
    NetConcat(n, xs1 + Writes(i, es), xs3);
    xs := xs1 + Writes(i, es) + xs3;
    PairedStays(n, n2, i, j);
    PairedStays(n2, n3, i, j);
    if n3.taken == |n3.Wire()| {
      AllArrived(n3, i, j);
    }
  }
}
