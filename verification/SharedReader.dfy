/** src/read.rs as it runs: the shared reader updated in place by its polls, and the reads of
    a connection, which drive the shared reader when they find nothing to return. */
module SharedReaders {
  import opened Protocol
  import opened Demux
  import opened Readers

  /** Does this state ask the TCP reader for bytes? */
  predicate Asks(s: State) {
    s.Reading? || s.NextPacket?
  }

  /** `ReaderMut::poll`: polls on while there is progress. `script` are the TCP reader's
      answers, in order; when none is left it is not ready. */
  function PollAll(rx: Rx, script: seq<Buf.ReadAnswer>): (r: Polled)
    requires rx.Valid()
    ensures r.rx.Valid() && !r.outcome.Progress?
    decreases |script|, if rx.state.SendSocket? then 1 else 0
  {
    if Asks(rx.state) && script == [] then Polled(rx, Pending, [])
    else
      var answer := if Asks(rx.state) then script[0] else Buf.Stalled;
      PollRefines(rx, answer);
      var p := PollOnce(rx, answer);
      if p.outcome.Progress? then
        var q := PollAll(p.rx, if Asks(rx.state) then script[1..] else script);
        q.(used := p.used + q.used)
      else p
  }

  /** Without asking the TCP reader there is progress only once. */
  lemma HandOffOnce(rx: Rx, answer: Buf.ReadAnswer)
    requires rx.Valid() && !Asks(rx.state) && PollOnce(rx, answer).outcome.Progress?
    ensures rx.state.SendSocket? && !PollOnce(rx, answer).rx.state.SendSocket?
  {
  }

  /** With nobody listening, a connection on its way to the channel is dropped first. */
  function Settled(rx: Rx): Rx
    requires rx.Valid()
  {
    if rx.state.SendSocket? && !rx.listener then HandOff(rx).rx else rx
  }

  /** A whole poll does to the registrations what its bytes do one at a time, however the
      TCP reader cut them; running into the end of the stream only stops the reader. */
  lemma {:induction false} PollAllFeeds(rx: Rx, script: seq<Buf.ReadAnswer>)
    requires rx.Valid()
    ensures Settled(rx).Valid()
    ensures var r := PollAll(rx, script);
            Abs(r.rx) == if r.outcome.Fatal? then Apply(Feed(Abs(Settled(rx)), r.used), Stop)
                         else Feed(Abs(Settled(rx)), r.used)
    decreases |script|, if rx.state.SendSocket? then 1 else 0
  {
    hide Abs, PollRead, PollNextPacket, Trace;
    PollRefines(rx, Buf.Stalled);
    if !(Asks(rx.state) && script == []) {
      var answer := if Asks(rx.state) then script[0] else Buf.Stalled;
      var p := PollOnce(rx, answer);
      PollRefines(rx, answer);
      PollOnceFeeds(rx, answer);
      if p.outcome.Progress? {
        var rest := if Asks(rx.state) then script[1..] else script;
        PollAllFeeds(p.rx, rest);
        FeedConcat(Abs(Settled(rx)), p.used, PollAll(p.rx, rest).used);
      }
    }
  }

  lemma PollOnceFeeds(rx: Rx, answer: Buf.ReadAnswer)
    requires rx.Valid()
    ensures Settled(rx).Valid() && PollOnce(rx, answer).rx.Valid()
    ensures var p := PollOnce(rx, answer);
            && (p.outcome.Progress? ==> Settled(p.rx) == p.rx)
            && Abs(p.rx) == (if p.outcome.Fatal? then Apply(Feed(Abs(Settled(rx)), p.used), Stop)
                             else Feed(Abs(Settled(rx)), p.used))
  {
    if rx.state.Reading? {
      ReadRefines(rx, answer);
    } else if rx.state.NextPacket? {
      NextPacketRefines(rx, answer);
    } else {
      PollRefines(rx, answer);
    }
  }

  /** How a read of `want` bytes on a connection ends; `Got([])` is the end of the stream,
      or nothing for a read of no bytes. */
  datatype ReadResult = Got(bytes: seq<Byte>) | NotYet | Broke

  /** `ReaderInner::poll_read`. */
  function ReadFrom(rx: Rx, id: nat, want: nat, script: seq<Buf.ReadAnswer>): (r: (Rx, ReadResult))
    requires rx.Valid() && CanDo(rx, Take(id, want))
  {
    if want == 0 then (rx, Got([]))
    else
      var bytes := rx.entries[id].buffer.Taken(want);
      if bytes != [] then (Exec(rx, Take(id, want)), Got(bytes))
      else if !rx.Mapped(id) then (rx, Got([]))
      else
        var p := PollAll(rx, script);
        (p.rx, if p.outcome.Pending? then NotYet else Broke)
  }

  /** A nonempty read reports the end of the stream exactly when the buffer is empty and the
      map no longer leads to it; buffered bytes come first, also after a fatal error. */
  lemma ReadReports(rx: Rx, id: nat, want: nat, script: seq<Buf.ReadAnswer>)
    requires rx.Valid() && CanDo(rx, Take(id, want)) && want > 0
    ensures ReadFrom(rx, id, want, script).1 == Got([]) <==> rx.entries[id].buffer.Contents() == [] && !rx.Mapped(id)
    ensures var c := rx.entries[id].buffer.Contents();
            c != [] ==> ReadFrom(rx, id, want, script).1 == Got(c[..Min(want, |c|)])
  {
    var c := rx.entries[id].buffer.Contents();
    assert c != [] ==> c[..Min(want, |c|)] != [];
  }

  /** End of stream over every run: a registration that was live reports it exactly when the
      run contains the closing header for its address and everything that was ever delivered
      to it has been read. */
  lemma {:induction false} EndOfStreamExact(rx: Rx, ops: seq<Op>, id: nat, want: nat, script: seq<Buf.ReadAnswer>)
    requires rx.Valid() && rx.Mapped(id) && CanRun(rx, ops) && want > 0
    requires Run(rx, ops).Valid() && CanDo(Run(rx, ops), Take(id, want))
    ensures ReadFrom(Run(rx, ops), id, want, script).1 == Got([]) <==>
              && (exists k :: 0 <= k < |Traces(rx, ops)|
                    && Closes(Replay(Abs(rx), Traces(rx, ops)[..k]), Traces(rx, ops)[k], rx.entries[id].addr))
              && id < |Replay(Abs(rx), Traces(rx, ops)).regs|
              && Replay(Abs(rx), Traces(rx, ops)).regs[id].data == Run(rx, ops).entries[id].got
  {
    hide ReadFrom, Traces, Run, CanRun;
    var rx', es := Run(rx, ops), Traces(rx, ops);
    RunRefines(rx, ops);
    CutOffByClose(Abs(rx), es, id);
    assert rx'.Mapped(id) <==> Abs(rx').Mapped(id);
    assert Abs(rx').regs[id].data == rx'.entries[id].got + rx'.entries[id].buffer.Contents();
    ReadReports(rx', id, want, script);
  }

  /** How one poll of an `accept` ends. */
  datatype AcceptResult = Accepted(id: nat) | NoneYet | Died

  /** `MuxListener::accept`: the oldest connection in the channel; if there is none the call
      drives the shared reader. */
  function AcceptFrom(rx: Rx, script: seq<Buf.ReadAnswer>): (r: (Rx, AcceptResult))
    requires rx.Valid() && rx.listener
  {
    if rx.chan != [] then (Exec(rx, Accept), Accepted(rx.chan[0]))
    else
      var p := PollAll(rx, script);
      (p.rx, if p.outcome.Pending? then NoneYet else Died)
  }

  /** An accept hands out the oldest connection opened by a header and not accepted so far,
      and does so exactly when the channel has one. */
  lemma AcceptsOldest(rx: Rx, script: seq<Buf.ReadAnswer>)
    requires rx.Valid() && rx.listener && InOrder(rx)
    ensures var (rx', r) := AcceptFrom(rx, script);
            && (r.Accepted? <==> rx.chan != [])
            && (r.Accepted? ==>
                  && |rx.accepted| < |HeaderIds(rx.entries)| && r.id == HeaderIds(rx.entries)[|rx.accepted|]
                  && rx'.accepted == rx.accepted + [r.id] && rx'.entries == rx.entries)
  {
    if rx.chan != [] {
      assert (rx.accepted + rx.Waiting())[|rx.accepted|] == rx.chan[0];
    }
  }

  // ---------------------------------------------------------------- calls as runs

  /** The polls a call of `poll` is made of. */
  ghost function Polls(rx: Rx, script: seq<Buf.ReadAnswer>): seq<Op>
    requires rx.Valid()
    decreases |script|, if rx.state.SendSocket? then 1 else 0
  {
    if Asks(rx.state) && script == [] then []
    else
      var answer := if Asks(rx.state) then script[0] else Buf.Stalled;
      PollRefines(rx, answer);
      var p := PollOnce(rx, answer);
      [Poll(answer)] + if p.outcome.Progress? then Polls(p.rx, if Asks(rx.state) then script[1..] else script) else []
  }

  /** A call of `poll` is a run of the reading side in which only polls happen: what is proved
      of all runs holds of calls. */
  lemma {:induction false} PollIsRun(rx: Rx, script: seq<Buf.ReadAnswer>)
    requires rx.Valid()
    ensures CanRun(rx, Polls(rx, script)) && Run(rx, Polls(rx, script)) == PollAll(rx, script).rx
    ensures forall k :: 0 <= k < |Polls(rx, script)| ==> Polls(rx, script)[k].Poll?
    decreases |script|, if rx.state.SendSocket? then 1 else 0
  {
    hide PollOnce;
    if !(Asks(rx.state) && script == []) {
      var answer := if Asks(rx.state) then script[0] else Buf.Stalled;
      PollRefines(rx, answer);
      if !Asks(rx.state) && PollOnce(rx, answer).outcome.Progress? {
        HandOffOnce(rx, answer);
      }
      var p, rest := PollOnce(rx, answer), if Asks(rx.state) then script[1..] else script;
      if p.outcome.Progress? {
        PollIsRun(p.rx, rest);
        RunCons(rx, Poll(answer), Polls(p.rx, rest));
      } else {
        RunCons(rx, Poll(answer), []);
      }
    }
  }

  lemma RunCons(rx: Rx, op: Op, ops: seq<Op>)
    requires rx.Valid() && CanDo(rx, op) && CanRun(Exec(rx, op), ops)
    ensures CanRun(rx, [op] + ops) && Run(rx, [op] + ops) == Run(Exec(rx, op), ops)
  {
    assert ([op] + ops)[1..] == ops;
  }

  ghost function ReadOps(rx: Rx, id: nat, want: nat, script: seq<Buf.ReadAnswer>): seq<Op>
    requires rx.Valid() && CanDo(rx, Take(id, want))
  {
    if want == 0 then []
    else if rx.entries[id].buffer.Taken(want) != [] then [Take(id, want)]
    else if !rx.Mapped(id) then []
    else Polls(rx, script)
  }

  /** So is a read of a connection. */
  lemma ReadIsRun(rx: Rx, id: nat, want: nat, script: seq<Buf.ReadAnswer>)
    requires rx.Valid() && CanDo(rx, Take(id, want))
    ensures CanRun(rx, ReadOps(rx, id, want, script))
    ensures Run(rx, ReadOps(rx, id, want, script)) == ReadFrom(rx, id, want, script).0
  {
    hide Exec, PollAll, Polls;
    PollIsRun(rx, script);
    if want > 0 && rx.entries[id].buffer.Taken(want) != [] {
      RunCons(rx, Take(id, want), []);
      assert [Take(id, want)] + [] == [Take(id, want)];
    }
  }

  ghost function AcceptOps(rx: Rx, script: seq<Buf.ReadAnswer>): seq<Op>
    requires rx.Valid() && rx.listener
  {
    if rx.chan != [] then [Accept] else Polls(rx, script)
  }

  /** And an accept. */
  lemma AcceptIsRun(rx: Rx, script: seq<Buf.ReadAnswer>)
    requires rx.Valid() && rx.listener
    ensures CanRun(rx, AcceptOps(rx, script)) && Run(rx, AcceptOps(rx, script)) == AcceptFrom(rx, script).0
  {
    hide Exec, PollAll, Polls;
    PollIsRun(rx, script);
    if rx.chan != [] {
      RunCons(rx, Accept, []);
      assert [Accept] + [] == [Accept];
    }
  }

  // ---------------------------------------------------------------- the object

  class SharedReader {
    var state: State
    var socketMap: map<Addr, nat>
    var entries: seq<Entry>
    var chan: seq<nat>
    var accepted: seq<nat>
    var listener: bool
    const room: nat

    ghost function AsRx(): Rx
      reads this
    {
      Rx(state, socketMap, entries, chan, accepted, room, listener)
    }

    constructor ()
      ensures AsRx() == FRESH && AsRx().Valid()
    {
      state, socketMap, entries, chan, accepted, listener, room := NextPacket([]), map[], [], [], [], true, 1;
    }

    /** `ReaderMut::insert`: a fresh entry, unless the address is in use. */
    method Insert(a: Addr, byHeader: bool) returns (id: Option<nat>)
      modifies this`socketMap, this`entries
      ensures a in old(socketMap) ==> id.None? && AsRx() == old(AsRx())
      ensures a !in old(socketMap) ==> id == Some(old(|entries|)) && AsRx() == Readers.Insert(old(AsRx()), a, byHeader)
    {
      if a in socketMap {
        return None;
      }
      var n := |entries|;
      entries := entries + [Entry(a, Buf.View(0, []), true, [], byHeader)];
      socketMap := socketMap[a := n];
      return Some(n);
    }

    /** `SharedReader::add_connection`. */
    method AddConnection(a: Addr) returns (id: Option<nat>)
      requires AsRx().Valid()
      modifies this`socketMap, this`entries
      ensures AsRx() == Exec(old(AsRx()), Add(a))
      ensures id.Some? <==> a !in old(socketMap)
      ensures id.Some? ==> AsRx().Mapped(id.value) && id.value == |old(entries)|
    {
      id := Insert(a, false);
    }

    /** `ReaderMut::remove`. */
    method Remove(a: Addr)
      modifies this`socketMap
      ensures a !in socketMap && AsRx() == old(AsRx()).(sockets := socketMap)
      ensures forall id: nat ::
                AsRx().Mapped(id) <==> old(AsRx()).Mapped(id) && (id < |entries| ==> entries[id].addr != a)
      ensures socketMap == old(socketMap) - {a}
    {
      socketMap := socketMap - {a};
    }

    /** `ReaderMut::poll_read`. */
    method PollRead(answer: Buf.ReadAnswer) returns (o: Outcome, used: seq<Byte>)
      requires AsRx().Valid() && state.Reading?
      modifies this`state, this`entries
      ensures Polled(AsRx(), o, used) == Readers.PollRead(old(AsRx()), answer)
    {
      var owner, left := state.owner, state.left;
      if owner in socketMap && entries[socketMap[owner]].alive {
        var i := socketMap[owner];
        var e := entries[i];
        if |e.buffer.data| == CAPACITY {
          return Pending, [];
        }
        if answer.Stalled? {
          return Pending, [];
        } else if answer.Broken? {
          return IoError, [];
        }
        used := answer.bytes[..Min(|answer.bytes|, Min(left, CAPACITY - |e.buffer.data|))];
        if used != [] {
          entries := entries[i := e.(buffer := e.buffer.Fill(used))];
        }
      } else {
        if answer.Stalled? {
          return Pending, [];
        } else if answer.Broken? {
          return IoError, [];
        }
        used := answer.bytes[..Min(|answer.bytes|, left)];
      }
      if |used| == 0 {
        state := Error;
        return Fatal, [];
      }
      if |used| == left {
        state := NextPacket([]);
      } else {
        state := Reading(owner, left - |used|);
      }
      o := Progress;
    }

    /** `ReaderMut::poll_next_packet`. */
    method PollNextPacket(answer: Buf.ReadAnswer) returns (o: Outcome, used: seq<Byte>)
      requires AsRx().Valid() && state.NextPacket?
      modifies this`state, this`socketMap, this`entries
      ensures Polled(AsRx(), o, used) == Readers.PollNextPacket(old(AsRx()), answer)
    {
      if answer.Stalled? {
        return Pending, [];
      } else if answer.Broken? {
        return IoError, [];
      }
      used := answer.bytes[..Min(|answer.bytes|, HEADER_SIZE - |state.header|)];
      if |used| == 0 {
        state := Error;
        return Fatal, [];
      }
      var header := state.header + used;
      if |header| < HEADER_SIZE {
        state := NextPacket(header);
        return Pending, used;
      }
      var a, len := HeaderAddr(header), HeaderLen(header);
      if len > 0 {
        state := Reading(a, len);
      } else if a in socketMap {
        Remove(a);
        state := NextPacket([]);
      } else if !listener {
        state := NextPacket([]);
      } else {
        var id := Insert(a, true);
        state := SendSocket(id.value);
      }
      o := Progress;
    }

    /** `ReaderMut::poll_once`. */
    method PollOnce(answer: Buf.ReadAnswer) returns (o: Outcome, used: seq<Byte>)
      requires AsRx().Valid()
      modifies this
      ensures Polled(AsRx(), o, used) == Readers.PollOnce(old(AsRx()), answer)
    {
      match state
      case Reading(_, _) => o, used := PollRead(answer);
      case NextPacket(_) => o, used := PollNextPacket(answer);
      case SendSocket(id) =>
        if !listener {
          entries := entries[id := entries[id].(alive := false)];
        } else if |chan| < room {
          chan := chan + [id];
        } else {
          return Pending, [];
        }
        state := NextPacket([]);
        return Progress, [];
      case Error => return Fatal, [];
    }

    /** `ReaderMut::poll`. */
    method Poll(script: seq<Buf.ReadAnswer>) returns (o: Outcome, used: seq<Byte>)
      requires AsRx().Valid()
      modifies this
      ensures Polled(AsRx(), o, used) == PollAll(old(AsRx()), script)
    {
      hide Readers.PollOnce, Rx.Valid;
      var rest := script;
      used := [];
      while true
        invariant AsRx().Valid()
        invariant PollAll(old(AsRx()), script) == PollAll(AsRx(), rest).(used := used + PollAll(AsRx(), rest).used)
        decreases |rest|, if state.SendSocket? then 1 else 0
      {
        ghost var rx := AsRx();
        if Asks(state) && rest == [] {
          assert used + [] == used;
          return Pending, used;
        }
        var asks := Asks(state);
        var answer := if asks then rest[0] else Buf.Stalled;
        PollRefines(rx, answer);
        var now: seq<Byte>;
        o, now := PollOnce(answer);
        rest := if asks then rest[1..] else rest;
        ghost var before := used;
        used := used + now;
        if !o.Progress? {
          return;
        }
        if !asks {
          HandOffOnce(rx, answer);
        }
        Assoc(before, now, PollAll(AsRx(), rest).used);
      }
    }

    /** `MuxListener::accept`, polled once. */
    method PollAccept(script: seq<Buf.ReadAnswer>) returns (r: AcceptResult)
      requires AsRx().Valid() && listener
      modifies this
      ensures (AsRx(), r) == AcceptFrom(old(AsRx()), script)
    {
      if chan != [] {
        var id := chan[0];
        accepted, chan := accepted + [id], chan[1..];
        return Accepted(id);
      }
      var o, used := Poll(script);
      return if o.Pending? then NoneYet else Died;
    }

    /** `ReaderInner::poll_read`. */
    method ReadInto(id: nat, want: nat, script: seq<Buf.ReadAnswer>) returns (r: ReadResult)
      requires AsRx().Valid() && CanDo(AsRx(), Take(id, want))
      modifies this
      ensures (AsRx(), r) == ReadFrom(old(AsRx()), id, want, script)
    {
      if want == 0 {
        return Got([]);
      }
      var bytes := entries[id].buffer.Taken(want);
      if bytes != [] {
        entries := entries[id := TakeFrom(entries[id], want)];
        return Got(bytes);
      }
      if !(entries[id].addr in socketMap && socketMap[entries[id].addr] == id) {
        return Got([]);
      }
      var o, used := Poll(script);
      return if o.Pending? then NotYet else Broke;
    }
  }
}
