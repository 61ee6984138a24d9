/** src/write.rs and src/poll_mutex.rs as they run: objects updated in place, each call
    proved against the function that says what the call does. */
module WriteInners {
  import opened Protocol
  import opened Packets
  import opened Connections
  import opened WritePolls

  datatype TcpResult = Wrote(n: nat) | NotReady | IoError

  /** The TCP writer inside its mutex, and the answers the outside world will give. */
  class SharedWriter {
    var owner: Option<nat>
    var wire: seq<Byte>
    var script: seq<Answer>

    /** Takes a prefix of `bytes`, or nothing. */
    method PollWrite(bytes: seq<Byte>) returns (r: TcpResult)
      modifies this`wire, this`script
      ensures r.Wrote? ==> r.n <= |bytes| && wire == old(wire) + bytes[..r.n]
      ensures !r.Wrote? ==> wire == old(wire)
      ensures r == (if old(script) == [] then NotReady
                    else match old(script)[0]
                      case Took(n) => Wrote(Min(n, |bytes|))
                      case Broken => IoError
                      case _ => NotReady)
      ensures script == if old(script) == [] then [] else old(script)[1..]
    {
      if script == [] {
        return NotReady;
      }
      var answer := script[0];
      script := script[1..];
      match answer
      case Took(n) =>
        wire := wire + bytes[..Min(n, |bytes|)];
        return Wrote(Min(n, |bytes|));
      case Broken => return IoError;
      case _ => return NotReady;
    }

    /** Polls for the lock once. */
    method TryLock(who: nat) returns (granted: bool)
      modifies this`owner, this`script
      ensures granted <==> old(script) != [] && old(script)[0].Granted? && old(owner).None?
      ensures owner == if granted then Some(who) else old(owner)
      ensures script == if old(script) == [] then [] else old(script)[1..]
    {
      granted := script != [] && script[0].Granted? && owner.None?;
      if granted {
        owner := Some(who);
      }
      script := if script == [] then [] else script[1..];
    }
  }

  class WriteInner {
    const mutex: SharedWriter
    const buffer: PacketBuffer
    const id: nat
    const dialled: bool
    var fut: bool
    var state: Phase
    ghost var pushed: seq<Byte>

    ghost predicate Valid()
      reads this, buffer
    {
      buffer.Valid()
    }

    ghost function AsConn(): Conn
      requires Valid()
      reads this, buffer, buffer.data
    {
      Conn(id, buffer.socketAddr, dialled, buffer.Payload(), state, fut, pushed)
    }

    ghost function AsLocal(): Local
      requires Valid()
      reads this, buffer, buffer.data, mutex
    {
      Local(AsConn(), Port(mutex.owner, mutex.wire), mutex.script)
    }

    /** A writer for `add_connection`, whose handshake is still to come, or for `accept`. */
    constructor (mutex: SharedWriter, id: nat, addr: Addr, dialled: bool)
      ensures Valid() && fresh(buffer) && fresh(buffer.data) && this.mutex == mutex
      ensures AsConn() == if dialled then Dial(id, addr) else Respond(id, addr)
    {
      this.mutex := mutex;
      buffer := new PacketBuffer(addr);
      this.id, this.dialled := id, dialled;
      fut, state, pushed := false, if dialled then Opening else Buffering, [];
    }

    /** `PollMutex::poll_lock`. */
    method PollLock() returns (granted: bool)
      requires Valid() && (state.Buffering? || state.CloseWaiting?) && AsLocal().Owned()
      modifies this`fut, this`state, mutex`owner, mutex`script
      ensures Valid() && AsLocal() == WritePolls.PollLock(old(AsLocal()))
      ensures granted <==> AsConn().Holds()
    {
      ghost var l := AsLocal();
      assert l.p.wire + [] == l.p.wire;
      granted := false;
      if !fut {
        granted := mutex.TryLock(id);
        fut := !granted;
      }
      if !granted {
        granted := mutex.TryLock(id);
        fut := !granted;
      }
      if granted {
        state := if state.Buffering? then Flushing(0) else CloseFlushing(0);
      }
    }

    /** The frame bytes from `sent` on, offered until they are gone. */
    method SendFrom(written: nat) returns (sent: nat, o: FlushOutcome)
      requires Valid() && written <= HEADER_SIZE + buffer.PacketSize()
      modifies mutex`wire, mutex`script
      ensures var f := Pump(buffer.Bytes(), written, old(mutex.script));
              sent == f.sent && o == f.outcome && mutex.script == f.script
      ensures mutex.wire == old(mutex.wire) + buffer.Bytes()[written..sent]
    {
      ghost var out := buffer.Bytes();
      sent := written;
      assert out[written..sent] == [];
      while true
        invariant written <= sent <= |out|
        invariant mutex.wire == old(mutex.wire) + out[written..sent]
        invariant Pump(out, sent, mutex.script) == Pump(out, written, old(mutex.script))
        decreases |out| - sent
      {
        var bytes := buffer.BytesFrom(sent);
        if |bytes| == 0 {
          return sent, Flushed;
        }
        var r := mutex.PollWrite(bytes);
        match r
        case Wrote(n) =>
          if n == 0 {
            return sent, Lost;
          }
          TakeOfDrop(out, sent, n);
          SliceJoin(out, written, sent, sent + n);
          Assoc(old(mutex.wire), out[written..sent], out[sent..sent + n]);
          sent := sent + n;
        case IoError => return sent, Lost;
        case NotReady => return sent, Stuck;
      }
    }

    /** `flush_buf`: a frame that is gone leaves an empty packet behind. */
    method FlushBuf() returns (o: FlushOutcome)
      requires Valid() && AsLocal().Owned() && Sending(AsConn())
      requires buffer.Bytes() == AsConn().Out()
      modifies this`state, mutex`wire, mutex`script, buffer`len
      ensures Valid()
      ensures var l := old(AsLocal()); o == Pump(l.c.Out(), l.c.Sent(), l.script).outcome
      ensures !o.Flushed? ==> AsLocal() == Pushed(old(AsLocal()))
      ensures o.Flushed? ==> AsLocal() == Pushed(old(AsLocal())).(c := Pushed(old(AsLocal())).c.(payload := []))
    {
      ghost var l := AsLocal();
      var sent: nat;
      sent, o := SendFrom(state.sent);
      PushedAt(l, sent);
      hide Pump, Pushed, Sending, Conn.Ok, Conn.Out;
      state := Advance(state, sent - state.sent);
      assert AsLocal() == Pushed(l);
      if o.Flushed? {
        buffer.Clear();
      }
    }

    /** The lock guard goes out of scope. */
    method Unlock()
      modifies mutex`owner
      ensures mutex.owner == None
    {
      mutex.owner := None;
    }

    /** `handshake`, polled once: wait for the lock, then write all of the empty packet. */
    method PollHandshake() returns (r: PollResult)
      requires Valid() && AsLocal().Valid() && (state.Opening? || state.Handshaking?)
      modifies this`state, mutex, buffer`len
      ensures Valid()
      ensures (AsLocal(), r) == WritePolls.PollHandshake(old(AsLocal()))
    {
      ghost var l := AsLocal();
      assert l.p.wire + [] == l.p.wire;
      if state.Opening? {
        var granted := mutex.TryLock(id);
        if !granted {
          return Waiting;
        }
        state := Handshaking(0);
      }
      ghost var m := AsLocal();
      assert m.Owned();
      var o := FlushOpening();
      return match o case Flushed => Done case Stuck => Waiting case Lost => Failed;
    }

    /** The `write_all` of the handshake; afterwards the lock guard goes out of scope, and with
        a failed handshake so does the writer. */
    method FlushOpening() returns (o: FlushOutcome)
      requires Valid() && AsLocal().Owned() && Sending(AsConn()) && state.Handshaking?
      modifies this`state, mutex, buffer`len
      ensures Valid() && (AsLocal(), o) == WritePolls.Flush(old(AsLocal()))
    {
      ghost var l := AsLocal();
      FlushAt(l);
      o := FlushBuf();
      hide WritePolls.Flush, Pushed, Pump;
      if !o.Stuck? {
        state := if o.Flushed? then Buffering else AbortWaiting;
        Unlock();
      }
    }

    /** The `flush!` of poll_write: a flush that ends releases the lock. */
    method Flush() returns (o: FlushOutcome)
      requires Valid() && AsLocal().Owned() && Sending(AsConn()) && state.Flushing?
      modifies this`state, mutex, buffer`len
      ensures Valid() && (AsLocal(), o) == WritePolls.Flush(old(AsLocal()))
    {
      ghost var l := AsLocal();
      FlushAt(l);
      o := FlushBuf();
      hide WritePolls.Flush, Pushed, Pump;
      if !o.Stuck? {
        state := Buffering;
        Unlock();
      }
    }

    /** The `push!` of poll_write. */
    method Push(buf: seq<Byte>, written: nat) returns (n: nat)
      requires Valid() && AsLocal().Valid() && AsLocal().Writing() && written == AsConn().Sent()
      modifies this`pushed, buffer`len, buffer.data
      ensures Valid()
      ensures n == Min(|buf|, Room(old(AsConn())))
      ensures AsLocal() == Append(old(AsLocal()), buf[..n])
    {
      n := buffer.Push(buf, written);
      pushed := pushed + buf[..n];
    }

    /** One turn of the loop of poll_write: takes `n` bytes and goes on, or returns. */
    method WriteTurn(buf: seq<Byte>, wrote: nat) returns (n: nat, ended: Option<WriteResult>)
      requires Valid() && AsLocal().Valid() && AsLocal().Writing() && buf != []
      modifies this`fut, this`state, this`pushed, mutex, buffer`len, buffer.data
      ensures Valid()
      ensures var t := WritePolls.WriteTurn(old(AsLocal()), buf, wrote);
              AsLocal() == t.l && n == t.taken && ended == if t.Again? then None else Some(t.result)
    {
      hide WritePolls.Flush, WritePolls.PollLock, Append;
      ghost var l := AsLocal();
      var o: FlushOutcome;
      if state.Flushing? {
        n := 0;
        if buffer.MustFlushFor(state.sent) {
          NothingToAppend(l, buf);
        } else {
          n := Push(buf, state.sent);
        }
        o := Flush();
        match o
        case Flushed => return n, None;
        case Stuck => return n, Some(if wrote + n != 0 then Ready(wrote + n) else Pending(wrote + n));
        case Lost => return n, Some(Error(wrote + n));
      }
      if buffer.IsFull() {
        var granted := PollLock();
        if !granted {
          return 0, Some(Pending(wrote));
        }
        o := Flush();
        match o {
          case Flushed =>
          case Stuck => return 0, Some(if wrote != 0 then Ready(wrote) else Pending(wrote));
          case Lost => return 0, Some(Error(wrote));
        }
      }
      n := Push(buf, 0);
      return n, None;
    }

    /** `poll_write`. */
    method PollWrite(input: seq<Byte>) returns (r: WriteResult)
      requires Valid() && AsLocal().Valid() && AsLocal().Callable()
      modifies this`fut, this`state, this`pushed, mutex, buffer`len, buffer.data
      ensures Valid()
      ensures (AsLocal(), r) == WritePolls.PollWrite(old(AsLocal()), input, 0)
    {
      hide WritePolls.WriteTurn;
      if Closing(state) {
        return Error(0);
      }
      var buf, wrote := input, 0;
      while buf != []
        invariant Valid() && AsLocal().Valid() && AsLocal().Writing()
        invariant WritePolls.PollWrite(AsLocal(), buf, wrote) == WritePolls.PollWrite(old(AsLocal()), input, 0)
        decreases |buf|, if state.Flushing? then 1 else 0
      {
        var n, ended := WriteTurn(buf, wrote);
        if ended.Some? {
          return ended.value;
        }
        buf, wrote := buf[n..], wrote + n;
      }
      return Ready(wrote);
    }

    /** `poll_flush`; the TCP writer's own flush has nothing to do. */
    method PollFlush() returns (r: PollResult)
      requires Valid() && AsLocal().Valid() && AsLocal().Callable()
      modifies this`fut, this`state, mutex, buffer`len
      ensures Valid()
      ensures (AsLocal(), r) == WritePolls.PollFlush(old(AsLocal()))
    {
      hide WritePolls.Flush, WritePolls.PollLock;
      if Closing(state) {
        return Failed;
      }
      if state.Buffering? {
        var granted := PollLock();
        if !granted {
          return Waiting;
        }
      }
      ghost var m := AsLocal();
      if !buffer.IsEmpty() {
        var o := Flush();
        return match o case Flushed => Done case Stuck => Waiting case Lost => Failed;
      }
      state := Buffering;
      Unlock();
      assert m.p.wire + [] == m.p.wire;
      return Done;
    }

    /** The `guarded_flush!` of poll_shutdown and the step that follows it. */
    method FlushClosing() returns (o: FlushOutcome)
      requires Valid() && AsLocal().Owned() && Sending(AsConn()) && (state.CloseFlushing? || state.CloseWriting?)
      modifies this`state, mutex, buffer`len
      ensures Valid() && (AsLocal(), o) == WritePolls.Flush(old(AsLocal()))
    {
      ghost var l := AsLocal();
      FlushAt(l);
      o := FlushBuf();
      hide WritePolls.Flush, Pushed, Pump;
      match o
      case Stuck =>
      case Lost =>
        state := CloseError;
        Unlock();
      case Flushed =>
        if state.CloseFlushing? {
          state := CloseWriting(0);
        } else {
          state := Closed;
          Unlock();
        }
    }

    /** One turn of the loop of poll_shutdown. */
    method CloseTurn() returns (ended: Option<PollResult>)
      requires Valid() && AsLocal().Valid() && Closing(state)
      modifies this`fut, this`state, mutex, buffer`len
      ensures Valid()
      ensures (AsLocal(), ended) == WritePolls.CloseTurn(old(AsLocal()))
    {
      hide WritePolls.Flush, WritePolls.PollLock;
      ghost var l := AsLocal();
      if state.CloseWaiting? {
        var granted := PollLock();
        return if granted then None else Some(Waiting);
      } else if state.Closed? {
        return Some(Done);
      } else if state.CloseError? {
        return Some(Failed);
      } else if state.CloseFlushing? && buffer.IsEmpty() {
        state := CloseWriting(0);
        assert l.p.wire + [] == l.p.wire;
        return None;
      } else {
        var o := FlushClosing();
        return match o case Flushed => None case Stuck => Some(Waiting) case Lost => Some(Failed);
      }
    }

    /** `poll_shutdown`. */
    method PollShutdown() returns (r: PollResult)
      requires Valid() && AsLocal().Valid() && AsLocal().Callable()
      modifies this`fut, this`state, mutex, buffer`len
      ensures Valid()
      ensures (AsLocal(), r) == WritePolls.PollShutdown(old(AsLocal()))
    {
      hide WritePolls.CloseTurn;
      ghost var l := AsLocal();
      BeginShutdown();
      while true
        invariant Valid() && AsLocal().Valid() && Closing(state)
        invariant PollClose(AsLocal()) == WritePolls.PollShutdown(l)
        decreases Rank(state)
      {
        var ended := CloseTurn();
        if ended.Some? {
          return ended.value;
        }
      }
    }

    /** `drop`: a connection that was not shut down leaves its lock or its request for it, and
        what is left of a begun frame, to the future that sends its close; in the middle of a
        shutdown the lock is just released. */
    method Drop()
      requires Valid() && AsLocal().Valid() && AsLocal().Callable()
      modifies this`fut, this`state, mutex`owner
      ensures Valid() && AsLocal() == old(AsLocal()).Do(Event.Drop)
    {
      ghost var l := AsLocal();
      assert l.p.wire + [] == l.p.wire;
      if state.Buffering? {
        state := DropWaiting;
        return;
      }
      fut := false;
      if state.Flushing? {
        state := if state.sent == 0 then DropWriting(0) else DropFlushing(state.sent);
      } else if !state.Closed? {
        if state.CloseFlushing? || state.CloseWriting? {
          Unlock();
        }
        state := Abandoned;
      }
    }

    /** Writing becomes shutting down; a lock that is held stays held. */
    method BeginShutdown()
      requires Valid() && AsLocal().Valid() && AsLocal().Callable()
      modifies this`state
      ensures Valid()
      ensures AsLocal() == if old(AsLocal()).Writing() then old(AsLocal()).Do(Shutdown) else old(AsLocal())
    {
      ghost var l := AsLocal();
      assert l.p.wire + [] == l.p.wire;
      if state.Buffering? {
        state := CloseWaiting;
      } else if state.Flushing? {
        state := CloseFlushing(state.sent);
      }
    }
  }

  /** Where `Pushed` has got to, once it is known how many bytes went. */
  lemma PushedAt(l: Local, sent: nat)
    requires l.Owned() && Sending(l.c) && sent == Pump(l.c.Out(), l.c.Sent(), l.script).sent
    ensures l.c.Sent() == l.c.phase.sent <= sent <= |l.c.Out()|
    ensures Pushed(l) == Local(l.c.(phase := Advance(l.c.phase, sent - l.c.phase.sent)),
                               l.p.(wire := l.p.wire + l.c.Out()[l.c.Sent()..sent]),
                               Pump(l.c.Out(), l.c.Sent(), l.script).script)
  {
    assert sent == l.c.Sent() ==> l.p.wire + l.c.Out()[l.c.Sent()..sent] == l.p.wire;
  }

  /** Where `Flush` has got to after `Pushed`: the lock is kept only to go on to the header. */
  lemma FlushAt(l: Local)
    requires l.Owned() && Sending(l.c)
    ensures var m, o := Pushed(l), Pump(l.c.Out(), l.c.Sent(), l.script).outcome;
            && Flush(l).1 == o
            && (o.Stuck? ==> Flush(l).0 == m)
            && (o.Lost? ==> Flush(l).0 == Local(m.c.(phase := WhenFailed(l.c.phase)), m.p.(owner := None), m.script))
            && (o.Flushed? ==>
                  Flush(l).0 == Local(m.c.(phase := WhenDrained(l.c.phase), payload := if l.c.SendsPacket() then [] else m.c.payload),
                                      if l.c.phase.CloseFlushing? || l.c.phase.DropFlushing? then m.p else m.p.(owner := None),
                                      m.script))
  {
    assert Pushed(l).p.wire + [] == Pushed(l).p.wire;
  }

  lemma NothingToAppend(l: Local, buf: seq<Byte>)
    requires l.Valid() && l.Writing() && Room(l.c) == 0
    ensures Min(|buf|, Room(l.c)) == 0 && Append(l, buf[..0]) == l
  {
    assert l.c.payload + [] == l.c.payload && l.c.pushed + [] == l.c.pushed;
  }
}
