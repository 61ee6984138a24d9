/** src/write.rs: what one call of poll_write, poll_flush and poll_shutdown does, for every
    way the lock and the TCP writer can answer. */
module WritePolls {
  import opened Protocol
  import opened Packets
  import opened Connections

  /** Answers of the outside world, in the order they are asked for: the lock is granted or
      not; the TCP writer takes up to n bytes (none is an error), is not ready, or fails.
      When no answer is left the world is not ready. */
  datatype Answer = Granted | Denied | Took(n: nat) | Blocked | Broken

  /** One connection, the shared writer, and the answers still to come. */
  datatype Local = Local(c: Conn, p: Port, script: seq<Answer>) {

    function Next(): Answer {
      if script == [] then Blocked else script[0]
    }

    function Pop(): Local {
      if script == [] then this else this.(script := script[1..])
    }

    function Do(e: Event): Local
      requires Can(c, e)
    {
      Local(After(c, e), PortAfter(c, p, e), script)
    }

    /** The lock belongs to this connection exactly when its phase says so. */
    ghost predicate Owned() {
      c.Ok() && (c.Holds() <==> p.owner == Some(c.id))
    }

    ghost predicate Valid() {
      c.AtRest() && Owned()
    }

    predicate LockOffered() {
      Next().Granted? && p.owner.None?
    }

    predicate Writing() {
      c.phase.Buffering? || c.phase.Flushing?
    }

    /** The caller has the connection: its handshake is over and it was not dropped. */
    predicate Callable() {
      Writing() || Closing(c.phase)
    }
  }

  /** `PollMutex::poll_lock`: without a stored request it first tries the lock, then stores
      a request and polls it; a stored request is just polled. */
  function PollLock(l: Local): (r: Local)
    requires Can(l.c, Grant) && Can(l.c, Queue) && l.Owned()
    ensures r.Owned()
    ensures r.c.Holds() ==> l.p.owner.None? && r.c == After(l.c, Grant) && r.p == l.p.(owner := Some(l.c.id))
    ensures !r.c.Holds() ==> r.c == After(l.c, Queue) && r.p == l.p
  {
    if l.LockOffered() then l.Pop().Do(Grant)
    else if l.c.queued then l.Pop().Do(Queue)
    else
      var waiting := l.Pop().Do(Queue);
      if waiting.LockOffered() then waiting.Pop().Do(Grant) else waiting.Pop()
  }

  datatype FlushOutcome = Flushed | Stuck | Lost

  datatype Pumped = Pumped(sent: nat, script: seq<Answer>, outcome: FlushOutcome)

  /** `flush_buf`: keeps offering the rest of a frame until all of it is taken. */
  function Pump(out: seq<Byte>, sent: nat, script: seq<Answer>): (r: Pumped)
    requires sent <= |out|
    ensures sent <= r.sent <= |out|
    ensures r.outcome.Flushed? <==> r.sent == |out|
    decreases |out| - sent
  {
    if sent == |out| then Pumped(sent, script, Flushed)
    else if script == [] then Pumped(sent, script, Stuck)
    else
      match script[0]
      case Took(n) =>
        if n == 0 then Pumped(sent, script[1..], Lost) else Pump(out, sent + Min(n, |out| - sent), script[1..])
      case Broken => Pumped(sent, script[1..], Lost)
      case _ => Pumped(sent, script[1..], Stuck)
  }

  /** The bytes taken by one `flush_buf`, as an event. */
  function Pushed(l: Local): (r: Local)
    requires l.Owned() && Sending(l.c)
    ensures r.Owned() && Sending(r.c)
    ensures r.c.Sent() == Pump(l.c.Out(), l.c.Sent(), l.script).sent
    ensures r.c == l.c.(phase := Advance(l.c.phase, r.c.Sent() - l.c.Sent()))
  {
    var f := Pump(l.c.Out(), l.c.Sent(), l.script);
    if f.sent == l.c.Sent() then l.(script := f.script)
    else
      OkKept(l.c, Send(f.sent - l.c.Sent()));
      l.Do(Send(f.sent - l.c.Sent())).(script := f.script)
  }

  /** `flush_buf` and what its callers do with the result: move on, wait, or give up. */
  function Flush(l: Local): (r: (Local, FlushOutcome))
    requires l.Owned() && Sending(l.c)
    ensures r.0.Owned() && r.0.c.addr == l.c.addr && r.0.c.id == l.c.id && r.0.c.pushed == l.c.pushed
    ensures r.1.Flushed? ==> r.0.c.phase == WhenDrained(l.c.phase)
    ensures r.1.Flushed? ==> r.0.c.payload == if l.c.SendsPacket() then [] else l.c.payload
    ensures r.1.Lost? ==> r.0.c == l.c.(phase := WhenFailed(l.c.phase))
    ensures r.1.Stuck? ==> r.0.c == Pushed(l).c && r.0.c.Sent() < |r.0.c.Out()|
  {
    var m, o := Pushed(l), Pump(l.c.Out(), l.c.Sent(), l.script).outcome;
    match o
    case Flushed => OkKept(m.c, Drained); (m.Do(Drained), o)
    case Stuck => (m, o)
    case Lost => OkKept(m.c, Fail); (m.Do(Fail), o)
  }

  /** `PacketBuffer::push` of as much of `buf` as fits now. */
  function Room(c: Conn): nat
    requires |c.payload| <= PACKET_SIZE
  {
    PushLimit(|c.payload|, c.Sent())
  }

  function Append(l: Local, data: seq<Byte>): (r: Local)
    requires l.Valid() && l.Writing() && |data| <= Room(l.c)
    ensures r.c == l.c.(payload := l.c.payload + data, pushed := l.c.pushed + data)
    ensures r.Valid() && r.Writing() && r.p == l.p && r.script == l.script
  {
    OkKept(l.c, Push(data));
    assert l.p.wire + [] == l.p.wire;
    l.Do(Push(data))
  }

  /** How a call of poll_write ends; `accepted` bytes went into the packet meanwhile. */
  datatype WriteResult = Ready(accepted: nat) | Pending(accepted: nat) | Error(accepted: nat)

  /** One turn of the loop of `poll_write`: it goes on, or the call returns. */
  datatype Turn = Again(l: Local, taken: nat) | Return(l: Local, taken: nat, result: WriteResult)

  /** What one turn guarantees, whichever branch it takes. */
  ghost predicate GoodTurn(l: Local, buf: seq<Byte>, wrote: nat, r: Turn) {
    && r.l.Valid() && r.l.Writing()
    && r.taken <= |buf| && r.l.c.pushed == l.c.pushed + buf[..r.taken]
    && (r.Again? ==> r.l.c.phase.Buffering? && (r.taken > 0 || l.c.phase.Flushing?))
    && (r.Return? ==> r.result.accepted == wrote + r.taken && (r.result.Ready? ==> r.result.accepted > 0))
  }

  /** A turn that finds a flush under way: append if that is still possible, then flush. */
  function FlushingTurn(l: Local, buf: seq<Byte>, wrote: nat): (r: Turn)
    requires l.Valid() && l.c.phase.Flushing?
    ensures GoodTurn(l, buf, wrote, r)
  {
    var n := Min(|buf|, Room(l.c));
    var (f, o) := Flush(Append(l, buf[..n]));
    match o
    case Flushed => Again(f, n)
    case Stuck => Return(f, n, if wrote + n != 0 then Ready(wrote + n) else Pending(wrote + n))
    case Lost => Return(f, n, Error(wrote + n))
  }

  /** A turn that finds the packet full: get the lock and flush before appending. */
  function FullTurn(l: Local, buf: seq<Byte>, wrote: nat): (r: Turn)
    requires l.Valid() && l.c.phase.Buffering? && |l.c.payload| == PACKET_SIZE && buf != []
    ensures GoodTurn(l, buf, wrote, r)
  {
    var m := PollLock(l);
    assert l.c.pushed + buf[..0] == l.c.pushed;
    if !m.c.Holds() then Return(m, 0, Pending(wrote))
    else
      var (f, o) := Flush(m);
      match o
      case Flushed => AppendingTurn(f, buf, wrote)
      case Stuck => Return(f, 0, if wrote != 0 then Ready(wrote) else Pending(wrote))
      case Lost => Return(f, 0, Error(wrote))
  }

  function AppendingTurn(l: Local, buf: seq<Byte>, wrote: nat): (r: Turn)
    requires l.Valid() && l.c.phase.Buffering? && |l.c.payload| < PACKET_SIZE && buf != []
    ensures GoodTurn(l, buf, wrote, r) && r.Again?
  {
    var n := Min(|buf|, Room(l.c));
    Again(Append(l, buf[..n]), n)
  }

  function WriteTurn(l: Local, buf: seq<Byte>, wrote: nat): (r: Turn)
    requires l.Valid() && l.Writing() && buf != []
    ensures GoodTurn(l, buf, wrote, r)
  {
    if l.c.phase.Flushing? then FlushingTurn(l, buf, wrote)
    else if |l.c.payload| == PACKET_SIZE then FullTurn(l, buf, wrote)
    else AppendingTurn(l, buf, wrote)
  }

  /** `poll_write`, from a turn of its loop that has accepted `wrote` bytes so far and has
      `buf` left. Each turn takes input or ends a flush, so the loop terminates. A connection
      that is shutting down refuses. */
  function PollWrite(l: Local, buf: seq<Byte>, wrote: nat): (r: (Local, WriteResult))
    requires l.Valid() && l.Callable()
    ensures r.0.Valid() && r.0.Callable() && r.0.Writing() == l.Writing()
    ensures !l.Writing() ==> r == (l, Error(wrote))
    decreases |buf|, if l.c.phase.Flushing? then 1 else 0
  {
    if !l.Writing() then (l, Error(wrote))
    else if buf == [] then (l, Ready(wrote))
    else
      var t := WriteTurn(l, buf, wrote);
      if t.Return? then (t.l, t.result) else PollWrite(t.l, buf[t.taken..], wrote + t.taken)
  }

  datatype PollResult = Done | Waiting | Failed

  /** `PollMutex::lock` without a stored request: it waits for the lock. */
  function AwaitLock(l: Local): (r: Local)
    requires l.Owned() && l.c.phase.Opening?
    ensures r.Owned() && (r.c == After(l.c, Grant) || r.c == l.c)
  {
    if l.LockOffered() then l.Pop().Do(Grant) else l.Pop()
  }

  /** `handshake`, polled once: the lock, then the whole empty header. A handshake that fails
      drops its writer. */
  function PollHandshake(l: Local): (r: (Local, PollResult))
    requires l.Valid() && (l.c.phase.Opening? || l.c.phase.Handshaking?)
    ensures r.0.Valid()
    ensures r.1.Done? <==> r.0.c.phase.Buffering?
    ensures r.1.Failed? <==> r.0.c.phase.AbortWaiting?
    ensures r.1.Waiting? <==> r.0.c.phase.Opening? || r.0.c.phase.Handshaking?
  {
    var m := if l.c.phase.Opening? then AwaitLock(l) else l;
    if !m.c.Holds() then (m, Waiting)
    else
      var (f, o) := Flush(m);
      (f, match o case Flushed => Done case Stuck => Waiting case Lost => Failed)
  }

  /** `poll_flush`, over a TCP writer whose own flush has nothing to do. */
  function PollFlush(l: Local): (r: (Local, PollResult))
    requires l.Valid() && l.Callable()
    ensures r.0.Valid() && r.0.Callable() && r.0.Writing() == l.Writing()
    ensures r.1.Done? ==> r.0.c.phase.Buffering? && r.0.c.payload == []
    ensures !l.Writing() ==> r == (l, Failed)
  {
    if !l.Writing() then (l, Failed) else
    var m := if l.c.phase.Buffering? then PollLock(l) else l;
    if !m.c.Holds() then (m, Waiting)
    else if m.c.payload == [] then (m.Do(Skip), Done)
    else
      var (f, o) := Flush(m);
      (f, match o case Flushed => Done case Stuck => Waiting case Lost => Failed)
  }

  function Rank(p: Phase): nat {
    match p
    case CloseWaiting => 3
    case CloseFlushing(_) => 2
    case CloseWriting(_) => 1
    case _ => 0
  }

  /** One turn of the loop of `poll_shutdown`: it descends one step, or the call returns. */
  function CloseTurn(l: Local): (r: (Local, Option<PollResult>))
    requires l.Valid() && Closing(l.c.phase)
    ensures r.0.Valid() && Closing(r.0.c.phase)
    ensures r.1.None? ==> Rank(r.0.c.phase) < Rank(l.c.phase)
    ensures r.1.Some? ==> (r.1.value.Done? <==> r.0.c.phase.Closed?)
    ensures r.1.Some? ==> (r.1.value.Failed? <==> r.0.c.phase.CloseError?)
  {
    if l.c.phase.CloseWaiting? then
      var m := PollLock(l);
      (m, if m.c.Holds() then None else Some(Waiting))
    else if l.c.phase.Closed? then (l, Some(Done))
    else if l.c.phase.CloseError? then (l, Some(PollResult.Failed))
    else if l.c.phase.CloseFlushing? && l.c.payload == [] then (l.Do(Skip), None)
    else
      var (f, o) := Flush(l);
      (f, match o case Flushed => None case Stuck => Some(Waiting) case Lost => Some(PollResult.Failed))
  }

  /** The loop of `poll_shutdown`. */
  function PollClose(l: Local): (r: (Local, PollResult))
    requires l.Valid() && Closing(l.c.phase)
    ensures r.0.Valid() && Closing(r.0.c.phase)
    ensures r.1.Done? <==> r.0.c.phase.Closed?
    ensures r.1.Failed? <==> r.0.c.phase.CloseError?
    decreases Rank(l.c.phase)
  {
    var (m, ended) := CloseTurn(l);
    if ended.Some? then (m, ended.value) else PollClose(m)
  }

  /** `poll_shutdown`: the first call stops the writing, every call drives the closing. */
  function PollShutdown(l: Local): (r: (Local, PollResult))
    requires l.Valid() && l.Callable()
    ensures r.0.Valid() && Closing(r.0.c.phase)
    ensures r.1.Done? <==> r.0.c.phase.Closed?
    ensures r.1.Failed? <==> r.0.c.phase.CloseError?
  {
    if l.Writing() then OkKept(l.c, Shutdown); PollClose(l.Do(Shutdown)) else PollClose(l)
  }
}
