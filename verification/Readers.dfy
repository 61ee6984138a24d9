/** src/read.rs: the shared demultiplexer as it is, fed by chunks of any size, with a buffer
    per reader and a bounded channel of new connections; and its refinement of Demux. */
module Readers {
  import opened Protocol
  import opened Framing
  import opened Demux
  import Buf = ReadBuffers

  /** `DEFAULT_BUFFER_CAPACITY`. */
  const CAPACITY: nat := 2 * 0xFFFF

  /** A registered reader: its buffer, whether its `ReaderInner` still exists, and the bytes
      already read from it. */
  datatype Entry = Entry(addr: Addr, buffer: Buf.View, alive: bool, got: seq<Byte>, byHeader: bool)

  /** `SharedReaderState`. */
  datatype State = NextPacket(header: seq<Byte>) | Reading(owner: Addr, left: nat) | SendSocket(id: nat) | Error

  /** The reader state under its lock, the channel of `room` new connections, and the
      connections accepted so far; connections are numbered in order of registration. */
  datatype Rx = Rx(
    state: State,
    sockets: map<Addr, nat>,
    entries: seq<Entry>,
    chan: seq<nat>,
    accepted: seq<nat>,
    room: nat,
    listener: bool)
  {
    /** `Weak::upgrade` of the address's entry succeeds. */
    predicate Reachable(a: Addr) {
      a in sockets && sockets[a] < |entries| && entries[sockets[a]].alive
    }

    /** The weak count of an entry is not zero: the map still leads to it. */
    predicate Mapped(id: nat) {
      id < |entries| && entries[id].addr in sockets && sockets[entries[id].addr] == id
    }

    /** Opened by a header and not yet handed to the caller of `accept`. */
    function Waiting(): seq<nat> {
      chan + if state.SendSocket? then [state.id] else []
    }

    ghost predicate Valid() {
      && (match state
          case NextPacket(h) => |h| < HEADER_SIZE
          case Reading(_, left) => 0 < left <= PACKET_SIZE
          case SendSocket(id) => id < |entries|
          case Error => true)
      && (forall a :: a in sockets ==> sockets[a] < |entries| && entries[sockets[a]].addr == a)
      && (forall i :: 0 <= i < |entries| ==> entries[i].buffer.Valid(CAPACITY))
      && (forall k :: 0 <= k < |chan| ==> chan[k] < |entries|)
    }
  }

  function Insert(rx: Rx, a: Addr, byHeader: bool): Rx {
    rx.(sockets := rx.sockets[a := |rx.entries|],
        entries := rx.entries + [Entry(a, Buf.View(0, []), true, [], byHeader)])
  }

  datatype Outcome = Progress | Pending | IoError | Fatal

  datatype Polled = Polled(rx: Rx, outcome: Outcome, used: seq<Byte>)

  /** How many bytes a read in the payload state may take. */
  function Limit(rx: Rx): nat
    requires rx.state.Reading?
  {
    if rx.Reachable(rx.state.owner) then
      var filled := |rx.entries[rx.sockets[rx.state.owner]].buffer.data|;
      Min(rx.state.left, if filled <= CAPACITY then CAPACITY - filled else 0)
    else rx.state.left
  }

  /** `ReaderMut::poll_read`: payload goes to its owner's buffer, or to nobody. */
  function PollRead(rx: Rx, answer: Buf.ReadAnswer): Polled
    requires rx.Valid() && rx.state.Reading?
  {
    var owner, left := rx.state.owner, rx.state.left;
    if Limit(rx) == 0 then Polled(rx, Pending, [])
    else
      match answer
      case Stalled => Polled(rx, Pending, [])
      case Broken => Polled(rx, IoError, [])
      case Ready(bytes) =>
        var chunk := bytes[..Min(|bytes|, Limit(rx))];
        if chunk == [] then Polled(rx.(state := Error), Fatal, [])
        else Polled(Store(rx, owner, chunk).(
                      state := if |chunk| == left then NextPacket([]) else Reading(owner, left - |chunk|)),
                    Progress, chunk)
  }

  function Store(rx: Rx, a: Addr, chunk: seq<Byte>): Rx {
    if rx.Reachable(a) then
      var i := rx.sockets[a];
      rx.(entries := rx.entries[i := rx.entries[i].(buffer := rx.entries[i].buffer.Fill(chunk))])
    else rx
  }

  /** `ReaderMut::poll_next_packet`: gather a header, then act on it. */
  function PollNextPacket(rx: Rx, answer: Buf.ReadAnswer): Polled
    requires rx.Valid() && rx.state.NextPacket?
  {
    match answer
    case Stalled => Polled(rx, Pending, [])
    case Broken => Polled(rx, IoError, [])
    case Ready(bytes) =>
      var chunk := bytes[..Min(|bytes|, HEADER_SIZE - |rx.state.header|)];
      var header := rx.state.header + chunk;
      if chunk == [] then Polled(rx.(state := Error), Fatal, [])
      else if |header| < HEADER_SIZE then Polled(rx.(state := NextPacket(header)), Pending, chunk)
      else Polled(Dispatch(rx, header), Progress, chunk)
  }

  function Dispatch(rx: Rx, header: seq<Byte>): Rx
    requires |header| == HEADER_SIZE
  {
    var a, len := HeaderAddr(header), HeaderLen(header);
    if len > 0 then rx.(state := Reading(a, len))
    else if a in rx.sockets then rx.(sockets := rx.sockets - {a}, state := NextPacket([]))
    else if rx.listener then Insert(rx, a, true).(state := SendSocket(|rx.entries|))
    else rx.(state := NextPacket([]))
  }

  /** Handing a new connection to the channel; with nobody listening it is dropped. */
  function HandOff(rx: Rx): Polled
    requires rx.Valid() && rx.state.SendSocket?
  {
    var id := rx.state.id;
    if !rx.listener then
      Polled(rx.(entries := rx.entries[id := rx.entries[id].(alive := false)], state := NextPacket([])), Progress, [])
    else if |rx.chan| < rx.room then Polled(rx.(chan := rx.chan + [id], state := NextPacket([])), Progress, [])
    else Polled(rx, Pending, [])
  }

  /** `ReaderMut::poll_once`. */
  function PollOnce(rx: Rx, answer: Buf.ReadAnswer): Polled
    requires rx.Valid()
  {
    match rx.state
    case Reading(_, _) => PollRead(rx, answer)
    case NextPacket(_) => PollNextPacket(rx, answer)
    case SendSocket(_) => HandOff(rx)
    case Error => Polled(rx, Fatal, [])
  }

  // ---------------------------------------------------------------- refinement of Demux

  function RegOf(e: Entry): Reg {
    Reg(e.addr, e.got + e.buffer.Contents(), e.alive, e.byHeader)
  }

  function Regs(es: seq<Entry>): (r: seq<Reg>)
    ensures |r| == |es|
    ensures forall i :: 0 <= i < |es| ==> r[i] == RegOf(es[i])
  {
    seq(|es|, i requires 0 <= i < |es| => RegOf(es[i]))
  }

  function ParserOf(s: State): Parser
    requires s.NextPacket? ==> |s.header| < HEADER_SIZE
    requires s.Reading? ==> 0 < s.left <= PACKET_SIZE
  {
    match s
    case NextPacket(h) => AtHeader(h)
    case Reading(owner, left) => InPayload(owner, left)
    case SendSocket(_) => START
    case Error => Stopped
  }

  /** What a concrete state means: what was read from a buffer and what is in it is what was
      delivered; a connection on its way to the channel is just open. */
  function Abs(rx: Rx): Ref
    requires rx.Valid()
  {
    Ref(ParserOf(rx.state), rx.sockets, Regs(rx.entries), rx.listener)
  }

  lemma RegsUpdate(es: seq<Entry>, i: nat, e: Entry)
    requires i < |es|
    ensures Regs(es[i := e]) == Regs(es)[i := RegOf(e)]
  {
  }

  lemma RegsAppend(es: seq<Entry>, e: Entry)
    ensures Regs(es + [e]) == Regs(es) + [RegOf(e)]
  {
  }

  lemma InsertRefines(rx: Rx, a: Addr, byHeader: bool)
    requires rx.Valid()
    ensures Insert(rx, a, byHeader).Valid()
    ensures Abs(Insert(rx, a, byHeader)) == Demux.Insert(Abs(rx), a, byHeader)
  {
    var e := Entry(a, Buf.View(0, []), true, [], byHeader);
    assert RegOf(e) == Reg(a, [], true, byHeader);
    RegsAppend(rx.entries, e);
  }

  lemma StoreRefines(rx: Rx, a: Addr, chunk: seq<Byte>)
    requires rx.Valid() && (rx.Reachable(a) ==> |rx.entries[rx.sockets[a]].buffer.data| + |chunk| <= CAPACITY)
    ensures Store(rx, a, chunk).Valid()
    ensures Abs(Store(rx, a, chunk)) == Deliver(Abs(rx), a, chunk)
  {
    if rx.Reachable(a) {
      var i := rx.sockets[a];
      var e := rx.entries[i];
      var e' := e.(buffer := e.buffer.Fill(chunk));
      assert e'.buffer.Contents() == e.buffer.Contents() + chunk;
      assert e.got + (e.buffer.Contents() + chunk) == (e.got + e.buffer.Contents()) + chunk;
      RegsUpdate(rx.entries, i, e');
    }
  }

  lemma ReadRefines(rx: Rx, answer: Buf.ReadAnswer)
    requires rx.Valid() && rx.state.Reading?
    ensures var p := PollRead(rx, answer);
            && p.rx.Valid()
            && (p.outcome.Fatal? ==> Abs(p.rx) == Apply(Abs(rx), Stop) && p.used == [])
            && (!p.outcome.Fatal? ==> Abs(p.rx) == Feed(Abs(rx), p.used))
  {
    hide Regs;
    var p := PollRead(rx, answer);
    if p.outcome.Progress? {
      StoreRefines(rx, rx.state.owner, p.used);
      FeedPayload(Abs(rx), p.used);
      hide Deliver, Feed, Regs, Limit;
      var stored := Store(rx, rx.state.owner, p.used);
      assert p.rx == stored.(state := p.rx.state) && stored.state == rx.state;
      StateAside(stored, p.rx.state);
    }
  }

  /** Whether a state is valid in between packets depends on the state alone. */
  lemma StateAside(rx: Rx, s: State)
    requires rx.Valid() && (s == NextPacket([]) || (s.Reading? && 0 < s.left <= PACKET_SIZE))
    ensures rx.(state := s).Valid() && Abs(rx.(state := s)) == Abs(rx).(parser := ParserOf(s))
  {
  }

  lemma NextPacketRefines(rx: Rx, answer: Buf.ReadAnswer)
    requires rx.Valid() && rx.state.NextPacket?
    ensures var p := PollNextPacket(rx, answer);
            && p.rx.Valid()
            && (p.outcome.Fatal? ==> Abs(p.rx) == Apply(Abs(rx), Stop) && p.used == [])
            && (!p.outcome.Fatal? ==> Abs(p.rx) == Feed(Abs(rx), p.used))
  {
    var p := PollNextPacket(rx, answer);
    FeedHeader(Abs(rx), p.used);
    if p.outcome.Progress? {
      InsertRefines(rx, HeaderAddr(rx.state.header + p.used), true);
    } else if p.used == [] {
      assert rx.state.header + p.used == rx.state.header;
    }
  }

  // ---------------------------------------------------------------- runs

  /** One thing that happens to the reading side: a poll of the shared reader, a local
      `add_connection`, a reader or the listener going away, an `accept`, a read. */
  datatype Op =
    | Poll(answer: Buf.ReadAnswer)
    | Add(a: Addr)
    | DropOne(i: nat)
    | Leave
    | Accept
    | Take(i: nat, want: nat)

  /** A reader in the channel belongs to the channel while somebody listens. */
  predicate CanDo(rx: Rx, op: Op) {
    match op
    case DropOne(i) => i < |rx.entries| && !(rx.listener && i in rx.Waiting())
    case Accept => rx.listener && rx.chan != []
    case Take(i, _) => i < |rx.entries| && i !in rx.Waiting()
    case _ => true
  }

  function Exec(rx: Rx, op: Op): Rx
    requires rx.Valid() && CanDo(rx, op)
  {
    match op
    case Poll(answer) => PollOnce(rx, answer).rx
    case Add(a) => if a in rx.sockets then rx else Insert(rx, a, false)
    case DropOne(i) => rx.(entries := rx.entries[i := rx.entries[i].(alive := false)])
    case Leave => rx.(listener := false)
    case Accept => rx.(accepted := rx.accepted + [rx.chan[0]], chan := rx.chan[1..])
    case Take(i, want) => rx.(entries := rx.entries[i := TakeFrom(rx.entries[i], want)])
  }

  function TakeFrom(e: Entry, want: nat): Entry {
    e.(buffer := e.buffer.Take(want), got := e.got + e.buffer.Taken(want))
  }

  /** The same, byte by byte and event by event, without chunks, buffers or channel. */
  function Trace(rx: Rx, op: Op): seq<Happening>
    requires rx.Valid() && CanDo(rx, op)
  {
    match op
    case Poll(answer) =>
      var p := PollOnce(rx, answer);
      if p.outcome.Fatal? then [Stop]
      else if rx.state.SendSocket? && !rx.listener then [DropReader(rx.state.id)]
      else Arrivals(p.used)
    case Add(a) => [Register(a)]
    case DropOne(i) => [DropReader(i)]
    case Leave => [ListenerGone]
    case _ => []
  }

  lemma PollRefines(rx: Rx, answer: Buf.ReadAnswer)
    requires rx.Valid()
    ensures PollOnce(rx, answer).rx.Valid()
    ensures Abs(PollOnce(rx, answer).rx) == Replay(Abs(rx), Trace(rx, Poll(answer)))
  {
    hide PollRead, PollNextPacket, Feed;
    var p := PollOnce(rx, answer);
    ReplayArrivals(Abs(rx), p.used);
    match rx.state
    case Reading(_, _) => ReadRefines(rx, answer);
    case NextPacket(_) => NextPacketRefines(rx, answer);
    case SendSocket(id) =>
      RegsUpdate(rx.entries, id, rx.entries[id].(alive := false));
    case Error =>
  }

  lemma TakeRefines(rx: Rx, i: nat, want: nat)
    requires rx.Valid() && CanDo(rx, Take(i, want))
    ensures Exec(rx, Take(i, want)).Valid() && Abs(Exec(rx, Take(i, want))) == Abs(rx)
  {
    TakeKeepsReg(rx.entries[i], want);
    RegsUpdate(rx.entries, i, TakeFrom(rx.entries[i], want));
  }

  lemma TakeKeepsReg(e: Entry, want: nat)
    requires e.buffer.Valid(CAPACITY)
    ensures RegOf(TakeFrom(e, want)) == RegOf(e) && TakeFrom(e, want).buffer.Valid(CAPACITY)
  {
    Buf.StepIsFifo(e.buffer, Buf.Op.Read(want), CAPACITY);
    var x, y := e.buffer.Taken(want), e.buffer.Take(want).Contents();
    assert e.buffer.Contents() + [] == e.buffer.Contents();
    assert e.got + (x + y) == (e.got + x) + y;
  }

  /** Every step of the reading side does what its trace says, byte by byte. */
  lemma ExecRefines(rx: Rx, op: Op)
    requires rx.Valid() && CanDo(rx, op)
    ensures Exec(rx, op).Valid()
    ensures Abs(Exec(rx, op)) == Replay(Abs(rx), Trace(rx, op))
  {
    match op
    case Poll(answer) => PollRefines(rx, answer);
    case Add(a) => InsertRefines(rx, a, false);
    case DropOne(i) => RegsUpdate(rx.entries, i, rx.entries[i].(alive := false));
    case Take(i, want) => TakeRefines(rx, i, want);
    case _ =>
  }

  ghost predicate CanRun(rx: Rx, ops: seq<Op>)
    decreases |ops|
  {
    ops == [] || (CanDo(rx, ops[0]) && CanRun(After(rx, ops[0]), ops[1..]))
  }

  /** One step of a run; the guard only makes it total, since validity is kept. */
  ghost function After(rx: Rx, op: Op): Rx
    requires CanDo(rx, op)
  {
    if rx.Valid() then Exec(rx, op) else rx
  }

  ghost function Run(rx: Rx, ops: seq<Op>): Rx
    requires CanRun(rx, ops)
    decreases |ops|
  {
    if ops == [] then rx else Run(After(rx, ops[0]), ops[1..])
  }

  ghost function Traces(rx: Rx, ops: seq<Op>): seq<Happening>
    requires CanRun(rx, ops)
    decreases |ops|
  {
    if ops == [] then []
    else (if rx.Valid() then Trace(rx, ops[0]) else []) + Traces(After(rx, ops[0]), ops[1..])
  }

  lemma {:induction false} RunRefines(rx: Rx, ops: seq<Op>)
    requires rx.Valid() && CanRun(rx, ops)
    ensures Run(rx, ops).Valid()
    ensures Abs(Run(rx, ops)) == Replay(Abs(rx), Traces(rx, ops))
    decreases |ops|
  {
    hide Exec, Trace, Abs;
    if ops != [] {
      ExecRefines(rx, ops[0]);
      RunRefines(Exec(rx, ops[0]), ops[1..]);
      ReplayConcat(Abs(rx), Trace(rx, ops[0]), Traces(Exec(rx, ops[0]), ops[1..]));
    }
  }

  /** Chunk independence: two runs in which the same bytes arrive, with registrations and
      departures at the same places among them, end with the same parser state, the same
      address map and the same bytes delivered to every reader, however the bytes were cut
      into reads and whenever buffers, channel and callers let them through. */
  lemma ChunkIndependence(rx: Rx, ops: seq<Op>, rx': Rx, ops': seq<Op>)
    requires rx.Valid() && CanRun(rx, ops) && rx'.Valid() && CanRun(rx', ops')
    requires Abs(rx) == Abs(rx') && Traces(rx, ops) == Traces(rx', ops')
    ensures Run(rx, ops).Valid() && Run(rx', ops').Valid()
    ensures Abs(Run(rx, ops)) == Abs(Run(rx', ops'))
  {
    RunRefines(rx, ops);
    RunRefines(rx', ops');
  }

  /** Dropping a reader disturbs nobody else: if the same things happen afterwards, every
      other registration has the same bytes and the same addresses are known as if that
      reader had stayed, whatever the chunks and the pace. */
  lemma ReaderDropDisturbsNobody(rx: Rx, i: nat, ops: seq<Op>, ops': seq<Op>)
    requires rx.Valid() && CanDo(rx, DropOne(i)) && CanRun(Exec(rx, DropOne(i)), ops) && CanRun(rx, ops')
    requires Traces(Exec(rx, DropOne(i)), ops) == Traces(rx, ops')
    ensures Run(Exec(rx, DropOne(i)), ops).Valid() && Run(rx, ops').Valid()
    ensures SameBut(Abs(Run(Exec(rx, DropOne(i)), ops)), Abs(Run(rx, ops')), i)
  {
    hide Abs, Exec, Run, Traces, CanRun, SameBut;
    ExecRefines(rx, DropOne(i));
    RunRefines(Exec(rx, DropOne(i)), ops);
    RunRefines(rx, ops');
    DropDisturbsNobody(Abs(rx), i, Traces(rx, ops'));
    ReplayConcat(Abs(rx), [DropReader(i)], Traces(rx, ops'));
  }

  /** The known addresses follow the history: the successful local registrations and the
      empty headers that arrived, in their order, and nothing else. */
  lemma MapFollowsHistory(rx: Rx, ops: seq<Op>)
    requires rx.Valid() && CanRun(rx, ops)
    ensures Run(rx, ops).sockets.Keys ==
              Known(rx.sockets.Keys, rx.listener, Items(ParserOf(rx.state), Traces(rx, ops)))
  {
    RunRefines(rx, ops);
    RegistrationFollowsHistory(Abs(rx), Traces(rx, ops));
  }

  // ---------------------------------------------------------------- accept order

  /** The registrations made by headers, oldest first. */
  ghost function HeaderIds(es: seq<Entry>): seq<nat>
    decreases |es|
  {
    if es == [] then []
    else HeaderIds(es[..|es| - 1]) + if es[|es| - 1].byHeader then [|es| - 1] else []
  }

  lemma {:induction false} HeaderIdsAscend(es: seq<Entry>)
    ensures forall k :: 0 <= k < |HeaderIds(es)| ==> HeaderIds(es)[k] < |es| && es[HeaderIds(es)[k]].byHeader
    ensures forall j, k :: 0 <= j < k < |HeaderIds(es)| ==> HeaderIds(es)[j] < HeaderIds(es)[k]
    decreases |es|
  {
    if es != [] {
      HeaderIdsAscend(es[..|es| - 1]);
    }
  }

  lemma {:induction false} HeaderIdsUpdate(es: seq<Entry>, i: nat, e: Entry)
    requires i < |es| && e.byHeader == es[i].byHeader
    ensures HeaderIds(es[i := e]) == HeaderIds(es)
    decreases |es|
  {
    var init := es[..|es| - 1];
    if i < |es| - 1 {
      HeaderIdsUpdate(init, i, e);
      assert es[i := e][..|es| - 1] == init[i := e];
    } else {
      assert es[i := e][..|es| - 1] == init;
    }
  }

  lemma HeaderIdsAppend(es: seq<Entry>, e: Entry)
    ensures HeaderIds(es + [e]) == HeaderIds(es) + if e.byHeader then [|es|] else []
  {
    assert (es + [e])[..|es|] == es;
  }

  /** Nothing a waiting connection was sent has been lost or read. */
  ghost predicate Untouched(rx: Rx) {
    forall i :: i in rx.Waiting() ==> i < |rx.entries| && rx.entries[i].alive && rx.entries[i].got == []
  }

  /** While somebody listens, the connections accepted, those in the channel and the one on
      its way there are exactly the ones opened by headers, in that order. */
  ghost predicate InOrder(rx: Rx) {
    rx.listener ==> rx.accepted + rx.Waiting() == HeaderIds(rx.entries) && Untouched(rx)
  }

  lemma InOrderKept(rx: Rx, op: Op)
    requires rx.Valid() && InOrder(rx) && CanDo(rx, op)
    ensures InOrder(Exec(rx, op))
  {
    hide HeaderIds, PollOnce;
    var rx' := Exec(rx, op);
    match op
    case Poll(answer) => PollInOrder(rx, answer);
    case Add(a) => HeaderIdsAppend(rx.entries, Entry(a, Buf.View(0, []), true, [], false));
    case DropOne(i) => HeaderIdsUpdate(rx.entries, i, rx.entries[i].(alive := false));
    case Take(i, want) => HeaderIdsUpdate(rx.entries, i, TakeFrom(rx.entries[i], want));
    case Accept => assert rx'.accepted + rx'.Waiting() == rx.accepted + rx.Waiting();
    case Leave =>
  }

  lemma StoreInOrder(rx: Rx, a: Addr, chunk: seq<Byte>)
    requires rx.Valid() && InOrder(rx) && rx.state.Reading?
    ensures InOrder(Store(rx, a, chunk))
  {
    if rx.Reachable(a) {
      var i := rx.sockets[a];
      HeaderIdsUpdate(rx.entries, i, rx.entries[i].(buffer := rx.entries[i].buffer.Fill(chunk)));
    }
  }

  lemma DispatchInOrder(rx: Rx, header: seq<Byte>)
    requires rx.Valid() && InOrder(rx) && rx.state.NextPacket? && |header| == HEADER_SIZE
    ensures InOrder(Dispatch(rx, header))
  {
    var rx', n := Dispatch(rx, header), |rx.entries|;
    if rx.listener && rx'.state.SendSocket? {
      HeaderIdsAppend(rx.entries, rx'.entries[n]);
      assert rx.chan + [] == rx.chan;
      assert rx.accepted + (rx.chan + [n]) == (rx.accepted + rx.chan) + [n];
    }
  }

  lemma PollInOrder(rx: Rx, answer: Buf.ReadAnswer)
    requires rx.Valid() && InOrder(rx)
    ensures InOrder(PollOnce(rx, answer).rx)
  {
    hide Dispatch, Insert, Limit, HeaderIds;
    match rx.state
    case Reading(owner, _) => StoreInOrder(rx, owner, PollOnce(rx, answer).used);
    case NextPacket(h) =>
      if PollOnce(rx, answer).outcome.Progress? {
        DispatchInOrder(rx, h + PollOnce(rx, answer).used);
      }
    case SendSocket(id) => HandOffInOrder(rx);
    case Error =>
  }

  lemma HandOffInOrder(rx: Rx)
    requires rx.Valid() && InOrder(rx) && rx.state.SendSocket?
    ensures InOrder(HandOff(rx).rx)
  {
    assert rx.chan + [rx.state.id] + [] == rx.chan + [rx.state.id];
  }

  const FRESH: Rx := Rx(NextPacket([]), map[], [], [], [], 1, true)

  lemma {:induction false} InOrderRun(rx: Rx, ops: seq<Op>)
    requires rx.Valid() && InOrder(rx) && CanRun(rx, ops)
    ensures InOrder(Run(rx, ops))
    decreases |ops|
  {
    hide Exec, InOrder, Abs, Trace;
    if ops != [] {
      ExecRefines(rx, ops[0]);
      InOrderKept(rx, ops[0]);
      InOrderRun(Exec(rx, ops[0]), ops[1..]);
    }
  }

  /** These registrations have these addresses. */
  ghost predicate Names(es: seq<Entry>, ids: seq<nat>, addrs: seq<Addr>) {
    |ids| == |addrs| && forall k :: 0 <= k < |ids| ==> ids[k] < |es| && es[ids[k]].addr == addrs[k]
  }

  lemma {:induction false} HeaderIdsName(es: seq<Entry>)
    ensures Names(es, HeaderIds(es), ByHeader(Regs(es)))
    decreases |es|
  {
    if es != [] {
      var n := |es| - 1;
      HeaderIdsName(es[..n]);
      assert Regs(es)[..n] == Regs(es[..n]);
    }
  }

  ghost predicate Ascending(ids: seq<nat>) {
    forall j, k :: 0 <= j < k < |ids| ==> ids[j] < ids[k]
  }

  /** A waiting connection has everything that was delivered to it in its buffer. */
  ghost predicate Retained(rx: Rx, regs: seq<Reg>) {
    forall i :: i in rx.Waiting() ==>
      i < |rx.entries| && i < |regs| && rx.entries[i].buffer.Contents() == regs[i].data
  }

  lemma OrderNow(rx: Rx)
    requires rx.Valid() && InOrder(rx) && rx.listener
    ensures Names(rx.entries, rx.accepted + rx.Waiting(), ByHeader(Abs(rx).regs))
    ensures Ascending(rx.accepted + rx.Waiting())
    ensures Retained(rx, Abs(rx).regs)
  {
    HeaderIdsName(rx.entries);
    HeaderIdsAscend(rx.entries);
    hide ByHeader, HeaderIds, Rx.Waiting;
    forall i | i in rx.Waiting()
      ensures i < |rx.entries| && rx.entries[i].buffer.Contents() == Abs(rx).regs[i].data
    {
      assert [] + rx.entries[i].buffer.Contents() == rx.entries[i].buffer.Contents();
    }
  }

  /** Accept order, over every run of a new listener: connections come out of `accept` in
      the order of the headers that opened them, none missing and none twice, and nothing
      sent to one that still waits is lost. */
  lemma AcceptOrder(ops: seq<Op>)
    requires CanRun(FRESH, ops) && Run(FRESH, ops).listener
    ensures var rx, es := Run(FRESH, ops), Traces(FRESH, ops);
            && Names(rx.entries, rx.accepted + rx.Waiting(), Openings({}, true, Items(START, es)))
            && Ascending(rx.accepted + rx.Waiting())
            && Retained(rx, Replay(Ref(START, map[], [], true), es).regs)
  {
    hide Run, CanRun, Traces, Replay, Openings, Items, HeaderIds, Names, Ascending, Retained, InOrder;
    assert FRESH.Valid() && InOrder(FRESH) by { FreshInOrder(); }
    assert Abs(FRESH) == Ref(START, map[], [], true);
    InOrderRun(FRESH, ops);
    RunRefines(FRESH, ops);
    OrderNow(Run(FRESH, ops));
    assert Abs(FRESH).sockets.Keys == {};
    OpeningsFollowHistory(Abs(FRESH), Traces(FRESH, ops));
    var openings := Openings({}, true, Items(START, Traces(FRESH, ops)));
    assert ByHeader([]) + openings == openings;
  }

  lemma FreshInOrder()
    ensures FRESH.Valid() && InOrder(FRESH)
  {
  }
}
