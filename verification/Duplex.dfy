/** Both directions together: two ends that open connections to each other and accept them,
    and open their addresses again when they are closed. What one direction presumes of the
    other is established here. */
module Duplexes {
  import opened Protocol
  import opened Framing
  import opened Connections
  import opened Writers
  import opened Readers
  import opened Delivery
  import opened Pairings
  import opened Network
  import opened SharedReaders

  /** A `MuxConnection`: its writer in the direction it writes, its registration in the one it
      reads. */
  datatype Ends = Ends(writer: nat, reader: nat)

  /** The connections made by `add_connection` at one end and by `accept` at the other. */
  datatype Book = Book(calls: seq<Ends>, answers: seq<Ends>)

  /** On `there` the near end writes and the far end reads; on `back` it is the reverse. The
      book `out` is that of the connections the near end opens, `into` that of the far end's. */
  datatype Duplex = Duplex(there: Net, back: Net, out: Book, into: Book) {
    function Swap(): Duplex {
      Duplex(back, there, into, out)
    }
  }

  /** What the near end of a pair can do, or the far end when `far` holds: an action on its
      own direction, opening a connection (src/lib.rs: register, then handshake), or, for
      the reader of `there`, accepting one (take it from the channel, make a writer). */
  datatype Move = Own(x: Step) | Connect(a: Addr) | AcceptOne

  datatype Turn = Turn(far: bool, move: Move)

  /** An address can be opened when it is not registered here, which add_connection checks,
      and not in use in either direction, which the outside must grant. */
  predicate CanMove(d: Duplex, m: Move) {
    match m
    case Own(x) => (x.Write? || x.Fetch? || (x.Local? && !x.op.Accept?)) && CanStep(d.there, x)
    case Connect(a) => a !in d.back.rx.sockets && d.there.Idle(a) && d.back.Idle(a)
    case AcceptOne => CanDo(d.there.rx, Accept)
  }

  /** No writer of `a` has a later epoch. */
  ghost predicate Latest(tx: Sys, a: Addr, e: nat) {
    forall i :: 0 <= i < |tx.conns| && i < |tx.epochs| && tx.conns[i].addr == a ==> tx.epochs[i] <= e
  }

  ghost predicate AcceptedAs(n: Net, a: Addr, e: nat) {
    exists j :: j in n.rx.accepted && j < |n.rx.entries| && j < |n.epochs|
      && n.rx.entries[j].addr == a && n.epochs[j] == e
  }

  /** A connection opened by a header and not accepted is the latest of its address, which
      waits in the other direction for an answer. */
  ghost predicate NewMatched(n: Net, waits: set<Addr>, j: nat)
    requires j < |n.rx.entries|
  {
    n.rx.entries[j].byHeader && j !in n.rx.accepted ==>
      j < |n.epochs| && n.rx.entries[j].addr in waits && Latest(n.tx, n.rx.entries[j].addr, n.epochs[j])
  }

  /** A writer that dialled has been accepted, or is the latest and waits for an answer. */
  ghost predicate CallMatched(n: Net, waits: set<Addr>, i: nat)
    requires i < |n.tx.conns| == |n.tx.epochs|
  {
    var a, e := n.tx.conns[i].addr, n.tx.epochs[i];
    n.tx.conns[i].dialled ==> (a in waits && Latest(n.tx, a, e)) || AcceptedAs(n, a, e)
  }

  /** One direction, when `waits` are the addresses that wait for an answer in the other. */
  ghost predicate HalfInv(n: Net, waits: set<Addr>) {
    && NetInv(n) && InOrder(n.rx) && n.pending !! waits
    && |n.tx.epochs| == |n.tx.conns|
    && (forall j :: j in n.rx.accepted ==> j < |n.rx.entries|)
    && (forall j :: 0 <= j < |n.rx.entries| ==> NewMatched(n, waits, j))
    && (forall i :: 0 <= i < |n.tx.conns| ==> CallMatched(n, waits, i))
  }

  /** A connection made by `add_connection` and one made by `accept` are the two ends of the
      same connection, in both directions. */
  predicate Meet(there: Net, back: Net, c: Ends, x: Ends) {
    Paired(there, c.writer, x.reader) && Paired(back, x.writer, c.reader)
  }

  /** A call that waits for its answer: its writer is the latest of its address, and the epoch
      of its registration is on. */
  ghost predicate Awaits(there: Net, back: Net, c: Ends, a: Addr) {
    && c.writer < |there.tx.conns| && c.writer < |there.tx.epochs| && c.reader < |back.rx.entries| && c.reader < |back.epochs|
    && there.tx.conns[c.writer].addr == a && Latest(there.tx, a, there.tx.epochs[c.writer])
    && back.rx.entries[c.reader].addr == a && back.epochs[c.reader] == Empties(START, back.Wire(), a)
  }

  ghost predicate IsAnswered(there: Net, back: Net, b: Book, x: Ends) {
    exists k :: 0 <= k < |b.calls| && Meet(there, back, b.calls[k], x)
  }

  ghost predicate IsAwaited(there: Net, back: Net, b: Book, a: Addr) {
    exists k :: 0 <= k < |b.calls| && Awaits(there, back, b.calls[k], a)
  }

  /** Calls are made of new writers and new registrations, of one address each. */
  ghost predicate CallsApart(there: Net, back: Net, b: Book) {
    && (forall k :: 0 <= k < |b.calls| ==>
          && b.calls[k].writer < |there.tx.conns| && b.calls[k].reader < |back.rx.entries|
          && there.tx.conns[b.calls[k].writer].addr == back.rx.entries[b.calls[k].reader].addr)
    && (forall k, m :: 0 <= k < m < |b.calls| ==>
          b.calls[k].writer < b.calls[m].writer && b.calls[k].reader < b.calls[m].reader)
  }

  /** Every accepted connection meets a call, and every address that waits for an answer has
      one that waits for it. */
  ghost predicate BookInv(there: Net, back: Net, b: Book) {
    && CallsApart(there, back, b)
    && (forall m :: 0 <= m < |b.answers| ==> IsAnswered(there, back, b, b.answers[m]))
    && (forall a :: a in back.pending ==> IsAwaited(there, back, b, a))
  }

  ghost predicate BothHalves(d: Duplex) {
    HalfInv(d.there, d.back.pending) && HalfInv(d.back, d.there.pending)
  }

  ghost predicate DuplexInv(d: Duplex) {
    && BothHalves(d)
    && BookInv(d.there, d.back, d.out) && BookInv(d.back, d.there, d.into)
  }

  // ---------------------------------------------------------------- what one end may rely on

  /** The next connection in the channel was opened by a header and is not accepted yet. */
  lemma NextIsNew(rx: Rx)
    requires rx.Valid() && InOrder(rx) && CanDo(rx, Accept)
    ensures rx.chan[0] < |rx.entries| && rx.entries[rx.chan[0]].byHeader
    ensures rx.chan[0] !in rx.accepted
  {
    var n, all := |rx.accepted|, rx.accepted + rx.Waiting();
    HeaderIdsAscend(rx.entries);
    assert all[n] == rx.chan[0];
    assert forall k :: 0 <= k < n ==> all[k] == rx.accepted[k] && all[k] < all[n];
  }

  /** Why the connection `accept` returns can be answered: it was opened from the other end,
      which has registered its address and waits for it. */
  lemma AcceptedCanBeAnswered(d: Duplex)
    requires DuplexInv(d) && CanMove(d, AcceptOne)
    ensures d.there.rx.chan[0] < |d.there.rx.entries|
    ensures CanStep(d.back, Reply(d.there.rx.entries[d.there.rx.chan[0]].addr))
  {
    hide NetInv, InOrder, Rx.Valid, CallMatched, Latest;
    ValidOf(d.there);
    NextIsNew(d.there.rx);
    assert NewMatched(d.there, d.back.pending, d.there.rx.chan[0]);
  }

  lemma HalfIsNet(n: Net, waits: set<Addr>)
    requires HalfInv(n, waits)
    ensures NetInv(n) && InOrder(n.rx) && n.rx.Valid() && n.taken <= |n.Wire()| && n.pending !! waits
  {
  }

  lemma ValidOf(n: Net)
    requires NetInv(n)
    ensures n.rx.Valid() && n.taken <= |n.Wire()| && |n.epochs| == |n.rx.entries| && |n.tx.epochs| == |n.tx.conns|
  {
  }

  /** A dialled writer that is not waiting for an answer, like any other, has its reader. */
  lemma AnsweredHasReader(n: Net, waits: set<Addr>, i: nat)
    requires HalfInv(n, waits) && i < |n.tx.conns| && n.tx.conns[i].addr !in waits
    ensures exists j: nat :: Paired(n, i, j)
  {
    ValidOf(n);
    assert CallMatched(n, waits, i);
    var a, e := n.tx.conns[i].addr, n.tx.epochs[i];
    if n.tx.conns[i].dialled {
      var j :| j in n.rx.accepted && j < |n.rx.entries| && j < |n.epochs| && n.rx.entries[j].addr == a && n.epochs[j] == e;
      assert Paired(n, i, j);
    } else {
      ReaderOf(n, i);
    }
  }

  /** Of an idle address that is not known any more, every empty frame has been read. */
  lemma AllTaken(n: Net, waits: set<Addr>, a: Addr)
    requires HalfInv(n, waits) && n.Idle(a) && a !in waits && a !in n.rx.sockets && n.taken <= |n.Wire()|
    ensures Empties(START, n.Taken(), a) == Empties(START, n.Wire(), a)
  {
    EmptiesPrefix(n.Taken(), n.Wire(), a);
    assert Inv(n.tx);
    ValidOf(n);
    hide NetInv, InOrder, Empties, Inv, NewMatched, CallMatched;
    var z := Empties(START, n.Wire(), a);
    if z > 0 {
      LastIsDue(n.tx, a);
      FreeIsBehind(n.tx, a);
      var i :| 0 <= i < |n.tx.conns| && i < |n.tx.epochs| && Covers(n.tx.conns[i], n.tx.epochs[i], a, z - 1, 0);
      AnsweredHasReader(n, waits, i);
      var j: nat :| Paired(n, i, j);
      UnknownIsPast(n, j);
    }
  }

  /** The epoch of a registration whose address is not known is over. */
  lemma UnknownIsPast(n: Net, j: nat)
    requires NetInv(n) && j < |n.rx.entries| && n.rx.entries[j].addr !in n.rx.sockets
    ensures j < |n.epochs| && n.taken <= |n.Wire()|
    ensures n.epochs[j] < Empties(START, n.Taken(), n.rx.entries[j].addr)
  {
    hide NetInv, Empties, Session, Abs;
    ReaderFacts(n, j);
  }

  /** Why an address that both ends are done with can be opened again. */
  lemma ConnectIsFresh(d: Duplex, a: Addr)
    requires DuplexInv(d) && CanMove(d, Connect(a))
    ensures CanStep(d.there, Call(a)) && CanStep(d.back, Adopt(a))
  {
    ValidOf(d.back);
    hide NetInv, InOrder;
    AllTaken(d.back, d.there.pending, a);
  }

  /** Both directions after a move of the near end. */
  ghost function Moved(d: Duplex, m: Move): Duplex
    requires CanMove(d, m)
  {
    match m
    case Own(x) => d.(there := Next(d.there, x))
    case Connect(a) =>
      d.(there := Next(d.there, Call(a)), back := Next(d.back, Adopt(a)),
         out := d.out.(calls := d.out.calls + [Ends(|d.there.tx.conns|, |d.back.rx.entries|)]))
    case AcceptOne =>
      var id := d.there.rx.chan[0];
      if id < |d.there.rx.entries| then
        d.(there := Next(d.there, Local(Accept)), back := Next(d.back, Reply(d.there.rx.entries[id].addr)),
           out := d.out.(answers := d.out.answers + [Ends(|d.back.tx.conns|, id)]))
      else d
  }

  // ---------------------------------------------------------------- the invariant

  /** Registrations are never renumbered or renamed; only `accept` accepts. */
  lemma EntriesStay(rx: Rx, op: Op)
    requires rx.Valid() && CanDo(rx, op)
    ensures |Exec(rx, op).entries| >= |rx.entries|
    ensures forall i :: 0 <= i < |rx.entries| ==>
              Exec(rx, op).entries[i].addr == rx.entries[i].addr && Exec(rx, op).entries[i].byHeader == rx.entries[i].byHeader
    ensures Exec(rx, op).accepted == if op.Accept? then rx.accepted + [rx.chan[0]] else rx.accepted
  {
    if op.Poll? {
      PollStays(rx, op.answer);
    }
  }

  lemma PollStays(rx: Rx, answer: Buf.ReadAnswer)
    requires rx.Valid()
    ensures var rx' := PollOnce(rx, answer).rx;
            && |rx'.entries| >= |rx.entries| && rx'.accepted == rx.accepted
            && (forall i :: 0 <= i < |rx.entries| ==>
                  rx'.entries[i].addr == rx.entries[i].addr && rx'.entries[i].byHeader == rx.entries[i].byHeader)
  {
  }

  /** The registrations of `n` are those of `n'`, in the same epochs. */
  ghost predicate SameRegs(n: Net, n': Net) {
    && |n.epochs| == |n.rx.entries| <= |n'.rx.entries| && n.epochs <= n'.epochs
    && (forall j :: 0 <= j < |n.rx.entries| ==>
          n'.rx.entries[j].addr == n.rx.entries[j].addr && n'.rx.entries[j].byHeader == n.rx.entries[j].byHeader)
  }

  lemma AcceptedStays(n: Net, n': Net, a: Addr, e: nat)
    requires AcceptedAs(n, a, e) && SameRegs(n, n') && n.rx.accepted <= n'.rx.accepted
    ensures AcceptedAs(n', a, e)
  {
    var j :| j in n.rx.accepted && j < |n.rx.entries| && j < |n.epochs| && n.rx.entries[j].addr == a && n.epochs[j] == e;
    assert j in n'.rx.accepted && n'.rx.entries[j].addr == a && n'.epochs[j] == e;
  }

  lemma SameLatest(tx: Sys, tx': Sys, a: Addr, e: nat)
    requires Latest(tx, a, e) && Extends(tx, tx') && |tx'.conns| == |tx.conns|
    ensures Latest(tx', a, e)
  {
  }

  /** A step that opens no writer and accepts nothing, if all that is new in the channel waits
      for an answer. */
  lemma HalfGoesOn(n: Net, n': Net, waits: set<Addr>)
    requires HalfInv(n, waits) && NetInv(n') && InOrder(n'.rx) && n'.pending !! waits
    requires SameRegs(n, n') && n'.rx.accepted == n.rx.accepted && Extends(n.tx, n'.tx) && |n'.tx.conns| == |n.tx.conns|
    requires forall j :: |n.rx.entries| <= j < |n'.rx.entries| ==> NewMatched(n', waits, j)
    ensures HalfInv(n', waits)
  {
    ValidOf(n');
    hide NetInv, InOrder, Latest, AcceptedAs;
    forall j | 0 <= j < |n'.rx.entries|
      ensures NewMatched(n', waits, j)
    {
      if j < |n.rx.entries| {
        assert NewMatched(n, waits, j);
        if n.rx.entries[j].byHeader && j !in n.rx.accepted {
          SameLatest(n.tx, n'.tx, n.rx.entries[j].addr, n.epochs[j]);
        }
      }
    }
    forall i | 0 <= i < |n'.tx.conns|
      ensures CallMatched(n', waits, i)
    {
      assert CallMatched(n, waits, i);
      var a, e := n.tx.conns[i].addr, n.tx.epochs[i];
      if AcceptedAs(n, a, e) {
        AcceptedStays(n, n', a, e);
      } else if n.tx.conns[i].dialled {
        SameLatest(n.tx, n'.tx, a, e);
      }
    }
  }

  lemma WriteHalf(n: Net, waits: set<Addr>, i: nat, ev: Event)
    requires HalfInv(n, waits) && CanStep(n, Write(i, ev))
    ensures HalfInv(Next(n, Write(i, ev)), waits)
  {
    hide NetInv, InOrder, Extends, Can, Latest, AcceptedAs, Tears, Rx.Valid;
    ValidOf(n);
    NetInvKept(n, Write(i, ev));
    ActExtends(n.tx, Do(i, ev));
    var n' := Next(n, Write(i, ev));
    HalfGoesOn(n, n', waits);
  }

  lemma LocalHalf(n: Net, waits: set<Addr>, op: Op)
    requires HalfInv(n, waits) && CanStep(n, Local(op)) && !op.Accept?
    ensures HalfInv(Next(n, Local(op)), waits)
  {
    hide NetInv, InOrder, Exec, CanDo, Latest, AcceptedAs, Rx.Valid, NewMatched, CallMatched;
    ValidOf(n);
    NetInvKept(n, Local(op));
    EntriesStay(n.rx, op);
    InOrderKept(n.rx, op);
    var n' := Next(n, Local(op));
    assert n' == n.(rx := Exec(n.rx, op));
    ValidOf(n');
    SameWriters(n.tx);
    HalfGoesOn(n, n', waits);
  }

  lemma SameWriters(tx: Sys)
    requires |tx.epochs| == |tx.conns|
    ensures Extends(tx, tx)
  {
  }

  /** A connection that a fetch registers belongs to the latest writer of its address, and
      nobody has answered it. */
  lemma FetchedIsNew(n: Net, n': Net, waits: set<Addr>, j: nat)
    requires HalfInv(n, waits) && NetInv(n') && n'.tx == n.tx && SameRegs(n, n')
    requires |n.rx.entries| <= j < |n'.rx.entries| && n'.rx.entries[j].byHeader
    ensures NewMatched(n', waits, j)
  {
    ValidOf(n');
    WriterOf(n', j);
    var k: nat :| Paired(n', k, j) && n'.tx.conns[k].dialled;
    assert CallMatched(n, waits, k);
    hide NetInv, InOrder;
    forall j0: nat | j0 < |n.rx.entries| && j0 < |n.epochs| && n.rx.entries[j0].addr == n.tx.conns[k].addr
      ensures n.epochs[j0] != n.tx.epochs[k]
    {
      PairedUnique(n', k, k, j, j0);
    }
  }

  /** What a fetch does to the list of registrations. */
  lemma FetchFacts(n: Net, answer: Buf.ReadAnswer)
    requires NetInv(n) && CanStep(n, Fetch(answer))
    ensures var n' := Perform(n, Fetch(answer));
            && n'.rx == Exec(n.rx, Poll(answer)) && n'.tx == n.tx && n'.pending == n.pending && NetInv(n')
            && n.epochs <= n'.epochs
  {
    NetInvKept(n, Fetch(answer));
    SettledJoined(n);
    TakenGrows(n, answer);
    var used := PollOnce(n.rx, answer).used;
    EpochsGrow(Abs(Settled(n.rx)), n.epochs, n.Taken(), used);
  }

  lemma {:induction false} EpochsGrow(r: Demux.Ref, es: seq<nat>, taken: seq<Byte>, bytes: seq<Byte>)
    ensures es <= EpochsAfter(r, es, taken, bytes)
    decreases |bytes|
  {
    if bytes != [] {
      var r', taken' := Demux.FeedByte(r, bytes[0]), taken + [bytes[0]];
      EpochsGrow(r', Grown(r', es, taken'), taken', bytes[1..]);
    }
  }

  /** Only headers register anything while bytes are fetched. */
  lemma FetchedByHeader(rx: Rx, answer: Buf.ReadAnswer)
    requires rx.Valid()
    ensures forall j :: |rx.entries| <= j < |Exec(rx, Poll(answer)).entries| ==> Exec(rx, Poll(answer)).entries[j].byHeader
  {
  }

  lemma FetchHalf(n: Net, waits: set<Addr>, answer: Buf.ReadAnswer)
    requires HalfInv(n, waits) && CanStep(n, Fetch(answer))
    ensures HalfInv(Next(n, Fetch(answer)), waits)
  {
    hide NetInv, InOrder, Exec, CanStep, Perform, Latest, AcceptedAs, Rx.Valid, NewMatched, CallMatched;
    ValidOf(n);
    FetchFacts(n, answer);
    EntriesStay(n.rx, Poll(answer));
    InOrderKept(n.rx, Poll(answer));
    FetchedByHeader(n.rx, answer);
    var n' := Next(n, Fetch(answer));
    SameWriters(n.tx);
    forall j | |n.rx.entries| <= j < |n'.rx.entries|
      ensures NewMatched(n', waits, j)
    {
      FetchedIsNew(n, n', waits, j);
    }
    HalfGoesOn(n, n', waits);
  }

  /** A step of one direction other than opening and accepting. */
  lemma OwnKept(d: Duplex, x: Step)
    requires DuplexInv(d) && CanMove(d, Own(x))
    ensures BothHalves(Moved(d, Own(x)))
  {
    ValidOf(d.there);
    assert Next(d.there, x).pending == d.there.pending;
    hide HalfInv, Perform, CanStep;
    match x
    case Write(i, e) => WriteHalf(d.there, d.back.pending, i, e);
    case Fetch(answer) => FetchHalf(d.there, d.back.pending, answer);
    case Local(op) => LocalHalf(d.there, d.back.pending, op);
  }

  /** A new writer of an address that nobody waits for in the other direction. */
  lemma HalfOpens(n: Net, n': Net, waits: set<Addr>, waits': set<Addr>, a: Addr)
    requires HalfInv(n, waits) && NetInv(n') && n'.pending !! waits' && n'.rx == n.rx && n'.epochs == n.epochs
    requires OneMore(n.tx, n'.tx, a) && a !in waits && waits <= waits'
    requires n'.tx.conns[|n.tx.conns|].dialled ==> a in waits' && Latest(n'.tx, a, n'.tx.epochs[|n.tx.conns|])
    ensures HalfInv(n', waits')
  {
    hide NetInv, InOrder, Latest, NewMatched, CallMatched;
    ValidOf(n);
    forall j | 0 <= j < |n'.rx.entries|
      ensures NewMatched(n', waits', j)
    {
      NewElsewhere(n, n', waits, waits', a, j);
    }
    forall i | 0 <= i < |n'.tx.conns|
      ensures CallMatched(n', waits', i)
    {
      if i < |n.tx.conns| {
        CallElsewhere(n, n', waits, waits', a, i);
      } else {
        CallerWaits(n', waits', i);
      }
    }
  }

  lemma NewElsewhere(n: Net, n': Net, waits: set<Addr>, waits': set<Addr>, a: Addr, j: nat)
    requires n'.rx == n.rx && n'.epochs == n.epochs && OneMore(n.tx, n'.tx, a) && a !in waits && waits <= waits'
    requires j < |n.rx.entries| && j < |n.epochs| && NewMatched(n, waits, j)
    ensures NewMatched(n', waits', j)
  {
    hide Latest, OneMore;
    LatestElsewhere(n.tx, n'.tx, a, n.rx.entries[j].addr, n.epochs[j]);
  }

  lemma CallElsewhere(n: Net, n': Net, waits: set<Addr>, waits': set<Addr>, a: Addr, i: nat)
    requires n'.rx == n.rx && n'.epochs == n.epochs && OneMore(n.tx, n'.tx, a) && a !in waits && waits <= waits'
    requires i < |n.tx.conns| && CallMatched(n, waits, i)
    ensures CallMatched(n', waits', i)
  {
    hide Latest, AcceptedAs;
    CallOthers(n, n', n.tx.conns[i].addr, n.tx.epochs[i]);
    LatestElsewhere(n.tx, n'.tx, a, n.tx.conns[i].addr, n.tx.epochs[i]);
  }

  lemma CallerWaits(n: Net, waits: set<Addr>, i: nat)
    requires i < |n.tx.conns| == |n.tx.epochs|
    requires n.tx.conns[i].dialled ==> n.tx.conns[i].addr in waits && Latest(n.tx, n.tx.conns[i].addr, n.tx.epochs[i])
    ensures CallMatched(n, waits, i)
  {
  }

  /** Dialling: the new writer is the latest of its address and waits for an answer. */
  lemma CallHalf(n: Net, waits: set<Addr>, a: Addr)
    requires HalfInv(n, waits) && CanStep(n, Call(a)) && a !in waits
    ensures HalfInv(Next(n, Call(a)), waits + {a})
  {
    hide HalfInv, InOrder, Act, Free, Extends, Rx.Valid, CanStep, Perform, Inv, Latest, Joined;
    HalfIsNet(n, waits);
    ValidOf(n);
    CallShape(n, a);
    NetInvKept(n, Call(a));
    FreeIsBehind(n.tx, a);
    OpenFacts(n.tx, a, true);
    var n' := Next(n, Call(a));
    assert OneMore(n.tx, n'.tx, a);
    LatestIsNew(n.tx, n'.tx, a);
    HalfOpens(n, n', waits, waits + {a}, a);
  }

  /** One more writer of `a`, with these epochs of the others. */
  ghost predicate OneMore(tx: Sys, tx': Sys, a: Addr) {
    && |tx'.conns| == |tx.conns| + 1 == |tx'.epochs| && |tx.epochs| == |tx.conns| && tx'.conns[|tx.conns|].addr == a
    && (forall k :: 0 <= k < |tx.conns| ==> tx'.conns[k] == tx.conns[k] && tx'.epochs[k] == tx.epochs[k])
  }

  lemma LatestElsewhere(tx: Sys, tx': Sys, a: Addr, b: Addr, e: nat)
    requires OneMore(tx, tx', a)
    ensures b != a && Latest(tx, b, e) ==> Latest(tx', b, e)
  {
  }

  lemma LatestIsNew(tx: Sys, tx': Sys, a: Addr)
    requires OneMore(tx, tx', a)
    requires forall i :: 0 <= i < |tx.conns| && tx.conns[i].addr == a ==> tx.epochs[i] <= tx'.epochs[|tx.conns|]
    ensures Latest(tx', a, tx'.epochs[|tx.conns|])
  {
  }

  /** Registrations, and so acceptances, do not depend on writers. */
  lemma CallOthers(n: Net, n': Net, b: Addr, e: nat)
    requires n'.rx == n.rx && n'.epochs == n.epochs
    ensures AcceptedAs(n, b, e) ==> AcceptedAs(n', b, e)
  {
  }

  /** Registering for the way back. */
  lemma AdoptHalf(n: Net, waits: set<Addr>, a: Addr)
    requires HalfInv(n, waits) && CanStep(n, Adopt(a)) && a !in waits
    ensures HalfInv(Next(n, Adopt(a)), waits)
  {
    hide NetInv, InOrder, Exec, CanStep, Perform, Latest, AcceptedAs, Rx.Valid;
    ValidOf(n);
    AdoptShape(n, a);
    NetInvKept(n, Adopt(a));
    EntriesStay(n.rx, Add(a));
    InOrderKept(n.rx, Add(a));
    var n' := Next(n, Adopt(a));
    SameWriters(n.tx);
    HalfGoesOn(n, n', waits);
  }

  lemma ConnectKept(d: Duplex, a: Addr)
    requires DuplexInv(d) && CanMove(d, Connect(a))
    ensures BothHalves(Moved(d, Connect(a)))
  {
    hide HalfInv, CanStep, Perform, NetInv, InOrder, Rx.Valid;
    ConnectIsFresh(d, a);
    HalfIsNet(d.there, d.back.pending);
    HalfIsNet(d.back, d.there.pending);
    CallShape(d.there, a);
    AdoptShape(d.back, a);
    CallHalf(d.there, d.back.pending, a);
    AdoptHalf(d.back, d.there.pending, a);
  }

  /** Two connections of one address that nobody has accepted are one. */
  lemma OneUnaccepted(n: Net, waits: set<Addr>, j: nat, j': nat)
    requires HalfInv(n, waits) && j < |n.rx.entries| && j' < |n.rx.entries|
    requires n.rx.entries[j].byHeader && j !in n.rx.accepted && n.rx.entries[j'].byHeader && j' !in n.rx.accepted
    requires n.rx.entries[j].addr == n.rx.entries[j'].addr
    ensures j == j'
  {
    ValidOf(n);
    WriterOf(n, j);
    WriterOf(n, j');
    hide NetInv, InOrder;
    var k: nat :| Paired(n, k, j);
    var k': nat :| Paired(n, k', j');
    assert NewMatched(n, waits, j) && NewMatched(n, waits, j');
    assert Paired(n, k, j');
    PairedUnique(n, k, k, j, j');
  }

  /** A writer that waits for an answer is the one whose connection comes out of the channel. */
  lemma CallerAccepted(n: Net, waits: set<Addr>, i: nat, j: nat)
    requires HalfInv(n, waits) && j < |n.rx.entries| && n.rx.entries[j].byHeader && j !in n.rx.accepted
    requires i < |n.tx.conns| && n.tx.conns[i].addr == n.rx.entries[j].addr && Latest(n.tx, n.tx.conns[i].addr, n.tx.epochs[i])
    ensures Paired(n, i, j)
  {
    ValidOf(n);
    WriterOf(n, j);
    hide NetInv, InOrder;
    var k: nat :| Paired(n, k, j);
    assert NewMatched(n, waits, j);
    assert n.tx.epochs[i] <= n.epochs[j] && n.tx.epochs[k] <= n.tx.epochs[i];
  }

  lemma AcceptShape(n: Net)
    requires n.rx.Valid() && CanDo(n.rx, Accept)
    ensures CanStep(n, Local(Accept))
    ensures Next(n, Local(Accept)) == n.(rx := Exec(n.rx, Accept))
    ensures Exec(n.rx, Accept).entries == n.rx.entries && Exec(n.rx, Accept).accepted == n.rx.accepted + [n.rx.chan[0]]
  {
  }

  lemma ReplyShape(n: Net, a: Addr)
    requires n.rx.Valid() && CanStep(n, Reply(a))
    ensures Next(n, Reply(a)) == n.(tx := Act(n.tx, Open(a, false)), pending := n.pending - {a})
    ensures a in n.pending
  {
  }

  lemma CallShape(n: Net, a: Addr)
    requires n.rx.Valid() && CanStep(n, Call(a))
    ensures Next(n, Call(a)) == n.(tx := Act(n.tx, Open(a, true)))
    ensures n.Idle(a)
  {
  }

  lemma AdoptShape(n: Net, a: Addr)
    requires n.rx.Valid() && CanStep(n, Adopt(a))
    ensures n.taken <= |n.Wire()|
    ensures Next(n, Adopt(a)) ==
              n.(rx := Exec(n.rx, Add(a)), epochs := n.epochs + [Empties(START, n.Taken(), a)], pending := n.pending + {a})
    ensures Exec(n.rx, Add(a)).entries == n.rx.entries + [Entry(a, Buf.View(0, []), true, [], false)]
    ensures Empties(START, n.Taken(), a) == Empties(START, n.Wire(), a) && a !in n.pending
  {
  }

  /** Accepting: the address of the accepted connection no longer waits. */
  lemma AcceptHalf(n: Net, waits: set<Addr>)
    requires HalfInv(n, waits) && CanDo(n.rx, Accept) && n.rx.chan[0] < |n.rx.entries|
    ensures HalfInv(Next(n, Local(Accept)), waits - {n.rx.entries[n.rx.chan[0]].addr})
  {
    hide NetInv, InOrder, Exec, Rx.Valid, CanStep, Perform, Latest, AcceptedAs;
    ValidOf(n);
    AcceptShape(n);
    NextIsNew(n.rx);
    NetInvKept(n, Local(Accept));
    InOrderKept(n.rx, Accept);
    var n', id := Next(n, Local(Accept)), n.rx.chan[0];
    var a := n.rx.entries[id].addr;
    forall j | 0 <= j < |n'.rx.entries|
      ensures NewMatched(n', waits - {a}, j)
    {
      assert NewMatched(n, waits, j);
      if n.rx.entries[j].byHeader && j !in n'.rx.accepted {
        assert j !in n.rx.accepted && j != id by { InSnoc(n.rx.accepted, id, j); }
        if n.rx.entries[j].addr == a {
          OneUnaccepted(n, waits, j, id);
        }
      }
    }
    forall i | 0 <= i < |n'.tx.conns|
      ensures CallMatched(n', waits - {a}, i)
    {
      AcceptCaller(n, n', waits, i);
    }
  }

  lemma InSnoc(s: seq<nat>, x: nat, y: nat)
    ensures y in s + [x] <==> y in s || y == x
  {
  }

  lemma AcceptCaller(n: Net, n': Net, waits: set<Addr>, i: nat)
    requires HalfInv(n, waits) && i < |n.tx.conns|
    requires n.rx.chan != [] && n.rx.chan[0] < |n.rx.entries| && n.rx.chan[0] !in n.rx.accepted && n.rx.entries[n.rx.chan[0]].byHeader
    requires n' == n.(rx := n'.rx) && n'.rx.entries == n.rx.entries && n'.rx.accepted == n.rx.accepted + [n.rx.chan[0]]
    ensures CallMatched(n', waits - {n.rx.entries[n.rx.chan[0]].addr}, i)
  {
    ValidOf(n);
    assert CallMatched(n, waits, i);
    hide NetInv, InOrder, Latest;
    var a, e, id := n.tx.conns[i].addr, n.tx.epochs[i], n.rx.chan[0];
    if AcceptedAs(n, a, e) {
      AcceptedStays(n, n', a, e);
    } else if n.tx.conns[i].dialled && a == n.rx.entries[id].addr {
      CallerAccepted(n, waits, i, id);
      assert id in n'.rx.accepted by { InSnoc(n.rx.accepted, id, id); }
      assert AcceptedAs(n', a, e);
    }
  }

  /** Answering: the new writer did not dial, and no newer connection of its address is under
      way in its direction. */
  lemma ReplyHalf(n: Net, waits: set<Addr>, a: Addr)
    requires HalfInv(n, waits) && CanStep(n, Reply(a))
    ensures HalfInv(Next(n, Reply(a)), waits)
  {
    hide HalfInv, InOrder, Act, Free, Extends, Rx.Valid, CanStep, Perform, Latest, NetInv;
    HalfIsNet(n, waits);
    ValidOf(n);
    ReplyShape(n, a);
    NetInvKept(n, Reply(a));
    OpenFacts(n.tx, a, false);
    assert OneMore(n.tx, Next(n, Reply(a)).tx, a);
    HalfOpens(n, Next(n, Reply(a)), waits, waits, a);
  }

  lemma AcceptKept(d: Duplex)
    requires DuplexInv(d) && CanMove(d, AcceptOne)
    ensures BothHalves(Moved(d, AcceptOne))
  {
    hide HalfInv, CanStep, Perform, NetInv, InOrder, Rx.Valid, Exec;
    AcceptedCanBeAnswered(d);
    HalfIsNet(d.there, d.back.pending);
    HalfIsNet(d.back, d.there.pending);
    var a := d.there.rx.entries[d.there.rx.chan[0]].addr;
    AcceptShape(d.there);
    ReplyShape(d.back, a);
    AcceptHalf(d.there, d.back.pending);
    ReplyHalf(d.back, d.there.pending, a);
  }

  // ---------------------------------------------------------------- the books

  /** What both ends of a direction keep from one moment to the next. */
  ghost predicate GoesOn(n: Net, n': Net) {
    Extends(n.tx, n'.tx) && SameRegs(n, n')
  }

  lemma PairedStays(n: Net, n': Net, i: nat, j: nat)
    requires Paired(n, i, j) && GoesOn(n, n')
    ensures Paired(n', i, j)
  {
  }

  lemma AwaitsStays(there: Net, back: Net, there': Net, back': Net, c: Ends, a: Addr)
    requires Awaits(there, back, c, a) && GoesOn(there, there') && GoesOn(back, back')
    requires Empties(START, back'.Wire(), a) == Empties(START, back.Wire(), a)
    requires forall e: nat :: Latest(there.tx, a, e) ==> Latest(there'.tx, a, e)
    ensures Awaits(there', back', c, a)
  {
    hide Latest, Empties;
  }

  lemma AnsweredStays(there: Net, back: Net, there': Net, back': Net, b: Book, b': Book, x: Ends)
    requires IsAnswered(there, back, b, x) && GoesOn(there, there') && GoesOn(back, back') && b.calls <= b'.calls
    ensures IsAnswered(there', back', b', x)
  {
    var k :| 0 <= k < |b.calls| && Meet(there, back, b.calls[k], x);
    PairedStays(there, there', b.calls[k].writer, x.reader);
    PairedStays(back, back', x.writer, b.calls[k].reader);
    assert Meet(there', back', b'.calls[k], x);
  }

  lemma AwaitedStays(there: Net, back: Net, there': Net, back': Net, b: Book, b': Book, a: Addr)
    requires IsAwaited(there, back, b, a) && GoesOn(there, there') && GoesOn(back, back') && b.calls <= b'.calls
    requires Empties(START, back'.Wire(), a) == Empties(START, back.Wire(), a)
    requires forall e: nat :: Latest(there.tx, a, e) ==> Latest(there'.tx, a, e)
    ensures IsAwaited(there', back', b', a)
  {
    hide Latest, Empties, GoesOn;
    var k :| 0 <= k < |b.calls| && Awaits(there, back, b.calls[k], a);
    AwaitsStays(there, back, there', back', b.calls[k], a);
    assert Awaits(there', back', b'.calls[k], a);
  }

  /** What may change without touching the book. */
  ghost predicate Unmoved(there: Net, back: Net, there': Net, back': Net, a: Addr) {
    && Empties(START, back'.Wire(), a) == Empties(START, back.Wire(), a)
    && forall e: nat :: Latest(there.tx, a, e) ==> Latest(there'.tx, a, e)
  }

  lemma BookGoesOn(there: Net, back: Net, there': Net, back': Net, b: Book)
    requires BookInv(there, back, b) && GoesOn(there, there') && GoesOn(back, back') && back'.pending <= back.pending
    requires forall a :: a in back'.pending ==> Unmoved(there, back, there', back', a)
    ensures BookInv(there', back', b)
  {
    assert CallsApart(there', back', b);
    hide IsAnswered, IsAwaited, GoesOn, CallsApart;
    forall m | 0 <= m < |b.answers|
      ensures IsAnswered(there', back', b, b.answers[m])
    {
      AnsweredStays(there, back, there', back', b, b, b.answers[m]);
    }
    forall a | a in back'.pending
      ensures IsAwaited(there', back', b, a)
    {
      assert Unmoved(there, back, there', back', a);
      AwaitedStays(there, back, there', back', b, b, a);
    }
  }

  /** A step that only writes, fetches, reads or drops. */
  lemma OwnFacts(n: Net, x: Step)
    requires NetInv(n) && CanStep(n, x) && (x.Write? || x.Fetch? || (x.Local? && !x.op.Accept?))
    ensures var n' := Next(n, x);
            && GoesOn(n, n') && |n'.tx.conns| == |n.tx.conns| && n'.pending == n.pending
            && (forall a :: a in n.pending ==> Empties(START, n'.Wire(), a) == Empties(START, n.Wire(), a))
  {
    ValidOf(n);
    match x
    case Write(i, e) => WriteFacts(n, i, e);
    case Fetch(answer) =>
      hide NetInv, Exec, CanStep, Perform, Rx.Valid;
      FetchFacts(n, answer);
      EntriesStay(n.rx, Poll(answer));
      SameWriters(n.tx);
    case Local(op) =>
      EntriesStay(n.rx, op);
      hide NetInv, Exec, CanDo, Rx.Valid;
      SameWriters(n.tx);
  }

  lemma WriteFacts(n: Net, i: nat, e: Event)
    requires NetInv(n) && CanStep(n, Write(i, e))
    ensures var n' := Next(n, Write(i, e));
            && GoesOn(n, n') && |n'.tx.conns| == |n.tx.conns| && n'.pending == n.pending
            && (forall a :: a in n.pending ==> Empties(START, n'.Wire(), a) == Empties(START, n.Wire(), a))
  {
    hide NetInv, Inv, Rx.Valid, Can, Tears, Extends, Empties, Free;
    ValidOf(n);
    ActExtends(n.tx, Do(i, e));
    forall a | a in n.pending
      ensures Empties(START, Next(n, Write(i, e)).Wire(), a) == Empties(START, n.Wire(), a)
    {
      PendingIsFree(n, a);
      FreeStays(n.tx, i, e, a);
    }
  }

  lemma PendingIsFree(n: Net, a: Addr)
    requires NetInv(n) && a in n.pending
    ensures Inv(n.tx) && Free(n.tx, a)
  {
    hide Inv, Linked;
    assert PendingMatched(n.tx, Abs(n.rx), n.epochs, n.Taken(), a);
  }

  lemma StaysItself(n: Net)
    requires |n.tx.epochs| == |n.tx.conns| && |n.epochs| == |n.rx.entries|
    ensures GoesOn(n, n)
  {
  }

  lemma OwnBooks(d: Duplex, x: Step)
    requires DuplexInv(d) && CanMove(d, Own(x))
    ensures var there' := Next(d.there, x); BookInv(there', d.back, d.out) && BookInv(d.back, there', d.into)
  {
    HalfIsNet(d.there, d.back.pending);
    HalfIsNet(d.back, d.there.pending);
    ValidOf(d.there);
    ValidOf(d.back);
    OwnFacts(d.there, x);
    StaysItself(d.back);
    hide HalfInv, NetInv, BookInv, Rx.Valid, CanStep, Perform, Empties, Latest;
    var there' := Next(d.there, x);
    forall a, e: nat | Latest(d.there.tx, a, e)
      ensures Latest(there'.tx, a, e)
    {
      SameLatest(d.there.tx, there'.tx, a, e);
    }
    BookGoesOn(d.there, d.back, there', d.back, d.out);
    BookGoesOn(d.back, d.there, d.back, there', d.into);
  }

  /** Opening: one more writer there, one more registration for the way back. */
  lemma CallGoesOn(there: Net, back: Net, a: Addr)
    requires NetInv(there) && NetInv(back) && CanStep(there, Call(a)) && CanStep(back, Adopt(a))
    ensures var there', back' := Next(there, Call(a)), Next(back, Adopt(a));
            && GoesOn(there, there') && GoesOn(back, back') && OneMore(there.tx, there'.tx, a)
            && back'.tx == back.tx && there'.pending == there.pending && back'.pending == back.pending + {a}
            && there'.Wire() == there.Wire() && Awaits(there', back', Ends(|there.tx.conns|, |back.rx.entries|), a)
            && a !in back.pending && |back'.rx.entries| == |back.rx.entries| + 1
  {
    hide Joined, Inv, Rx.Valid, CanStep, Perform, Act, Exec, Empties, Free, Latest, Abs;
    ValidOf(there);
    ValidOf(back);
    CallShape(there, a);
    AdoptShape(back, a);
    FreeIsBehind(there.tx, a);
    OpenFacts(there.tx, a, true);
    var there' := Next(there, Call(a));
    assert OneMore(there.tx, there'.tx, a);
    LatestIsNew(there.tx, there'.tx, a);
    SameWriters(back.tx);
  }

  lemma CallBooked(there: Net, back: Net, there': Net, back': Net, b: Book, a: Addr)
    requires BookInv(there, back, b) && GoesOn(there, there') && GoesOn(back, back') && OneMore(there.tx, there'.tx, a)
    requires back'.pending == back.pending + {a} && a !in back.pending && back'.Wire() == back.Wire()
    requires |back'.rx.entries| == |back.rx.entries| + 1
    requires Awaits(there', back', Ends(|there.tx.conns|, |back.rx.entries|), a)
    ensures BookInv(there', back', b.(calls := b.calls + [Ends(|there.tx.conns|, |back.rx.entries|)]))
  {
    var b' := b.(calls := b.calls + [Ends(|there.tx.conns|, |back.rx.entries|)]);
    assert CallsApart(there', back', b');
    assert Awaits(there', back', b'.calls[|b.calls|], a);
    assert IsAwaited(there', back', b', a);
    hide IsAnswered, IsAwaited, GoesOn, CallsApart, Awaits, OneMore, Latest, Empties;
    forall m | 0 <= m < |b'.answers|
      ensures IsAnswered(there', back', b', b'.answers[m])
    {
      AnsweredStays(there, back, there', back', b, b', b.answers[m]);
    }
    forall c | c in back'.pending && c != a
      ensures IsAwaited(there', back', b', c)
    {
      forall e: nat | Latest(there.tx, c, e)
        ensures Latest(there'.tx, c, e)
      {
        LatestElsewhere(there.tx, there'.tx, a, c, e);
      }
      AwaitedStays(there, back, there', back', b, b', c);
    }
  }

  lemma ConnectBooks(d: Duplex, a: Addr)
    requires DuplexInv(d) && CanMove(d, Connect(a))
    ensures var d' := Moved(d, Connect(a)); BookInv(d'.there, d'.back, d'.out) && BookInv(d'.back, d'.there, d'.into)
  {
    ConnectIsFresh(d, a);
    hide HalfInv, NetInv, BookInv, CanStep, Perform, Rx.Valid, Empties, Latest, Awaits, OneMore;
    HalfIsNet(d.there, d.back.pending);
    HalfIsNet(d.back, d.there.pending);
    AdoptShape(d.back, a);
    CallGoesOn(d.there, d.back, a);
    var there', back' := Next(d.there, Call(a)), Next(d.back, Adopt(a));
    CallBooked(d.there, d.back, there', back', d.out, a);
    BookGoesOn(d.back, d.there, back', there', d.into);
  }

  /** Accepting and answering: one more accepted registration there, one more writer back. */
  lemma AcceptGoesOn(there: Net, back: Net, a: Addr)
    requires NetInv(there) && NetInv(back) && CanDo(there.rx, Accept) && CanStep(back, Reply(a))
    ensures var there', back' := Next(there, Local(Accept)), Next(back, Reply(a));
            && GoesOn(there, there') && GoesOn(back, back') && OneMore(back.tx, back'.tx, a)
            && there'.tx == there.tx && there'.pending == there.pending && back'.pending == back.pending - {a}
            && back'.Wire() == back.Wire() && back'.rx == back.rx && back'.epochs == back.epochs && a in back.pending
            && back'.tx.epochs[|back.tx.conns|] == Empties(START, back.Wire(), a)
  {
    hide NetInv, Rx.Valid, CanStep, Perform, Act, Exec, Empties, Free;
    ValidOf(there);
    ValidOf(back);
    AcceptShape(there);
    ReplyShape(back, a);
    OpenFacts(back.tx, a, false);
    SameWriters(there.tx);
    assert OneMore(back.tx, Next(back, Reply(a)).tx, a);
  }

  /** The connection that comes out of the channel meets the call that waits for it. */
  lemma AnswerMeets(there: Net, back: Net, there': Net, back': Net, b: Book, id: nat)
    requires HalfInv(there, back.pending) && BookInv(there, back, b)
    requires id < |there.rx.entries| && there.rx.entries[id].byHeader && id !in there.rx.accepted
    requires there.rx.entries[id].addr in back.pending && OneMore(back.tx, back'.tx, there.rx.entries[id].addr)
    requires back'.tx.epochs[|back.tx.conns|] == Empties(START, back.Wire(), there.rx.entries[id].addr)
    requires GoesOn(there, there') && back'.rx == back.rx && back'.epochs == back.epochs
    ensures IsAnswered(there', back', b, Ends(|back.tx.conns|, id))
  {
    var a := there.rx.entries[id].addr;
    assert IsAwaited(there, back, b, a);
    var k :| 0 <= k < |b.calls| && Awaits(there, back, b.calls[k], a);
    hide HalfInv, BookInv, GoesOn, Latest, Empties;
    CallerAccepted(there, back.pending, b.calls[k].writer, id);
    PairedStays(there, there', b.calls[k].writer, id);
    assert Meet(there', back', b.calls[k], Ends(|back.tx.conns|, id));
  }

  lemma AcceptBooks(d: Duplex)
    requires DuplexInv(d) && CanMove(d, AcceptOne)
    ensures var d' := Moved(d, AcceptOne); BookInv(d'.there, d'.back, d'.out) && BookInv(d'.back, d'.there, d'.into)
  {
    AcceptedCanBeAnswered(d);
    hide HalfInv, NetInv, InOrder, BookInv, CanStep, Perform, Rx.Valid, Empties, Latest, OneMore, IsAnswered, Exec;
    HalfIsNet(d.there, d.back.pending);
    HalfIsNet(d.back, d.there.pending);
    NextIsNew(d.there.rx);
    var id := d.there.rx.chan[0];
    var a := d.there.rx.entries[id].addr;
    AcceptGoesOn(d.there, d.back, a);
    var there', back' := Next(d.there, Local(Accept)), Next(d.back, Reply(a));
    BookGoesOn(d.there, d.back, there', back', d.out);
    AnswerMeets(d.there, d.back, there', back', d.out, id);
    BookAnswer(there', back', d.out, Ends(|d.back.tx.conns|, id));
    forall c | c in there'.pending
      ensures Unmoved(d.back, d.there, back', there', c)
    {
      forall e: nat | Latest(d.back.tx, c, e)
        ensures Latest(back'.tx, c, e)
      {
        LatestElsewhere(d.back.tx, back'.tx, a, c, e);
      }
    }
    BookGoesOn(d.back, d.there, back', there', d.into);
  }

  lemma BookAnswer(there: Net, back: Net, b: Book, x: Ends)
    requires BookInv(there, back, b) && IsAnswered(there, back, b, x)
    ensures BookInv(there, back, b.(answers := b.answers + [x]))
  {
    var b' := b.(answers := b.answers + [x]);
    forall m | 0 <= m < |b'.answers|
      ensures IsAnswered(there, back, b', b'.answers[m])
    {
      assert IsAnswered(there, back, b, b'.answers[m]);
      AnsweredSame(there, back, b, b', b'.answers[m]);
    }
    forall a | a in back.pending
      ensures IsAwaited(there, back, b', a)
    {
      assert IsAwaited(there, back, b, a);
      var k :| 0 <= k < |b.calls| && Awaits(there, back, b.calls[k], a);
      assert Awaits(there, back, b'.calls[k], a);
    }
  }

  lemma AnsweredSame(there: Net, back: Net, b: Book, b': Book, x: Ends)
    requires IsAnswered(there, back, b, x) && b'.calls == b.calls
    ensures IsAnswered(there, back, b', x)
  {
  }

  // ---------------------------------------------------------------- runs

  ghost predicate CanTurn(d: Duplex, t: Turn) {
    if t.far then CanMove(d.Swap(), t.move) else CanMove(d, t.move)
  }

  ghost function Turned(d: Duplex, t: Turn): Duplex
    requires CanTurn(d, t)
  {
    if t.far then Moved(d.Swap(), t.move).Swap() else Moved(d, t.move)
  }

  lemma MoveKept(d: Duplex, m: Move)
    requires DuplexInv(d) && CanMove(d, m)
    ensures DuplexInv(Moved(d, m))
  {
    hide HalfInv, BookInv, CanStep, Perform;
    match m
    case Own(x) =>
      OwnKept(d, x);
      OwnBooks(d, x);
    case Connect(a) =>
      ConnectKept(d, a);
      ConnectBooks(d, a);
    case AcceptOne =>
      AcceptKept(d);
      AcceptBooks(d);
  }

  /** Every move of either end keeps the invariant; in particular each direction's
      assumptions about the other hold in every reachable state. */
  lemma TurnKept(d: Duplex, t: Turn)
    requires DuplexInv(d) && CanTurn(d, t)
    ensures DuplexInv(Turned(d, t))
  {
    hide HalfInv, CanMove, Moved;
    MoveKept(if t.far then d.Swap() else d, t.move);
  }

  ghost predicate DuplexRun(d: Duplex, ts: seq<Turn>)
    decreases |ts|
  {
    ts == [] || (CanTurn(d, ts[0]) && DuplexRun(Turned(d, ts[0]), ts[1..]))
  }

  ghost function DuplexAfter(d: Duplex, ts: seq<Turn>): Duplex
    requires DuplexRun(d, ts)
    decreases |ts|
  {
    if ts == [] then d else DuplexAfter(Turned(d, ts[0]), ts[1..])
  }

  lemma {:induction false} DuplexInvRun(d: Duplex, ts: seq<Turn>)
    requires DuplexInv(d) && DuplexRun(d, ts)
    ensures DuplexInv(DuplexAfter(d, ts))
    decreases |ts|
  {
    hide DuplexInv, Turned, CanTurn;
    if ts != [] {
      TurnKept(d, ts[0]);
      DuplexInvRun(Turned(d, ts[0]), ts[1..]);
    }
  }

  const NEW_PAIR := Duplex(START_NET, START_NET, Book([], []), Book([], []))

  lemma NewPairInv()
    ensures DuplexInv(NEW_PAIR)
  {
    StartInv();
  }

  /** The pair as the end sees it that opened a connection. */
  ghost function SeenFrom(ts: seq<Turn>, far: bool): Duplex
    requires DuplexRun(NEW_PAIR, ts)
  {
    if far then DuplexAfter(NEW_PAIR, ts).Swap() else DuplexAfter(NEW_PAIR, ts)
  }

  lemma SeenInv(ts: seq<Turn>, far: bool)
    requires DuplexRun(NEW_PAIR, ts)
    ensures DuplexInv(SeenFrom(ts, far))
  {
    NewPairInv();
    DuplexInvRun(NEW_PAIR, ts);
  }

  /** Conservation between two ends, over every run in which they open connections to each
      other, accept them, write, shut down, drop, read and open addresses again: for every
      connection and both directions, the bytes one end accepted are those the other has
      read, has buffered, has in flight, and those still unsent. */
  lemma {:induction false} DuplexConservation(ts: seq<Turn>, far: bool, i: nat, j: nat)
    requires DuplexRun(NEW_PAIR, ts)
    requires var n := SeenFrom(ts, far).there;
             Paired(n, i, j) && n.rx.entries[j].alive
    ensures var n := SeenFrom(ts, far).there;
            && n.taken <= |n.Wire()|
            && n.tx.conns[i].pushed ==
                 n.rx.entries[j].got + n.rx.entries[j].buffer.Contents()
                 + n.InFlight(n.tx.conns[i].addr, n.tx.epochs[i]) + n.tx.conns[i].Unsent()
  {
    SeenInv(ts, far);
    ConservedNow(SeenFrom(ts, far).there, i, j);
  }

  /** And a reader that is at the end of its stream has its writer's whole stream, over every
      such run and in both directions. */
  lemma {:induction false} DuplexComplete(ts: seq<Turn>, far: bool, j: nat)
    requires DuplexRun(NEW_PAIR, ts)
    requires var n := SeenFrom(ts, far).there;
             && j < |n.rx.entries| && n.rx.entries[j].alive
             && !n.rx.Mapped(j) && n.rx.entries[j].buffer.Contents() == []
    ensures var n := SeenFrom(ts, far).there;
            exists i: nat :: Paired(n, i, j) && Finished(n.tx.conns[i], n.rx.entries[j].got)
  {
    SeenInv(ts, far);
    CompleteNow(SeenFrom(ts, far).there, j);
  }

  /** The two ends of each direction find each other over every such run: a registration has
      exactly one writer, of the matching kind, or was made locally and is the one that waits
      for an answer; a writer has exactly one registration, one that dialled as soon as its
      opening has been read by a listening end. */
  lemma {:induction false} DuplexEndsMeet(ts: seq<Turn>, far: bool, i: nat, j: nat)
    requires DuplexRun(NEW_PAIR, ts)
    ensures var n := SeenFrom(ts, far).there;
            && n.taken <= |n.Wire()|
            && (j < |n.rx.entries| ==>
                  || (exists k: nat :: Paired(n, k, j) && n.tx.conns[k].dialled == n.rx.entries[j].byHeader
                        && forall k': nat :: Paired(n, k', j) ==> k' == k)
                  || (!n.rx.entries[j].byHeader && n.rx.entries[j].addr in n.pending
                      && j < |n.epochs| && n.epochs[j] == Empties(START, n.Wire(), n.rx.entries[j].addr)))
            && (i < |n.tx.conns| ==>
                  && i < |n.tx.epochs|
                  && var c := n.tx.conns[i];
                     (c.dialled ==> Empties(START, n.Taken(), c.addr) >= n.tx.epochs[i] && n.rx.listener) ==>
                       exists k: nat :: Paired(n, i, k) && forall k': nat :: Paired(n, i, k') ==> k' == k)
  {
    SeenInv(ts, far);
    var n := SeenFrom(ts, far).there;
    hide DuplexRun, DuplexAfter, SeenFrom;
    ValidOf(n);
    if j < |n.rx.entries| {
      WriterOf(n, j);
    }
    if i < |n.tx.conns| {
      ReaderOf(n, i);
    }
  }

  /** Calls with a writer or a registration in common are one. */
  lemma OneCall(there: Net, back: Net, b: Book, k: nat, m: nat)
    requires CallsApart(there, back, b) && k < |b.calls| && m < |b.calls|
    requires b.calls[k].writer == b.calls[m].writer || b.calls[k].reader == b.calls[m].reader
    ensures k == m
  {
    assert k < m || m < k || k == m;
  }

  lemma MeetsOne(there: Net, back: Net, b: Book, k: nat, x: Ends)
    requires NetInv(there) && NetInv(back) && CallsApart(there, back, b) && IsAnswered(there, back, b, x) && k < |b.calls|
    ensures Paired(there, b.calls[k].writer, x.reader) <==> Paired(back, x.writer, b.calls[k].reader)
  {
    hide NetInv, CallsApart;
    var m :| 0 <= m < |b.calls| && Meet(there, back, b.calls[m], x);
    PairedUnique(there, b.calls[m].writer, b.calls[k].writer, x.reader, x.reader);
    PairedUnique(back, x.writer, x.writer, b.calls[m].reader, b.calls[k].reader);
    if b.calls[k].writer == b.calls[m].writer || b.calls[k].reader == b.calls[m].reader {
      OneCall(there, back, b, k, m);
    }
  }

  /** The two halves of a connection belong together, over every run and with addresses used
      again. Take a connection that `add_connection` made at one end and one that `accept`
      made at the other: what the first writes is what the second reads if and only if what
      the second writes is what the first reads. And every accepted connection has such a
      partner. */
  lemma {:induction false} HalvesBelongTogether(ts: seq<Turn>, far: bool, k: nat, m: nat)
    requires DuplexRun(NEW_PAIR, ts)
    requires var d := SeenFrom(ts, far); k < |d.out.calls| && m < |d.out.answers|
    ensures var d := SeenFrom(ts, far);
            var call, answer := d.out.calls[k], d.out.answers[m];
            && (Paired(d.there, call.writer, answer.reader) <==> Paired(d.back, answer.writer, call.reader))
            && (exists c :: 0 <= c < |d.out.calls| && Meet(d.there, d.back, d.out.calls[c], answer))
  {
    SeenInv(ts, far);
    var d := SeenFrom(ts, far);
    hide DuplexRun, DuplexAfter, SeenFrom;
    assert IsAnswered(d.there, d.back, d.out, d.out.answers[m]);
    HalfIsNet(d.there, d.back.pending);
    HalfIsNet(d.back, d.there.pending);
    hide NetInv, HalfInv, CallsApart;
    MeetsOne(d.there, d.back, d.out, k, d.out.answers[m]);
  }

  // ---------------------------------------------------------------- opening again too soon

  ghost predicate Ordinary(xs: seq<Step>) {
    forall k :: 0 <= k < |xs| ==> xs[k].Write? || xs[k].Fetch? || (xs[k].Local? && !xs[k].op.Accept?)
  }

  function Turns(far: bool, xs: seq<Step>): seq<Turn> {
    seq(|xs|, k requires 0 <= k < |xs| => Turn(far, Own(xs[k])))
  }

  lemma TurnCons(d: Duplex, t: Turn, ts: seq<Turn>)
    requires CanTurn(d, t) && DuplexRun(Turned(d, t), ts)
    ensures DuplexRun(d, [t] + ts) && DuplexAfter(d, [t] + ts) == DuplexAfter(Turned(d, t), ts)
  {
    assert ([t] + ts)[1..] == ts;
  }

  lemma {:induction false} TurnsConcat(d: Duplex, x: seq<Turn>, y: seq<Turn>)
    requires DuplexRun(d, x) && DuplexRun(DuplexAfter(d, x), y)
    ensures DuplexRun(d, x + y) && DuplexAfter(d, x + y) == DuplexAfter(DuplexAfter(d, x), y)
    decreases |x|
  {
    hide Turned, CanTurn;
    if x == [] {
      assert x + y == y;
    } else {
      ConcatTail(x, y);
      TurnsConcat(Turned(d, x[0]), x[1..], y);
    }
  }

  /** A run of one direction, such as a call is, is a run of the pair. */
  lemma {:induction false} RunsAreTurns(d: Duplex, far: bool, xs: seq<Step>)
    requires Ordinary(xs) && NetRun(if far then d.back else d.there, xs)
    ensures DuplexRun(d, Turns(far, xs))
    ensures DuplexAfter(d, Turns(far, xs))
         == if far then d.(back := NetAfter(d.back, xs)) else d.(there := NetAfter(d.there, xs))
    decreases |xs|
  {
    if xs != [] {
      hide CanStep, Next;
      var t, rest := Turn(far, Own(xs[0])), xs[1..];
      assert CanTurn(d, t);
      RunsAreTurns(Turned(d, t), far, rest);
      TurnCons(d, t, Turns(far, rest));
      assert Turns(far, xs) == [t] + Turns(far, rest);
    }
  }
}
