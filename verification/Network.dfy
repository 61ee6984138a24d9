/** One direction of the multiplexer, end to end: any number of writers on one wire, and the
    demultiplexer with its readers at the other end of it. */
module Network {
  import opened Protocol
  import opened Framing
  import opened Connections
  import opened Writers
  import opened Demux
  import opened Readers
  import opened SharedReaders
  import opened Delivery
  import opened Pairings

  /** `taken` bytes of the wire have been read; `epochs` are those of the registrations.
      `pending` are the addresses the reading end opened itself, for the way back, and the
      writing end has not answered. */
  datatype Net = Net(tx: Sys, rx: Rx, taken: nat, epochs: seq<nat>, pending: set<Addr>) {

    function Wire(): seq<Byte> {
      tx.port.wire
    }

    function Taken(): seq<Byte>
      requires taken <= |Wire()|
    {
      Wire()[..taken]
    }

    /** Payload of epoch `e` for `a` on the wire that the reading end has not taken. */
    function InFlight(a: Addr, e: nat): seq<Byte>
      requires taken <= |Wire()|
    {
      Session(Parse(START, Taken()), Wire()[taken..], a, e - Empties(START, Taken(), a))
    }

    /** Neither a writer that can still speak nor an unanswered opening. */
    predicate Idle(a: Addr) {
      a !in pending && Free(tx, a)
    }
  }

  datatype Step =
    | Write(i: nat, e: Event)           // an action of a writer
    | Call(a: Addr)                     // add_connection at the writing end
    | Adopt(a: Addr)                    // add_connection at the reading end
    | Reply(a: Addr)                    // the writer of a connection accepted from the reading end
    | Fetch(answer: Buf.ReadAnswer)  // a poll of the shared reader
    | Local(op: Op)                     // accept, read, drop of a reader or of the listener

  /** Steps of an orderly run: no torn frames; an address is opened, for the first time or
      again, when its earlier connections have closed; the TCP reader yields the wire. */
  predicate CanStep(n: Net, x: Step) {
    match x
    case Write(i, e) => CanAct(n.tx, Do(i, e)) && !Tears(n.tx.conns[i], e)
    case Call(a) => n.Idle(a)
    case Adopt(a) =>
      && n.Idle(a) && a !in n.rx.sockets
      && n.taken <= |n.Wire()| && Empties(START, n.Taken(), a) == Empties(START, n.Wire(), a)
    case Reply(a) => a in n.pending
    case Fetch(answer) => n.taken <= |n.Wire()| && (answer.Ready? ==> answer.bytes <= n.Wire()[n.taken..])
    case Local(op) => !op.Poll? && !op.Add? && CanDo(n.rx, op)
  }

  function Perform(n: Net, x: Step): Net
    requires n.rx.Valid() && CanStep(n, x)
  {
    match x
    case Write(i, e) => n.(tx := Act(n.tx, Do(i, e)))
    case Call(a) => n.(tx := Act(n.tx, Open(a, true)))
    case Adopt(a) =>
      n.(rx := Exec(n.rx, Add(a)), epochs := n.epochs + [Empties(START, n.Taken(), a)], pending := n.pending + {a})
    case Reply(a) => n.(tx := Act(n.tx, Open(a, false)), pending := n.pending - {a})
    case Fetch(answer) => Fetched(n, PollOnce(n.rx, answer))
    case Local(op) => n.(rx := Exec(n.rx, op))
  }

  function Fetched(n: Net, p: Polled): Net
    requires n.rx.Valid() && n.taken <= |n.Wire()|
  {
    PollRefines(n.rx, Buf.Stalled);
    n.(rx := p.rx, taken := n.taken + |p.used|, epochs := EpochsAfter(Abs(Settled(n.rx)), n.epochs, n.Taken(), p.used))
  }

  ghost predicate Joined(n: Net, r: Ref)
    requires n.taken <= |n.Wire()|
  {
    Linked(r, n.epochs, n.Taken()) && Matched(n.tx, n.pending, r, n.epochs, n.Taken())
  }

  ghost predicate NetInv(n: Net) {
    Inv(n.tx) && n.rx.Valid() && n.taken <= |n.Wire()| && Joined(n, Abs(n.rx))
  }

  lemma WriteKept(n: Net, i: nat, e: Event)
    requires NetInv(n) && CanStep(n, Write(i, e))
    ensures NetInv(Perform(n, Write(i, e)))
  {
    hide Linked, Matched, Inv, Abs, Can, Tears, Rx.Valid;
    InvKept(n.tx, Do(i, e));
    MatchWrite(n.tx, n.pending, Abs(n.rx), n.epochs, n.Taken(), i, e);
    var n' := Perform(n, Write(i, e));
    assert n'.Wire() == n.Wire() + Emits(n.tx.conns[i], e);
    assert n'.Wire()[..n.taken] == n.Wire()[..n.taken];
  }

  lemma TakenIsPrefix(n: Net)
    requires n.taken <= |n.Wire()|
    ensures n.Taken() <= n.Wire() && n.Wire() == n.Taken() + n.Wire()[n.taken..]
  {
  }

  lemma OpenKept(n: Net, x: Step)
    requires NetInv(n) && CanStep(n, x) && (x.Call? || x.Reply?)
    ensures NetInv(Perform(n, x))
  {
    assert x.Reply? ==> PendingMatched(n.tx, Abs(n.rx), n.epochs, n.Taken(), x.a);
    assert |n.tx.epochs| == |n.tx.conns|;
    hide Linked, Matched, Inv, Abs, Rx.Valid, Free;
    InvKept(n.tx, Open(x.a, x.Call?));
    TakenIsPrefix(n);
    assert x.Call? ==> n.pending - {x.a} == n.pending;
    MatchOpen(n.tx, n.pending, n.pending - {x.a}, Abs(n.rx), n.epochs, n.Taken(), x.a, x.Call?);
  }

  lemma AdoptKept(n: Net, a: Addr)
    requires NetInv(n) && CanStep(n, Adopt(a))
    ensures NetInv(Perform(n, Adopt(a)))
  {
    ExecRefines(n.rx, Add(a));
    FreeIsBehind(n.tx, a);
    TakenIsPrefix(n);
    SessionConcat(START, n.Taken(), n.Wire()[n.taken..], a, Empties(START, n.Wire(), a));
    assert a !in Abs(n.rx).sockets;
    ReplayOne(Abs(n.rx), Register(a));
    hide Linked, Matched, Inv, Abs, Rx.Valid, Free, Session, Empties, Replay, Exec;
    LinkAdopt(Abs(n.rx), n.epochs, n.Taken(), a);
    MatchAdopt(n.tx, n.pending, Abs(n.rx), n.epochs, n.Taken(), a);
  }

  lemma ReplayOne(r: Ref, e: Happening)
    ensures Replay(r, [e]) == Apply(r, e)
  {
    assert [e][1..] == [];
  }

  /** A reader or the listener goes away, or the reader stops. */
  lemma JoinedDeparture(n: Net, r: Ref, e: Happening)
    requires n.taken <= |n.Wire()| && Joined(n, r) && (e.DropReader? || e.ListenerGone? || e.Stop?)
    ensures Joined(n, Apply(r, e))
  {
    hide Linked, Matched, Apply;
    LinkDeparture(r, e, n.epochs, n.Taken());
    MatchDeparture(n.tx, n.pending, r, e, n.epochs, n.Taken());
  }

  lemma LocalKept(n: Net, op: Op)
    requires NetInv(n) && CanStep(n, Local(op))
    ensures NetInv(Perform(n, Local(op)))
  {
    hide Joined, Inv, Abs, Exec, Rx.Valid;
    ExecRefines(n.rx, op);
    match op
    case DropOne(i) =>
      ReplayOne(Abs(n.rx), DropReader(i));
      JoinedDeparture(n, Abs(n.rx), DropReader(i));
      JoinedElsewhere(n, Perform(n, Local(op)), Apply(Abs(n.rx), DropReader(i)));
    case Leave =>
      ReplayOne(Abs(n.rx), ListenerGone);
      JoinedDeparture(n, Abs(n.rx), ListenerGone);
      JoinedElsewhere(n, Perform(n, Local(op)), Apply(Abs(n.rx), ListenerGone));
    case Accept => JoinedElsewhere(n, Perform(n, Local(op)), Abs(n.rx));
    case Take(_, _) => JoinedElsewhere(n, Perform(n, Local(op)), Abs(n.rx));
  }

  /** Joining does not look at the concrete reader. */
  lemma JoinedElsewhere(n: Net, n': Net, r: Ref)
    requires n.taken <= |n.Wire()| && Joined(n, r) && n' == n.(rx := n'.rx)
    ensures Joined(n', r)
  {
  }

  /** A poll takes the bytes it was offered from the front. */
  lemma UsedIsPrefix(rx: Rx, answer: Buf.ReadAnswer)
    requires rx.Valid()
    ensures var used := PollOnce(rx, answer).used;
            && (used != [] ==> answer.Ready? && used <= answer.bytes)
            && (used != [] ==> !Abs(Settled(rx)).parser.Stopped?)
  {
  }

  lemma SettledJoined(n: Net)
    requires NetInv(n)
    ensures Settled(n.rx).Valid() && Joined(n, Abs(Settled(n.rx)))
  {
    PollRefines(n.rx, Buf.Stalled);
    if n.rx.state.SendSocket? && !n.rx.listener {
      ReplayOne(Abs(n.rx), DropReader(n.rx.state.id));
      JoinedDeparture(n, Abs(n.rx), DropReader(n.rx.state.id));
    }
  }

  /** The taken part grows by the bytes used, and stays a prefix of the wire. */
  lemma TakenGrows(n: Net, answer: Buf.ReadAnswer)
    requires n.rx.Valid() && Settled(n.rx).Valid() && CanStep(n, Fetch(answer))
    ensures var p, n' := PollOnce(n.rx, answer), Perform(n, Fetch(answer));
            && n'.taken <= |n'.Wire()| && n'.Wire() == n.Wire() && n'.rx == p.rx && n'.tx == n.tx && n'.pending == n.pending
            && n'.Taken() == n.Taken() + p.used
            && n'.epochs == EpochsAfter(Abs(Settled(n.rx)), n.epochs, n.Taken(), p.used)
            && n.Taken() + p.used <= n.Wire()
            && (p.used != [] ==> !Abs(Settled(n.rx)).parser.Stopped?)
  {
    UsedIsPrefix(n.rx, answer);
    var p, n' := PollOnce(n.rx, answer), Perform(n, Fetch(answer));
    hide PollOnce, Settled, Abs, EpochsAfter;
    if p.used != [] {
      assert p.used <= n.Wire()[n.taken..];
      assert n.Wire()[n.taken..n'.taken] == p.used;
    }
    assert n'.Taken() == n.Taken() + p.used;
  }

  /** The bytes of a fetch, one at a time. */
  lemma FetchJoins(n: Net, answer: Buf.ReadAnswer)
    requires NetInv(n) && CanStep(n, Fetch(answer)) && Settled(n.rx).Valid()
    ensures var n' := Perform(n, Fetch(answer));
            n'.taken <= |n'.Wire()| && Joined(n', Feed(Abs(Settled(n.rx)), PollOnce(n.rx, answer).used))
  {
    SettledJoined(n);
    TakenGrows(n, answer);
    hide Linked, Matched, Abs, PollOnce, Settled, Inv, Feed, EpochsAfter, Perform, CanStep, Rx.Valid;
    var r, used := Abs(Settled(n.rx)), PollOnce(n.rx, answer).used;
    LinkBytes(r, n.epochs, n.Taken(), used);
    MatchBytes(n.tx, n.pending, r, n.epochs, n.Taken(), used);
  }

  lemma FetchKept(n: Net, answer: Buf.ReadAnswer)
    requires NetInv(n) && CanStep(n, Fetch(answer))
    ensures NetInv(Perform(n, Fetch(answer)))
  {
    SettledJoined(n);
    FetchJoins(n, answer);
    TakenGrows(n, answer);
    PollOnceFeeds(n.rx, answer);
    hide Joined, Abs, PollOnce, Settled, Inv, Feed, Apply, Perform, CanStep, Rx.Valid;
    if PollOnce(n.rx, answer).outcome.Fatal? {
      JoinedDeparture(Perform(n, Fetch(answer)), Feed(Abs(Settled(n.rx)), PollOnce(n.rx, answer).used), Stop);
    }
  }

  /** Every step of the network keeps the invariant. */
  lemma NetInvKept(n: Net, x: Step)
    requires NetInv(n) && CanStep(n, x)
    ensures NetInv(Perform(n, x))
  {
    hide NetInv, Perform;
    match x
    case Write(i, e) => WriteKept(n, i, e);
    case Call(_) => OpenKept(n, x);
    case Reply(_) => OpenKept(n, x);
    case Adopt(a) => AdoptKept(n, a);
    case Fetch(answer) => FetchKept(n, answer);
    case Local(op) => LocalKept(n, op);
  }

  // ---------------------------------------------------------------- runs

  /** One step of a run; the guard only makes it total, since validity is kept. */
  ghost function Next(n: Net, x: Step): Net {
    if n.rx.Valid() && CanStep(n, x) then Perform(n, x) else n
  }

  ghost predicate NetRun(n: Net, xs: seq<Step>)
    decreases |xs|
  {
    xs == [] || (CanStep(n, xs[0]) && NetRun(Next(n, xs[0]), xs[1..]))
  }

  ghost function NetAfter(n: Net, xs: seq<Step>): Net
    requires NetRun(n, xs)
    decreases |xs|
  {
    if xs == [] then n else NetAfter(Next(n, xs[0]), xs[1..])
  }

  const START_NET := Net(EMPTY, FRESH, 0, [], {})

  lemma StartInv()
    ensures NetInv(START_NET)
  {
    EmptyInv();
  }

  lemma {:induction false} NetInvRun(n: Net, xs: seq<Step>)
    requires NetInv(n) && NetRun(n, xs)
    ensures NetInv(NetAfter(n, xs))
    decreases |xs|
  {
    hide Perform, CanStep, Inv, Joined;
    if xs != [] {
      NetInvKept(n, xs[0]);
      NetInvRun(Perform(n, xs[0]), xs[1..]);
    }
  }

  lemma NetCons(n: Net, x: Step, xs: seq<Step>)
    requires n.rx.Valid() && CanStep(n, x) && NetRun(Perform(n, x), xs)
    ensures NetRun(n, [x] + xs) && NetAfter(n, [x] + xs) == NetAfter(Perform(n, x), xs)
  {
    assert ([x] + xs)[1..] == xs;
  }

  /** Steps of the network in which the writer `i` performs these actions. */
  function Writes(i: nat, es: seq<Event>): seq<Step> {
    seq(|es|, k requires 0 <= k < |es| => Write(i, es[k]))
  }

  /** A quiet run of one writer's actions, and so a call of one of its poll methods that does
      not fail, is a run of the network in which nothing else moves. */
  lemma {:induction false} CallsAreRuns(n: Net, i: nat, es: seq<Event>)
    requires n.rx.Valid() && EventRun(n.tx, i, es) && AllQuiet(es)
    ensures NetRun(n, Writes(i, es))
    ensures NetAfter(n, Writes(i, es)) == n.(tx := AfterEvents(n.tx, i, es))
    decreases |es|
  {
    if es != [] {
      assert Quiet(es[0]);
      var n' := n.(tx := Act(n.tx, Do(i, es[0])));
      assert CanStep(n, Write(i, es[0])) && Perform(n, Write(i, es[0])) == n';
      hide Rx.Valid, Act, Can;
      CallsAreRuns(n', i, es[1..]);
      NetCons(n, Write(i, es[0]), Writes(i, es[1..]));
      assert Writes(i, es) == [Write(i, es[0])] + Writes(i, es[1..]);
    }
  }

  /** Answers of a TCP reader that yields the wire, when `poll` asks for them. */
  ghost predicate Honest(n: Net, script: seq<Buf.ReadAnswer>)
    decreases |script|, if n.rx.state.SendSocket? then 1 else 0
  {
    n.rx.Valid() ==>
      || (Asks(n.rx.state) && script == [])
      || var answer := if Asks(n.rx.state) then script[0] else Buf.Stalled;
         && CanStep(n, Fetch(answer))
         && (PollOnce(n.rx, answer).outcome.Progress? ==>
               Honest(Perform(n, Fetch(answer)), if Asks(n.rx.state) then script[1..] else script))
  }

  /** A call of `poll` on the reading end is a run of the network that only fetches; and with
      it, by its parts, every read and every accept that has to poll. */
  lemma {:induction false} PollsAreRuns(n: Net, script: seq<Buf.ReadAnswer>) returns (xs: seq<Step>)
    requires n.rx.Valid() && n.taken <= |n.Wire()| && Honest(n, script)
    ensures NetRun(n, xs) && (forall k :: 0 <= k < |xs| ==> xs[k].Fetch?)
    ensures var n', p := NetAfter(n, xs), PollAll(n.rx, script);
            n'.rx == p.rx && n'.tx == n.tx && n'.pending == n.pending && n'.taken == n.taken + |p.used|
    decreases |script|, if n.rx.state.SendSocket? then 1 else 0
  {
    xs := [];
    if !(Asks(n.rx.state) && script == []) {
      var answer := if Asks(n.rx.state) then script[0] else Buf.Stalled;
      var p, n' := PollOnce(n.rx, answer), Perform(n, Fetch(answer));
      PollRefines(n.rx, answer);
      PollRefines(n.rx, Buf.Stalled);
      FetchedShape(n, answer);
      if !Asks(n.rx.state) && p.outcome.Progress? {
        HandOffOnce(n.rx, answer);
      }
      hide PollOnce, Rx.Valid, Perform, CanStep;
      if p.outcome.Progress? {
        xs := PollsAreRuns(n', if Asks(n.rx.state) then script[1..] else script);
      }
      NetCons(n, Fetch(answer), xs);
      xs := [Fetch(answer)] + xs;
    }
  }

  lemma FetchedShape(n: Net, answer: Buf.ReadAnswer)
    requires n.rx.Valid() && Settled(n.rx).Valid() && CanStep(n, Fetch(answer))
    ensures var p, n' := PollOnce(n.rx, answer), Perform(n, Fetch(answer));
            && n'.taken <= |n'.Wire()| && n'.Wire() == n.Wire() && n'.rx == p.rx && n'.tx == n.tx && n'.pending == n.pending
            && n'.taken == n.taken + |p.used|
  {
    TakenGrows(n, answer);
  }

  /** Reads and accepts that find something are one step, others poll. */
  lemma ReadsAreRuns(n: Net, j: nat, want: nat, script: seq<Buf.ReadAnswer>) returns (xs: seq<Step>)
    requires n.rx.Valid() && n.taken <= |n.Wire()| && Honest(n, script) && CanDo(n.rx, Take(j, want))
    ensures NetRun(n, xs) && NetAfter(n, xs).rx == ReadFrom(n.rx, j, want, script).0 && NetAfter(n, xs).tx == n.tx
  {
    hide Exec, Honest, PollAll, Rx.Valid;
    xs := [];
    if want > 0 && n.rx.entries[j].buffer.Taken(want) != [] {
      NetCons(n, Local(Take(j, want)), []);
      xs := [Local(Take(j, want))] + [];
    } else if want > 0 && n.rx.Mapped(j) {
      xs := PollsAreRuns(n, script);
    }
  }

  lemma AcceptsAreRuns(n: Net, script: seq<Buf.ReadAnswer>) returns (xs: seq<Step>)
    requires n.rx.Valid() && n.taken <= |n.Wire()| && Honest(n, script) && n.rx.listener
    ensures NetRun(n, xs) && NetAfter(n, xs).rx == AcceptFrom(n.rx, script).0 && NetAfter(n, xs).tx == n.tx
  {
    hide Exec, Honest, PollAll, Rx.Valid;
    if n.rx.chan != [] {
      NetCons(n, Local(Accept), []);
      xs := [Local(Accept)] + [];
    } else {
      xs := PollsAreRuns(n, script);
    }
  }

  // ---------------------------------------------------------------- end to end

  /** The writer `i` and the registration `j` are the two ends of one connection. */
  predicate Paired(n: Net, i: nat, j: nat) {
    && i < |n.tx.conns| && i < |n.tx.epochs| && j < |n.rx.entries| && j < |n.epochs|
    && n.tx.conns[i].addr == n.rx.entries[j].addr && n.tx.epochs[i] == n.epochs[j]
  }

  /** Nothing is lost, invented, reordered or misdelivered: for a connection whose reader is
      alive, every byte its writer accepted has been read, is in the reader's buffer, is on
      the wire, or is in the writer's packet, in this order. */
  lemma ConservedNow(n: Net, i: nat, j: nat)
    requires NetInv(n) && Paired(n, i, j) && n.rx.entries[j].alive
    ensures n.tx.conns[i].pushed ==
              n.rx.entries[j].got + n.rx.entries[j].buffer.Contents()
              + n.InFlight(n.tx.conns[i].addr, n.tx.epochs[i]) + n.tx.conns[i].Unsent()
  {
    var a, e := n.tx.conns[i].addr, n.tx.epochs[i];
    WrittenNow(n, i);
    DeliveredNow(n, j);
    hide NetInv, Session, Conn.Unsent, Net.InFlight;
    var x, y := n.rx.entries[j].got + n.rx.entries[j].buffer.Contents(), n.InFlight(a, e);
    assert Session(START, n.Wire(), a, e) == x + y;
  }

  lemma WriterFacts(n: Net, i: nat)
    requires NetInv(n) && i < |n.tx.conns|
    ensures n.taken <= |n.Wire()| && i < |n.tx.epochs|
    ensures n.tx.conns[i].Ok() && Accounts(n.tx.conns[i], n.tx.epochs[i], n.Wire())
  {
    hide Accounts, Conn.Ok, Joined;
  }

  lemma ReaderFacts(n: Net, j: nat)
    requires NetInv(n) && j < |n.rx.entries|
    ensures n.taken <= |n.Wire()| && j < |n.epochs| && n.rx.Valid() && j < |Abs(n.rx).regs|
    ensures RegLinked(Abs(n.rx), j, n.epochs[j], n.Taken())
    ensures Abs(n.rx).regs[j] == RegOf(n.rx.entries[j]) && (Abs(n.rx).Mapped(j) <==> n.rx.Mapped(j))
  {
    hide RegLinked, Inv, Matched;
  }

  /** What a writer accepted is in its session on the wire or unsent. */
  lemma WrittenNow(n: Net, i: nat)
    requires NetInv(n) && i < |n.tx.conns|
    ensures i < |n.tx.epochs|
    ensures var a, e := n.tx.conns[i].addr, n.tx.epochs[i];
            && n.tx.conns[i].pushed == Session(START, n.Wire(), a, e) + n.tx.conns[i].Unsent()
            && Session(START, n.Wire(), a, e) == Session(START, n.Taken(), a, e) + n.InFlight(a, e)
  {
    hide NetInv, Session, Parse, Empties, Ledger, Conn.Ok;
    WriterFacts(n, i);
    TakenIsPrefix(n);
    SessionConcat(START, n.Taken(), n.Wire()[n.taken..], n.tx.conns[i].addr, n.tx.epochs[i]);
  }

  /** What a reader was given is its session as far as it has been taken. */
  lemma DeliveredNow(n: Net, j: nat)
    requires NetInv(n) && j < |n.rx.entries| && n.rx.entries[j].alive
    ensures j < |n.epochs|
    ensures n.rx.entries[j].got + n.rx.entries[j].buffer.Contents()
         == Session(START, n.Taken(), n.rx.entries[j].addr, n.epochs[j])
  {
    hide NetInv, Session, Empties;
    ReaderFacts(n, j);
  }

  /** End-to-end conservation over every orderly run, for any interleaving of writers, any
      short writes, any chunking of reads, any pace of the readers, and addresses used again
      and again. */
  lemma {:induction false} Conservation(xs: seq<Step>, i: nat, j: nat)
    requires NetRun(START_NET, xs)
    requires var n := NetAfter(START_NET, xs); Paired(n, i, j) && n.rx.entries[j].alive
    ensures var n := NetAfter(START_NET, xs);
            && n.taken <= |n.Wire()|
            && n.tx.conns[i].pushed ==
                 n.rx.entries[j].got + n.rx.entries[j].buffer.Contents()
                 + n.InFlight(n.tx.conns[i].addr, n.tx.epochs[i]) + n.tx.conns[i].Unsent()
  {
    StartInv();
    NetInvRun(START_NET, xs);
    ConservedNow(NetAfter(START_NET, xs), i, j);
  }

  lemma PairedUnique(n: Net, i: nat, i': nat, j: nat, j': nat)
    requires NetInv(n) && Paired(n, i, j)
    ensures Paired(n, i', j) ==> i' == i
    ensures Paired(n, i, j') ==> j' == j
  {
    var r := Abs(n.rx);
    assert Apart(n.tx) && Ascend(r, n.epochs);
    assert r.regs[j].addr == n.rx.entries[j].addr;
    if Paired(n, i', j) {
      assert i' < i || i < i' || i == i';
    }
    if Paired(n, i, j') {
      assert r.regs[j'].addr == n.rx.entries[j'].addr;
      assert j' < j || j < j' || j == j';
    }
  }

  /** The two ends of a connection find each other, over every orderly run. A registration is
      paired with exactly one writer, which dialled exactly if a header made the registration;
      only one made by a local add_connection may wait for its writer. A writer that was
      accepted has exactly one registration; one that dialled has it as soon as its opening
      has been read, while there is a listener. */
  lemma {:induction false} EndsMeet(xs: seq<Step>, i: nat, j: nat)
    requires NetRun(START_NET, xs)
    ensures var n := NetAfter(START_NET, xs);
            && n.taken <= |n.Wire()|
            && (j < |n.rx.entries| ==>
                  || (exists k: nat :: Paired(n, k, j) && n.tx.conns[k].dialled == n.rx.entries[j].byHeader
                        && forall k': nat :: Paired(n, k', j) ==> k' == k)
                  || (!n.rx.entries[j].byHeader && n.rx.entries[j].addr in n.pending
                      && j < |n.epochs| && n.epochs[j] == Empties(START, n.Wire(), n.rx.entries[j].addr)))
            && (i < |n.tx.conns| ==>
                  && i < |n.tx.epochs|
                  && var c := n.tx.conns[i];
                     (c.dialled ==> Empties(START, n.Taken(), c.addr) >= n.tx.epochs[i] && n.rx.listener) ==>
                       exists k: nat :: Paired(n, i, k) && forall k': nat :: Paired(n, i, k') ==> k' == k)
  {
    StartInv();
    NetInvRun(START_NET, xs);
    var n := NetAfter(START_NET, xs);
    hide NetRun, NetAfter;
    if j < |n.rx.entries| {
      WriterOf(n, j);
    }
    if i < |n.tx.conns| {
      ReaderOf(n, i);
    }
  }

  lemma WriterOf(n: Net, j: nat)
    requires NetInv(n) && j < |n.rx.entries|
    ensures || (exists k: nat :: Paired(n, k, j) && n.tx.conns[k].dialled == n.rx.entries[j].byHeader
                  && forall k': nat :: Paired(n, k', j) ==> k' == k)
            || (!n.rx.entries[j].byHeader && n.rx.entries[j].addr in n.pending
                && j < |n.epochs| && n.epochs[j] == Empties(START, n.Wire(), n.rx.entries[j].addr))
  {
    var r := Abs(n.rx);
    assert RegMatched(n.tx, n.pending, r.regs[j], n.epochs[j]);
    if HasWriter(n.tx, r.regs[j].addr, n.epochs[j], r.regs[j].byHeader) {
      var k :| 0 <= k < |n.tx.conns| && k < |n.tx.epochs|
        && n.tx.conns[k].addr == r.regs[j].addr && n.tx.epochs[k] == n.epochs[j] && n.tx.conns[k].dialled == r.regs[j].byHeader;
      assert Paired(n, k, j);
      forall k': nat | Paired(n, k', j)
        ensures k' == k
      {
        PairedUnique(n, k, k', j, j);
      }
    }
  }

  lemma ReaderOf(n: Net, i: nat)
    requires NetInv(n) && i < |n.tx.conns|
    ensures i < |n.tx.epochs|
    ensures var c := n.tx.conns[i];
            (c.dialled ==> Empties(START, n.Taken(), c.addr) >= n.tx.epochs[i] && n.rx.listener) ==>
              exists k: nat :: Paired(n, i, k) && forall k': nat :: Paired(n, i, k') ==> k' == k
  {
    var r, c := Abs(n.rx), n.tx.conns[i];
    assert ConnMatched(r, n.epochs, n.Taken(), c, n.tx.epochs[i]);
    if HasReader(r, n.epochs, c.addr, n.tx.epochs[i]) {
      var k :| 0 <= k < |r.regs| && k < |n.epochs| && r.regs[k].addr == c.addr && n.epochs[k] == n.tx.epochs[i];
      assert Paired(n, i, k);
      forall k': nat | Paired(n, i, k')
        ensures k' == k
      {
        PairedUnique(n, i, i, k, k');
      }
    }
  }

  /** A registration the map no longer leads to has nothing in flight, and its writer has sent
      its close. */
  lemma NothingInFlight(n: Net, i: nat, j: nat)
    requires NetInv(n) && Paired(n, i, j) && !n.rx.Mapped(j)
    ensures n.InFlight(n.tx.conns[i].addr, n.tx.epochs[i]) == []
    ensures n.tx.conns[i].Ok() && CloseSent(n.tx.conns[i])
  {
    hide NetInv, Session, Empties, Parse, Conn.Ok, Conserved, Abs;
    var a := n.tx.conns[i].addr;
    WriterFacts(n, i);
    ReaderFacts(n, j);
    TakenIsPrefix(n);
    EmptiesPrefix(n.Taken(), n.Wire(), a);
    SessionBeyond(Parse(START, n.Taken()), n.Wire()[n.taken..], a, n.tx.epochs[i] - Empties(START, n.Taken(), a));
  }

  /** What a connection that has sent its close may not have sent. */
  lemma OnlyDropGivesUp(c: Conn)
    requires c.Ok() && CloseSent(c)
    ensures Closing(c.phase) ==> c.Unsent() == []
  {
  }

  /** The close of a registration that is not known any more is on the wire. */
  lemma NotOpenAnyMore(n: Net, j: nat)
    requires NetInv(n) && j < |n.rx.entries| && !n.rx.Mapped(j)
    ensures j < |n.epochs| && n.epochs[j] < Empties(START, n.Wire(), n.rx.entries[j].addr)
  {
    hide NetInv, Session, Empties, Abs;
    ReaderFacts(n, j);
    TakenIsPrefix(n);
    EmptiesPrefix(n.Taken(), n.Wire(), n.rx.entries[j].addr);
  }

  /** A finished registration has its writer. */
  lemma CompleteNow(n: Net, j: nat)
    requires NetInv(n) && j < |n.rx.entries| && n.rx.entries[j].alive
    requires !n.rx.Mapped(j) && n.rx.entries[j].buffer.Contents() == []
    ensures exists i: nat :: Paired(n, i, j) && Finished(n.tx.conns[i], n.rx.entries[j].got)
  {
    hide NetInv, Closing, CloseSent, Conn.Unsent;
    WriterOf(n, j);
    NotOpenAnyMore(n, j);
    var i: nat :| Paired(n, i, j);
    ConservedNow(n, i, j);
    NothingInFlight(n, i, j);
    OnlyDropGivesUp(n.tx.conns[i]);
    assert n.rx.entries[j].got + [] + [] == n.rx.entries[j].got;
    assert n.rx.entries[j].got + [] == n.rx.entries[j].got;
  }

  /** The writer has sent its close, and its reader got everything, except a packet given up
      by a dropped connection. */
  ghost predicate Finished(c: Conn, got: seq<Byte>) {
    && CloseSent(c)
    && c.pushed == got + c.Unsent()
    && (Closing(c.phase) ==> got == c.pushed)
  }

  /** Complete delivery over every orderly run: a reader that reports the end of the stream
      belongs to a writer that has sent its close, and has handed out exactly what that writer
      accepted, apart from a packet given up by a dropped connection; after a shutdown there
      is no such packet. */
  lemma {:induction false} EndOfStreamIsComplete(xs: seq<Step>, j: nat, want: nat, script: seq<Buf.ReadAnswer>)
    requires NetRun(START_NET, xs)
    requires var n := NetAfter(START_NET, xs);
             && n.rx.Valid() && CanDo(n.rx, Take(j, want)) && want > 0
             && n.rx.entries[j].alive && ReadFrom(n.rx, j, want, script).1 == Got([])
    ensures var n := NetAfter(START_NET, xs);
            exists i: nat :: Paired(n, i, j) && Finished(n.tx.conns[i], n.rx.entries[j].got)
  {
    StartInv();
    NetInvRun(START_NET, xs);
    var n := NetAfter(START_NET, xs);
    hide NetRun, NetAfter;
    ReadReports(n.rx, j, want, script);
    CompleteNow(n, j);
  }

  // ---------------------------------------------------------------- opening again

  /** Every writer of `a` that the other end has heard of has closed, and the other end is not
      waiting for one. */
  predicate Forgotten(n: Net, a: Addr) {
    && a !in n.pending
    && forall i :: 0 <= i < |n.tx.conns| && n.tx.conns[i].addr == a && Opened(n.tx.conns[i]) ==> CloseSent(n.tx.conns[i])
  }

  /** The reading end, when it has read all of the wire. */
  lemma CaughtUp(n: Net)
    requires NetInv(n) && !Abs(n.rx).parser.Stopped?
    ensures var r, es := Feed(Abs(n.rx), n.Wire()[n.taken..]), EpochsAfter(Abs(n.rx), n.epochs, n.Taken(), n.Wire()[n.taken..]);
            && Linked(r, es, n.Wire()) && Matched(n.tx, n.pending, r, es, n.Wire())
            && r.parser == Parse(START, n.Wire()) && r.listener == n.rx.listener
  {
    var r, rest := Abs(n.rx), n.Wire()[n.taken..];
    TakenIsPrefix(n);
    LinkedParser(r, n.epochs, n.Taken());
    ParseConcat(START, n.Taken(), rest);
    FeedParses(r, rest);
    hide Linked, Matched, Inv, EpochsAfter, Feed, Parse;
    LinkBytes(r, n.epochs, n.Taken(), rest);
    MatchBytes(n.tx, n.pending, r, n.epochs, n.Taken(), rest);
    FeedListener(r, rest);
  }

  lemma {:induction false} FeedListener(r: Ref, bytes: seq<Byte>)
    ensures Feed(r, bytes).listener == r.listener
    decreases |bytes|
  {
    if bytes != [] {
      FeedListener(FeedByte(r, bytes[0]), bytes[1..]);
    }
  }

  /** An address is known to a reading end that has caught up exactly if it is not forgotten. */
  lemma KnownExactly(n: Net, r: Ref, es: seq<nat>, a: Addr)
    requires Inv(n.tx) && Linked(r, es, n.Wire()) && Matched(n.tx, n.pending, r, es, n.Wire()) && r.listener
    ensures a in r.sockets <==> !Forgotten(n, a)
  {
    var z := Empties(START, n.Wire(), a);
    ReaderIsMapped(r, es, n.Wire(), a);
    if a in r.sockets {
      var j := r.sockets[a];
      assert RegLinked(r, j, es[j], n.Wire()) && r.Mapped(j);
      assert RegMatched(n.tx, n.pending, r.regs[j], es[j]);
      if a !in n.pending {
        var i :| 0 <= i < |n.tx.conns| && i < |n.tx.epochs| && n.tx.conns[i].addr == a && n.tx.epochs[i] == z;
        assert Accounts(n.tx.conns[i], n.tx.epochs[i], n.Wire());
      }
    } else {
      assert a in n.pending ==> PendingMatched(n.tx, r, es, n.Wire(), a);
      forall i | 0 <= i < |n.tx.conns| && n.tx.conns[i].addr == a && Opened(n.tx.conns[i])
        ensures CloseSent(n.tx.conns[i])
      {
        assert Accounts(n.tx.conns[i], n.tx.epochs[i], n.Wire()) && ConnMatched(r, es, n.Wire(), n.tx.conns[i], n.tx.epochs[i]);
      }
    }
  }

  /** Opening an address again, exactly: in every state of every orderly run, an opening header
      for `a` put on the wire now registers a new connection at a reading end with a listener
      if and only if the close of every writer that has opened `a` is already on the wire and
      `a` does not wait for an answer; otherwise it is read as a close. */
  lemma ReopensExactly(n: Net, a: Addr)
    requires NetInv(n) && n.rx.listener && !Abs(n.rx).parser.Stopped? && Parse(START, n.Wire()) == START
    ensures var r := Feed(Abs(n.rx), n.Wire()[n.taken..]);
            var r' := Feed(r, Header(a, 0));
            if Forgotten(n, a) then r'.regs == r.regs + [Reg(a, [], true, true)] && r'.Mapped(|r.regs|)
            else r'.regs == r.regs && a in r.sockets && a !in r'.sockets
  {
    CaughtUp(n);
    var r, es := Feed(Abs(n.rx), n.Wire()[n.taken..]), EpochsAfter(Abs(n.rx), n.epochs, n.Taken(), n.Wire()[n.taken..]);
    KnownExactly(n, r, es, a);
    hide NetInv, Feed, EpochsAfter, Linked, Matched, Forgotten;
    if a in r.sockets {
      LoneClose(r, a);
    } else {
      LoneHeader(r, a);
    }
  }
}
