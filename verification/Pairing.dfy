/** Which registration at the reading end belongs to which writer: the one of the same address
    and the same epoch. That they find each other, however often an address is used. */
module Pairings {
  import opened Protocol
  import opened Framing
  import opened Connections
  import opened Writers
  import opened Demux
  import opened Delivery

  ghost predicate HasWriter(tx: Sys, a: Addr, e: nat, dialled: bool) {
    exists i :: 0 <= i < |tx.conns| && i < |tx.epochs|
      && tx.conns[i].addr == a && tx.epochs[i] == e && tx.conns[i].dialled == dialled
  }

  ghost predicate HasReader(r: Ref, es: seq<nat>, a: Addr, e: nat) {
    exists j :: 0 <= j < |r.regs| && j < |es| && r.regs[j].addr == a && es[j] == e
  }

  /** A registration has its writer, which dialled if a header made the registration; or it
      was made here and the other end has not answered yet. */
  ghost predicate RegMatched(tx: Sys, pending: set<Addr>, reg: Reg, e: nat) {
    || HasWriter(tx, reg.addr, e, reg.byHeader)
    || (!reg.byHeader && reg.addr in pending && e == Empties(START, tx.port.wire, reg.addr))
  }

  /** A writer has its registration; one that dialled once its opening has been read, unless
      nobody listens any more. */
  ghost predicate ConnMatched(r: Ref, es: seq<nat>, taken: seq<Byte>, c: Conn, e: nat) {
    (c.dialled ==> Empties(START, taken, c.addr) >= e && r.listener) ==> HasReader(r, es, c.addr, e)
  }

  /** An address that waits for an answer is registered, and otherwise not in use. */
  ghost predicate PendingMatched(tx: Sys, r: Ref, es: seq<nat>, taken: seq<Byte>, a: Addr) {
    && Free(tx, a)
    && Empties(START, taken, a) == Empties(START, tx.port.wire, a)
    && HasReader(r, es, a, Empties(START, taken, a))
  }

  ghost predicate Matched(tx: Sys, pending: set<Addr>, r: Ref, es: seq<nat>, taken: seq<Byte>) {
    && |es| == |r.regs| && |tx.epochs| == |tx.conns|
    && (forall j :: 0 <= j < |r.regs| ==> RegMatched(tx, pending, r.regs[j], es[j]))
    && (forall i :: 0 <= i < |tx.conns| ==> ConnMatched(r, es, taken, tx.conns[i], tx.epochs[i]))
    && (forall a :: a in pending ==> PendingMatched(tx, r, es, taken, a))
  }

  // ---------------------------------------------------------------- reading

  /** Is this byte the last of an empty header for `a`? */
  predicate EndsEmpty(p: Parser, b: Byte, a: Addr) {
    HeadByte(p, b, a) == [0]
  }

  lemma EmptiesStep(taken: seq<Byte>, b: Byte, a: Addr)
    ensures Empties(START, taken + [b], a)
         == Empties(START, taken, a) + if EndsEmpty(Parse(START, taken), b, a) then 1 else 0
  {
    ParseSnoc(START, taken, b, a);
    var h := HeadByte(Parse(START, taken), b, a);
    if h != [] {
      ZerosOfOne(h[0]);
    }
  }

  /** There are no more empty frames in a prefix. */
  lemma EmptiesPrefix(x: seq<Byte>, wire: seq<Byte>, a: Addr)
    requires x <= wire
    ensures Empties(START, x, a) <= Empties(START, wire, a)
  {
    assert wire == x + wire[|x|..];
    EmptiesConcat(START, x, wire[|x|..], a);
  }

  /** An empty header on the wire is due to a writer. */
  lemma EmptyIsDue(tx: Sys, taken: seq<Byte>, b: Byte, a: Addr)
    requires Explained(tx, a) && taken + [b] <= tx.port.wire && EndsEmpty(Parse(START, taken), b, a)
    ensures Due(tx, a, Empties(START, taken, a), 0)
    ensures Empties(START, taken, a) < Empties(START, tx.port.wire, a)
  {
    var wire, h := tx.port.wire, Heads(START, taken, a);
    var more := wire[|taken| + 1..];
    assert wire == (taken + [b]) + more;
    ParseSnoc(START, taken, b, a);
    HeadsConcat(START, taken + [b], more, a);
    var all := Heads(START, wire, a);
    assert all == h + [0] + Heads(Parse(START, taken + [b]), more, a);
    assert all[..|h|] == h && all[|h|] == 0;
    EmptiesStep(taken, b, a);
    EmptiesPrefix(taken + [b], wire, a);
  }

  lemma {:induction false} LastZero(h: seq<Length>)
    requires Zeros(h) > 0
    ensures exists k :: 0 <= k < |h| && h[k] == 0 && Zeros(h[..k]) == Zeros(h) - 1
    decreases |h|
  {
    var n := |h| - 1;
    assert h == h[..n] + [h[n]];
    ZerosConcat(h[..n], [h[n]]);
    ZerosOfOne(h[n]);
    if h[n] != 0 {
      LastZero(h[..n]);
      var k :| 0 <= k < n && h[..n][k] == 0 && Zeros(h[..n][..k]) == Zeros(h[..n]) - 1;
      assert h[..n][..k] == h[..k] && h[k] == 0;
    }
  }

  /** The last empty frame for an address is due to a writer. */
  lemma LastIsDue(tx: Sys, a: Addr)
    requires Inv(tx) && Empties(START, tx.port.wire, a) > 0
    ensures Due(tx, a, Empties(START, tx.port.wire, a) - 1, 0)
  {
    var h := Heads(START, tx.port.wire, a);
    LastZero(h);
    hide Heads, Due;
    assert Explained(tx, a);
  }

  /** More registrations do not take readers away. */
  lemma ReaderStays(r: Ref, es: seq<nat>, r': Ref, es': seq<nat>, a: Addr, e: nat)
    requires HasReader(r, es, a, e) && |es| == |r.regs| && es <= es' && |r.regs| <= |r'.regs|
    requires forall j :: 0 <= j < |r.regs| ==> r'.regs[j].addr == r.regs[j].addr
    ensures HasReader(r', es', a, e)
  {
    var j :| 0 <= j < |r.regs| && j < |es| && r.regs[j].addr == a && es[j] == e;
    assert r'.regs[j].addr == a && es'[j] == e;
  }

  /** A registration whose epoch is on leads from its address. */
  lemma ReaderIsMapped(r: Ref, es: seq<nat>, taken: seq<Byte>, a: Addr)
    requires Linked(r, es, taken)
    ensures a in r.sockets <==> HasReader(r, es, a, Empties(START, taken, a))
  {
    if a in r.sockets {
      var j := r.sockets[a];
      assert RegLinked(r, j, es[j], taken) && r.Mapped(j);
    }
    if HasReader(r, es, a, Empties(START, taken, a)) {
      var j :| 0 <= j < |r.regs| && j < |es| && r.regs[j].addr == a && es[j] == Empties(START, taken, a);
      assert RegLinked(r, j, es[j], taken);
    }
  }

  /** Two sessions of one address do not meet at an empty frame. */
  lemma NotBoth(tx: Sys, a: Addr, k: nat, d: bool)
    requires |tx.epochs| == |tx.conns| && Apart(tx) && HasWriter(tx, a, k, d)
    ensures !HasWriter(tx, a, k + 1, true)
  {
    var i :| 0 <= i < |tx.conns| && tx.conns[i].addr == a && tx.epochs[i] == k && tx.conns[i].dialled == d;
    forall j | 0 <= j < |tx.conns| && tx.conns[j].addr == a && tx.conns[j].dialled
      ensures tx.epochs[j] != k + 1
    {
      assert i < j || j < i || j == i;
    }
  }

  /** A known address has a writer whose epoch is on, if there are empty frames to come. */
  lemma KnownHasWriter(tx: Sys, pending: set<Addr>, r: Ref, es: seq<nat>, taken: seq<Byte>, a: Addr) returns (d: bool)
    requires Linked(r, es, taken) && Matched(tx, pending, r, es, taken) && a in r.sockets
    requires Empties(START, taken, a) < Empties(START, tx.port.wire, a)
    ensures HasWriter(tx, a, Empties(START, taken, a), d)
  {
    hide Empties, Session, Parse, HasWriter, ConnMatched, PendingMatched;
    var j := r.sockets[a];
    assert RegLinked(r, j, es[j], taken) && r.Mapped(j);
    assert RegMatched(tx, pending, r.regs[j], es[j]);
    d := r.regs[j].byHeader;
  }

  /** An empty header that closes a registration opens none of the writers. */
  lemma CloseOpensNone(tx: Sys, pending: set<Addr>, r: Ref, es: seq<nat>, taken: seq<Byte>, b: Byte, a: Addr)
    requires Inv(tx) && Linked(r, es, taken) && Matched(tx, pending, r, es, taken)
    requires taken + [b] <= tx.port.wire && EndsEmpty(Parse(START, taken), b, a) && a in r.sockets
    ensures !HasWriter(tx, a, Empties(START, taken, a) + 1, true)
  {
    hide Explained, Sourced, Accounts, Aligned, Apart, Empties, Parse, HasWriter, Linked, Matched, EndsEmpty;
    assert Explained(tx, a);
    EmptyIsDue(tx, taken, b, a);
    var d := KnownHasWriter(tx, pending, r, es, taken, a);
    assert |tx.epochs| == |tx.conns| by { AlignedCounts(tx); }
    NotBoth(tx, a, Empties(START, taken, a), d);
  }

  lemma AlignedCounts(tx: Sys)
    requires Aligned(tx)
    ensures |tx.epochs| == |tx.conns|
  {
  }

  /** An empty header that somebody is there to take as an opening is one. */
  lemma OpeningIsOne(tx: Sys, pending: set<Addr>, r: Ref, es: seq<nat>, taken: seq<Byte>, b: Byte, a: Addr)
    requires Inv(tx) && Linked(r, es, taken) && Matched(tx, pending, r, es, taken)
    requires taken + [b] <= tx.port.wire && EndsEmpty(Parse(START, taken), b, a) && a !in r.sockets && r.listener
    ensures HasWriter(tx, a, Empties(START, taken, a) + 1, true)
  {
    EmptyIsDue(tx, taken, b, a);
    ReaderIsMapped(r, es, taken, a);
    hide Aligned, Explained, Sourced, Empties, Linked;
    var z := Empties(START, taken, a);
    var i :| 0 <= i < |tx.conns| && i < |tx.epochs| && Covers(tx.conns[i], tx.epochs[i], a, z, 0);
    assert ConnMatched(r, es, taken, tx.conns[i], tx.epochs[i]);
    assert tx.epochs[i] == z + 1 && tx.conns[i].dialled && tx.conns[i].addr == a;
  }

  /** What one byte does to the registrations, as far as pairing is concerned. */
  lemma ByteGrows(r: Ref, es: seq<nat>, taken: seq<Byte>, b: Byte)
    requires Linked(r, es, taken) && !r.parser.Stopped?
    ensures var r' := FeedByte(r, b);
            var es' := Grown(r', es, taken + [b]);
            && |es'| == |r'.regs| && |r.regs| <= |r'.regs| <= |r.regs| + 1 && es <= es' && r'.listener == r.listener
            && (forall j :: 0 <= j < |r.regs| ==> r'.regs[j].addr == r.regs[j].addr && r'.regs[j].byHeader == r.regs[j].byHeader)
            && (|r'.regs| > |r.regs| ==>
                  var n := |r.regs|;
                  && r'.regs[n].byHeader && r.listener && r'.regs[n].addr !in r.sockets
                  && EndsEmpty(r.parser, b, r'.regs[n].addr)
                  && es'[n] == Empties(START, taken, r'.regs[n].addr) + 1)
            && (forall a: Addr :: EndsEmpty(r.parser, b, a) && a !in r.sockets && r.listener ==>
                  |r'.regs| > |r.regs| && r'.regs[|r.regs|].addr == a)
  {
    if |FeedByte(r, b).regs| > |r.regs| {
      RegBegins(r, taken, b);
    }
  }

  lemma MatchConn(tx: Sys, pending: set<Addr>, r: Ref, es: seq<nat>, taken: seq<Byte>, b: Byte, i: nat)
    requires Inv(tx) && Linked(r, es, taken) && Matched(tx, pending, r, es, taken) && !r.parser.Stopped?
    requires taken + [b] <= tx.port.wire && i < |tx.conns|
    ensures var r' := FeedByte(r, b);
            ConnMatched(r', Grown(r', es, taken + [b]), taken + [b], tx.conns[i], tx.epochs[i])
  {
    hide Inv, FeedByte, Grown, Empties, Parse, Linked, EndsEmpty, HasReader, HasWriter, RegMatched, PendingMatched;
    var c, e, r' := tx.conns[i], tx.epochs[i], FeedByte(r, b);
    var es' := Grown(r', es, taken + [b]);
    assert ConnMatched(r, es, taken, c, e);
    ByteGrows(r, es, taken, b);
    EmptiesStep(taken, b, c.addr);
    var z := Empties(START, taken, c.addr);
    if HasReader(r, es, c.addr, e) {
      ReaderStays(r, es, r', es', c.addr, e);
    } else if c.dialled && r.listener && e == z + 1 && EndsEmpty(Parse(START, taken), b, c.addr) {
      assert r.parser == Parse(START, taken) by { LinkedParser(r, es, taken); }
      assert HasWriter(tx, c.addr, z + 1, true) by { WriterAt(tx, i); }
      if c.addr in r.sockets {
        CloseOpensNone(tx, pending, r, es, taken, b, c.addr);
      }
      assert HasReader(r', es', c.addr, e) by { ReaderAt(r', es', |r.regs|); }
    }
  }

  lemma LinkedParser(r: Ref, es: seq<nat>, taken: seq<Byte>)
    requires Linked(r, es, taken) && !r.parser.Stopped?
    ensures r.parser == Parse(START, taken)
  {
  }

  lemma WriterAt(tx: Sys, i: nat)
    requires i < |tx.conns| == |tx.epochs|
    ensures HasWriter(tx, tx.conns[i].addr, tx.epochs[i], tx.conns[i].dialled)
  {
  }

  lemma ReaderAt(r: Ref, es: seq<nat>, j: nat)
    requires j < |r.regs| == |es|
    ensures HasReader(r, es, r.regs[j].addr, es[j])
  {
  }

  lemma MatchPending(tx: Sys, pending: set<Addr>, r: Ref, es: seq<nat>, taken: seq<Byte>, b: Byte, a: Addr)
    requires Inv(tx) && Linked(r, es, taken) && Matched(tx, pending, r, es, taken) && !r.parser.Stopped?
    requires taken + [b] <= tx.port.wire && a in pending
    ensures var r' := FeedByte(r, b);
            PendingMatched(tx, r', Grown(r', es, taken + [b]), taken + [b], a)
  {
    assert PendingMatched(tx, r, es, taken, a);
    ByteGrows(r, es, taken, b);
    EmptiesStep(taken, b, a);
    EmptiesPrefix(taken + [b], tx.port.wire, a);
    hide FeedByte, Grown, Empties, Parse, Linked, EndsEmpty, Matched, HasReader, Free, Inv;
    ReaderStays(r, es, FeedByte(r, b), Grown(FeedByte(r, b), es, taken + [b]), a, Empties(START, taken, a));
  }

  /** Reading one more byte of the wire. */
  lemma MatchByte(tx: Sys, pending: set<Addr>, r: Ref, es: seq<nat>, taken: seq<Byte>, b: Byte)
    requires Inv(tx) && Linked(r, es, taken) && Matched(tx, pending, r, es, taken) && !r.parser.Stopped?
    requires taken + [b] <= tx.port.wire
    ensures var r' := FeedByte(r, b);
            Matched(tx, pending, r', Grown(r', es, taken + [b]), taken + [b])
  {
    ByteGrows(r, es, taken, b);
    LinkedParser(r, es, taken);
    var r' := FeedByte(r, b);
    var es' := Grown(r', es, taken + [b]);
    hide FeedByte, Grown, Linked, Inv, Empties, Parse, EndsEmpty, ConnMatched, PendingMatched, HasWriter;
    forall j | 0 <= j < |r'.regs|
      ensures RegMatched(tx, pending, r'.regs[j], es'[j])
    {
      if j < |r.regs| {
        assert RegMatched(tx, pending, r.regs[j], es[j]);
      } else {
        OpeningIsOne(tx, pending, r, es, taken, b, r'.regs[j].addr);
      }
    }
    forall i | 0 <= i < |tx.conns|
      ensures ConnMatched(r', es', taken + [b], tx.conns[i], tx.epochs[i])
    {
      MatchConn(tx, pending, r, es, taken, b, i);
    }
    forall a | a in pending
      ensures PendingMatched(tx, r', es', taken + [b], a)
    {
      MatchPending(tx, pending, r, es, taken, b, a);
    }
  }

  lemma {:induction false} MatchBytes(tx: Sys, pending: set<Addr>, r: Ref, es: seq<nat>, taken: seq<Byte>, bytes: seq<Byte>)
    requires Inv(tx) && Linked(r, es, taken) && Matched(tx, pending, r, es, taken)
    requires (bytes != [] ==> !r.parser.Stopped?) && taken + bytes <= tx.port.wire
    ensures Matched(tx, pending, Feed(r, bytes), EpochsAfter(r, es, taken, bytes), taken + bytes)
    decreases |bytes|
  {
    hide Linked, Grown, Matched, Inv;
    if bytes == [] {
      assert taken + bytes == taken;
    } else {
      var b, rest := bytes[0], bytes[1..];
      assert taken + bytes == taken + [b] + rest;
      LinkByte(r, es, taken, b);
      MatchByte(tx, pending, r, es, taken, b);
      MatchBytes(tx, pending, FeedByte(r, b), Grown(FeedByte(r, b), es, taken + [b]), taken + [b], rest);
    }
  }

  /** Readers and the listener going away concern no pairing. */
  lemma MatchDeparture(tx: Sys, pending: set<Addr>, r: Ref, e: Happening, es: seq<nat>, taken: seq<Byte>)
    requires Matched(tx, pending, r, es, taken) && (e.DropReader? || e.ListenerGone? || e.Stop?)
    ensures Matched(tx, pending, Apply(r, e), es, taken)
  {
    var r' := Apply(r, e);
    assert |r'.regs| == |r.regs|;
    assert forall j :: 0 <= j < |r.regs| ==> r'.regs[j].addr == r.regs[j].addr && r'.regs[j].byHeader == r.regs[j].byHeader;
    hide Apply, Empties, HasReader, HasWriter, Free;
    forall j | 0 <= j < |r'.regs|
      ensures RegMatched(tx, pending, r'.regs[j], es[j])
    {
      assert RegMatched(tx, pending, r.regs[j], es[j]);
    }
    assert r'.listener ==> r.listener by { ListenerLeaves(r, e); }
    forall i | 0 <= i < |tx.conns|
      ensures ConnMatched(r', es, taken, tx.conns[i], tx.epochs[i])
    {
      assert ConnMatched(r, es, taken, tx.conns[i], tx.epochs[i]);
      if HasReader(r, es, tx.conns[i].addr, tx.epochs[i]) {
        ReaderStays(r, es, r', es, tx.conns[i].addr, tx.epochs[i]);
      }
    }
    forall a | a in pending
      ensures PendingMatched(tx, r', es, taken, a)
    {
      assert PendingMatched(tx, r, es, taken, a);
      ReaderStays(r, es, r', es, a, Empties(START, taken, a));
    }
  }

  lemma ListenerLeaves(r: Ref, e: Happening)
    ensures Apply(r, e).listener ==> r.listener
  {
  }

  // ---------------------------------------------------------------- writing

  /** Writers going on, with the same addresses and epochs. */
  lemma WriterStays(tx: Sys, tx': Sys, a: Addr, e: nat, d: bool)
    requires HasWriter(tx, a, e, d) && Extends(tx, tx')
    ensures HasWriter(tx', a, e, d)
  {
    var i :| 0 <= i < |tx.conns| && i < |tx.epochs|
      && tx.conns[i].addr == a && tx.epochs[i] == e && tx.conns[i].dialled == d;
    assert tx'.conns[i].addr == a && tx'.epochs[i] == e && tx'.conns[i].dialled == d;
  }

  /** A free address stays free, and nothing more is sent for it. */
  lemma FreeStays(tx: Sys, i: nat, ev: Event, a: Addr)
    requires Inv(tx) && CanAct(tx, Do(i, ev)) && !Tears(tx.conns[i], ev) && Free(tx, a)
    ensures Free(Act(tx, Do(i, ev)), a)
    ensures Empties(START, Act(tx, Do(i, ev)).port.wire, a) == Empties(START, tx.port.wire, a)
  {
    var c := tx.conns[i];
    assert Accounts(c, tx.epochs[i], tx.port.wire) && c.Ok();
    OkKept(c, ev);
    if ev.Send? {
      SpeaksInItsEpoch(c, ev.n, tx.epochs[i], Empties(START, tx.port.wire, c.addr));
      AlignedSender(tx, i, ev.n);
      SendFacts(tx, i, ev.n);
      hide Inv, Act, Can, Conn.Ok, CloseSent, Empties, Unframe, Begun, WellOwned;
      HeadsAfterSend(c, ev.n, tx.port.wire, a);
    } else {
      SpeechKept(c, ev);
      assert tx.port.wire + [] == tx.port.wire;
    }
  }

  lemma MatchWrite(tx: Sys, pending: set<Addr>, r: Ref, es: seq<nat>, taken: seq<Byte>, i: nat, ev: Event)
    requires Inv(tx) && CanAct(tx, Do(i, ev)) && !Tears(tx.conns[i], ev) && Matched(tx, pending, r, es, taken)
    ensures Matched(Act(tx, Do(i, ev)), pending, r, es, taken)
  {
    var tx' := Act(tx, Do(i, ev));
    ActExtends(tx, Do(i, ev));
    assert |tx'.conns| == |tx.conns| && tx'.epochs == tx.epochs;
    assert forall k :: 0 <= k < |tx.conns| ==> tx'.conns[k].addr == tx.conns[k].addr && tx'.conns[k].dialled == tx.conns[k].dialled;
    hide Inv, Act, Can, Tears, Empties, HasReader, HasWriter, Extends, Free;
    forall j | 0 <= j < |r.regs|
      ensures RegMatched(tx', pending, r.regs[j], es[j])
    {
      assert RegMatched(tx, pending, r.regs[j], es[j]);
      if HasWriter(tx, r.regs[j].addr, es[j], r.regs[j].byHeader) {
        WriterStays(tx, tx', r.regs[j].addr, es[j], r.regs[j].byHeader);
      } else {
        assert PendingMatched(tx, r, es, taken, r.regs[j].addr);
        FreeStays(tx, i, ev, r.regs[j].addr);
      }
    }
    forall k | 0 <= k < |tx'.conns|
      ensures ConnMatched(r, es, taken, tx'.conns[k], tx'.epochs[k])
    {
      assert ConnMatched(r, es, taken, tx.conns[k], tx.epochs[k]);
    }
    forall a | a in pending
      ensures PendingMatched(tx', r, es, taken, a)
    {
      assert PendingMatched(tx, r, es, taken, a);
      FreeStays(tx, i, ev, a);
    }
  }

  /** A free address has no writer of the epoch that is on, or of a later one. */
  lemma FreeIsBehind(tx: Sys, a: Addr)
    requires Inv(tx) && Free(tx, a)
    ensures forall i :: 0 <= i < |tx.conns| && tx.conns[i].addr == a ==> tx.epochs[i] < Empties(START, tx.port.wire, a)
    ensures Session(START, tx.port.wire, a, Empties(START, tx.port.wire, a)) == []
  {
    forall i | 0 <= i < |tx.conns| && tx.conns[i].addr == a
      ensures tx.epochs[i] < Empties(START, tx.port.wire, a)
    {
      assert Accounts(tx.conns[i], tx.epochs[i], tx.port.wire);
    }
    NothingYet(tx, a, Empties(START, tx.port.wire, a));
  }

  /** What opening a writer changes. */
  lemma OpenFacts(tx: Sys, a: Addr, dialled: bool)
    requires |tx.epochs| == |tx.conns|
    ensures var tx', n := Act(tx, Open(a, dialled)), |tx.conns|;
            && Extends(tx, tx') && |tx'.conns| == n + 1 == |tx'.epochs| && tx'.port == tx.port
            && tx'.conns[n] == NewConn(n, a, dialled)
            && tx'.conns[n].addr == a && tx'.conns[n].dialled == dialled
            && tx'.epochs[n] == Empties(START, tx.port.wire, a) + (if dialled then 1 else 0)
            && (forall k :: 0 <= k < n ==> tx'.conns[k] == tx.conns[k] && tx'.epochs[k] == tx.epochs[k])
            && (forall b: Addr :: b != a && Free(tx, b) ==> Free(tx', b))
  {
  }

  /** A new writer: dialling, or answering an address that waits for it. */
  lemma MatchOpen(tx: Sys, pending: set<Addr>, pending': set<Addr>, r: Ref, es: seq<nat>, taken: seq<Byte>, a: Addr, dialled: bool)
    requires Matched(tx, pending, r, es, taken) && taken <= tx.port.wire
    requires pending' == pending - {a} && (a in pending <==> !dialled)
    ensures Matched(Act(tx, Open(a, dialled)), pending', r, es, taken)
  {
    var tx', n := Act(tx, Open(a, dialled)), |tx.conns|;
    OpenFacts(tx, a, dialled);
    EmptiesPrefix(taken, tx.port.wire, a);
    hide Act, Empties, HasReader, HasWriter, Extends, Free;
    forall j | 0 <= j < |r.regs|
      ensures RegMatched(tx', pending', r.regs[j], es[j])
    {
      var reg := r.regs[j];
      assert RegMatched(tx, pending, reg, es[j]);
      if HasWriter(tx, reg.addr, es[j], reg.byHeader) {
        WriterStays(tx, tx', reg.addr, es[j], reg.byHeader);
      } else if reg.addr == a {
        WriterAt(tx', n);
      }
    }
    if a in pending {
      assert PendingMatched(tx, r, es, taken, a);
    }
    forall k | 0 <= k < |tx'.conns|
      ensures ConnMatched(r, es, taken, tx'.conns[k], tx'.epochs[k])
    {
      if k < n {
        assert ConnMatched(r, es, taken, tx.conns[k], tx.epochs[k]);
      }
    }
    forall b | b in pending'
      ensures PendingMatched(tx', r, es, taken, b)
    {
      assert PendingMatched(tx, r, es, taken, b);
    }
  }

  /** A local registration for an address that is not in use. */
  lemma MatchAdopt(tx: Sys, pending: set<Addr>, r: Ref, es: seq<nat>, taken: seq<Byte>, a: Addr)
    requires Matched(tx, pending, r, es, taken) && a !in r.sockets && Free(tx, a)
    requires Empties(START, taken, a) == Empties(START, tx.port.wire, a)
    ensures Matched(tx, pending + {a}, Apply(r, Register(a)), es + [Empties(START, taken, a)], taken)
  {
    var r', es', n := Apply(r, Register(a)), es + [Empties(START, taken, a)], |r.regs|;
    assert r'.regs == r.regs + [Reg(a, [], true, false)] && r'.listener == r.listener;
    hide Apply, Empties, HasReader, HasWriter, Free;
    forall j | 0 <= j < |r'.regs|
      ensures RegMatched(tx, pending + {a}, r'.regs[j], es'[j])
    {
      if j < n {
        assert RegMatched(tx, pending, r.regs[j], es[j]);
      }
    }
    forall i | 0 <= i < |tx.conns|
      ensures ConnMatched(r', es', taken, tx.conns[i], tx.epochs[i])
    {
      assert ConnMatched(r, es, taken, tx.conns[i], tx.epochs[i]);
      if HasReader(r, es, tx.conns[i].addr, tx.epochs[i]) {
        ReaderStays(r, es, r', es', tx.conns[i].addr, tx.epochs[i]);
      }
    }
    forall b | b in pending + {a}
      ensures PendingMatched(tx, r', es', taken, b)
    {
      if b == a {
        ReaderAt(r', es', n);
      }
      if b in pending {
        assert PendingMatched(tx, r, es, taken, b);
        ReaderStays(r, es, r', es', b, Empties(START, taken, b));
      }
    }
  }
}
