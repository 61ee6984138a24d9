/** The demultiplexer of src/read.rs, said one byte at a time: what each byte of the stream
    does to the registrations. This is the reference the chunked reader is compared with. */
module Demux {
  import opened Protocol
  import opened Framing

  /** A registration: everything ever delivered to it, whether its reader still exists, and
      whether a header or a local `add_connection` made it. */
  datatype Reg = Reg(addr: Addr, data: seq<Byte>, alive: bool, byHeader: bool)

  /** `sockets` holds, for each known address, the number of its registration. */
  datatype Ref = Ref(parser: Parser, sockets: map<Addr, nat>, regs: seq<Reg>, listener: bool) {

    ghost predicate Valid() {
      forall a :: a in sockets ==> sockets[a] < |regs| && regs[sockets[a]].addr == a
    }

    /** Can bytes for `a` still reach a reader? */
    predicate Reachable(a: Addr) {
      a in sockets && sockets[a] < |regs| && regs[sockets[a]].alive
    }

    /** Is registration `i` the one its address leads to? */
    predicate Mapped(i: nat) {
      i < |regs| && regs[i].addr in sockets && sockets[regs[i].addr] == i
    }
  }

  function Insert(r: Ref, a: Addr, byHeader: bool): Ref {
    r.(sockets := r.sockets[a := |r.regs|], regs := r.regs + [Reg(a, [], true, byHeader)])
  }

  /** An empty header closes a known address and opens an unknown one if anyone listens. */
  function Toggle(r: Ref, a: Addr): Ref {
    if a in r.sockets then r.(sockets := r.sockets - {a})
    else if r.listener then Insert(r, a, true)
    else r
  }

  /** Payload for an address reaches its reader, or is thrown away if there is none. */
  function Deliver(r: Ref, a: Addr, bytes: seq<Byte>): Ref {
    if r.Reachable(a) then
      var i := r.sockets[a];
      r.(regs := r.regs[i := r.regs[i].(data := r.regs[i].data + bytes)])
    else r
  }

  function FeedByte(r: Ref, b: Byte): Ref {
    var next := r.(parser := ParseByte(r.parser, b));
    if EndsHeader(r.parser) && HeaderLen(r.parser.acc + [b]) == 0 then Toggle(next, HeaderAddr(r.parser.acc + [b]))
    else if r.parser.InPayload? then Deliver(next, r.parser.owner, [b])
    else next
  }

  function Feed(r: Ref, bytes: seq<Byte>): Ref
    decreases |bytes|
  {
    if bytes == [] then r else Feed(FeedByte(r, bytes[0]), bytes[1..])
  }

  lemma {:induction false} FeedConcat(r: Ref, x: seq<Byte>, y: seq<Byte>)
    ensures Feed(r, x + y) == Feed(Feed(r, x), y)
    decreases |x|
  {
    if x == [] {
      assert x + y == y;
    } else {
      ConcatTail(x, y);
      FeedConcat(FeedByte(r, x[0]), x[1..], y);
    }
  }

  lemma {:induction false} FeedParses(r: Ref, bytes: seq<Byte>)
    ensures Feed(r, bytes).parser == Parse(r.parser, bytes)
    decreases |bytes|
  {
    if bytes != [] {
      FeedParses(FeedByte(r, bytes[0]), bytes[1..]);
    }
  }

  // ---------------------------------------------------------------- chunks and frames

  /** A complete header: open, close, or expect a payload. */
  function Complete(r: Ref, h: seq<Byte>): Ref
    requires |h| == HEADER_SIZE
  {
    if HeaderLen(h) == 0 then Toggle(r.(parser := START), HeaderAddr(h))
    else r.(parser := InPayload(HeaderAddr(h), HeaderLen(h)))
  }

  lemma {:induction false} FeedHeader(r: Ref, chunk: seq<Byte>)
    requires r.parser.AtHeader? && |r.parser.acc| + |chunk| <= HEADER_SIZE
    ensures Feed(r, chunk) == if |r.parser.acc| + |chunk| < HEADER_SIZE then r.(parser := AtHeader(r.parser.acc + chunk))
                              else Complete(r, r.parser.acc + chunk)
    decreases |chunk|
  {
    if chunk == [] {
      assert r.parser.acc + chunk == r.parser.acc;
    } else {
      var next := FeedByte(r, chunk[0]);
      assert r.parser.acc + chunk == r.parser.acc + [chunk[0]] + chunk[1..];
      if |r.parser.acc| + 1 < HEADER_SIZE {
        FeedHeader(next, chunk[1..]);
      } else {
        assert chunk == [chunk[0]];
        assert Feed(next, chunk[1..]) == next;
      }
    }
  }

  lemma DeliverTwice(r: Ref, a: Addr, x: seq<Byte>, y: seq<Byte>)
    ensures Deliver(Deliver(r, a, x), a, y) == Deliver(r, a, x + y)
  {
    if r.Reachable(a) {
      var data := r.regs[r.sockets[a]].data;
      assert data + x + y == data + (x + y);
    }
  }

  lemma {:induction false} FeedPayload(r: Ref, chunk: seq<Byte>)
    requires r.parser.InPayload? && |chunk| <= r.parser.left
    ensures Feed(r, chunk) == Deliver(r, r.parser.owner, chunk).(
              parser := if |chunk| == r.parser.left then START else InPayload(r.parser.owner, r.parser.left - |chunk|))
    decreases |chunk|
  {
    var a := r.parser.owner;
    if chunk == [] {
      assert r.Reachable(a) ==> r.regs[r.sockets[a]].data + [] == r.regs[r.sockets[a]].data;
    } else {
      var next := FeedByte(r, chunk[0]);
      assert chunk == [chunk[0]] + chunk[1..];
      DeliverTwice(r, a, [chunk[0]], chunk[1..]);
      if r.parser.left > 1 {
        FeedPayload(next, chunk[1..]);
      } else {
        assert chunk == [chunk[0]];
        assert Feed(next, chunk[1..]) == next;
      }
    }
  }

  /** What a whole frame does. */
  function ApplyFrame(r: Ref, f: Frame): Ref {
    if f.payload == [] then Toggle(r, f.addr) else Deliver(r, f.addr, f.payload)
  }

  ghost function ApplyFrames(r: Ref, fs: seq<Frame>): Ref
    decreases |fs|
  {
    if fs == [] then r else ApplyFrame(ApplyFrames(r, fs[..|fs| - 1]), fs[|fs| - 1])
  }

  lemma FeedFrame(r: Ref, f: Frame)
    requires r.parser == START && |f.payload| <= PACKET_SIZE
    ensures Feed(r, Encode(f.addr, f.payload)) == ApplyFrame(r, f)
    ensures ApplyFrame(r, f).parser == START
  {
    var h := Header(f.addr, |f.payload|);
    HeaderRoundTrip(f.addr, |f.payload|, []);
    assert h + [] == h;
    FeedConcat(r, h, f.payload);
    FeedHeader(r, h);
    assert [] + h == h;
    if f.payload != [] {
      FeedPayload(Feed(r, h), f.payload);
    }
  }

  /** Sending frames and reading them byte by byte has exactly the effect of the frames. */
  lemma {:induction false} FeedFrames(r: Ref, fs: seq<Frame>)
    requires r.parser == START && AllFit(fs)
    ensures Feed(r, EncodeAll(fs)) == ApplyFrames(r, fs) && ApplyFrames(r, fs).parser == START
    decreases |fs|
  {
    if fs != [] {
      var init, f := fs[..|fs| - 1], fs[|fs| - 1];
      FeedFrames(r, init);
      FeedConcat(r, EncodeAll(init), Encode(f.addr, f.payload));
      FeedFrame(ApplyFrames(r, init), f);
    }
  }

  // ---------------------------------------------------------------- everything that can happen

  datatype Happening = Arrives(b: Byte) | Register(a: Addr) | DropReader(i: nat) | ListenerGone | Stop

  function Apply(r: Ref, e: Happening): Ref {
    match e
    case Arrives(b) => FeedByte(r, b)
    case Register(a) => if a in r.sockets then r else Insert(r, a, false)
    case DropReader(i) => if i < |r.regs| then r.(regs := r.regs[i := r.regs[i].(alive := false)]) else r
    case ListenerGone => r.(listener := false)
    case Stop => r.(parser := Stopped)
  }

  ghost function Replay(r: Ref, es: seq<Happening>): Ref
    decreases |es|
  {
    if es == [] then r else Replay(Apply(r, es[0]), es[1..])
  }

  lemma {:induction false} ReplayConcat(r: Ref, x: seq<Happening>, y: seq<Happening>)
    ensures Replay(r, x + y) == Replay(Replay(r, x), y)
    decreases |x|
  {
    if x == [] {
      assert x + y == y;
    } else {
      ConcatTail(x, y);
      ReplayConcat(Apply(r, x[0]), x[1..], y);
    }
  }

  /** Bytes, one happening each. */
  function Arrivals(bytes: seq<Byte>): seq<Happening> {
    seq(|bytes|, i requires 0 <= i < |bytes| => Arrives(bytes[i]))
  }

  lemma {:induction false} ReplayArrivals(r: Ref, bytes: seq<Byte>)
    ensures Replay(r, Arrivals(bytes)) == Feed(r, bytes)
    decreases |bytes|
  {
    if bytes != [] {
      assert Arrivals(bytes)[1..] == Arrivals(bytes[1..]);
      ReplayArrivals(FeedByte(r, bytes[0]), bytes[1..]);
    }
  }

  lemma ValidKept(r: Ref, e: Happening)
    requires r.Valid()
    ensures Apply(r, e).Valid()
  {
  }

  // ---------------------------------------------------------------- registration history

  /** What the stream and the local calls say about registrations, without looking at any. */
  datatype Item = Emptied(a: Addr) | Added(a: Addr) | Left

  function ParserAfter(p: Parser, e: Happening): Parser {
    match e
    case Arrives(b) => ParseByte(p, b)
    case Stop => Stopped
    case _ => p
  }

  function ItemOf(p: Parser, e: Happening): Option<Item> {
    match e
    case Arrives(b) =>
      if EndsHeader(p) && HeaderLen(p.acc + [b]) == 0 then Some(Emptied(HeaderAddr(p.acc + [b]))) else None
    case Register(a) => Some(Added(a))
    case ListenerGone => Some(Left)
    case _ => None
  }

  ghost function Items(p: Parser, es: seq<Happening>): seq<Item>
    decreases |es|
  {
    if es == [] then []
    else
      var item, rest := ItemOf(p, es[0]), Items(ParserAfter(p, es[0]), es[1..]);
      if item.Some? then [item.value] + rest else rest
  }

  /** Known addresses according to the history alone: an empty header toggles its address
      while the listener is there, and only removes it afterwards. */
  ghost function KnownStep(keys: set<Addr>, listener: bool, item: Item): set<Addr> {
    match item
    case Emptied(a) => if a in keys then keys - {a} else if listener then keys + {a} else keys
    case Added(a) => keys + {a}
    case Left => keys
  }

  ghost function Known(keys: set<Addr>, listener: bool, items: seq<Item>): set<Addr>
    decreases |items|
  {
    if items == [] then keys
    else Known(KnownStep(keys, listener, items[0]), listener && !items[0].Left?, items[1..])
  }

  lemma KeysAfter(r: Ref, e: Happening)
    ensures Apply(r, e).parser == ParserAfter(r.parser, e)
    ensures var item := ItemOf(r.parser, e);
            && Apply(r, e).sockets.Keys ==
                 (if item.Some? then KnownStep(r.sockets.Keys, r.listener, item.value) else r.sockets.Keys)
            && Apply(r, e).listener == (r.listener && item != Some(Left))
  {
  }

  /** The address map is determined by the history, over every run. */
  lemma {:induction false} RegistrationFollowsHistory(r: Ref, es: seq<Happening>)
    ensures Replay(r, es).sockets.Keys == Known(r.sockets.Keys, r.listener, Items(r.parser, es))
    decreases |es|
  {
    if es != [] {
      RegistrationFollowsHistory(Apply(r, es[0]), es[1..]);
      KeysAfter(r, es[0]);
      var item, rest := ItemOf(r.parser, es[0]), Items(ParserAfter(r.parser, es[0]), es[1..]);
      assert item.Some? ==> ([item.value] + rest)[1..] == rest;
    }
  }

  /** The addresses opened by headers according to the history alone, in order. */
  ghost function Openings(keys: set<Addr>, listener: bool, items: seq<Item>): seq<Addr>
    decreases |items|
  {
    if items == [] then []
    else
      Opening(keys, listener, items[0])
      + Openings(KnownStep(keys, listener, items[0]), listener && !items[0].Left?, items[1..])
  }

  ghost function Opening(keys: set<Addr>, listener: bool, item: Item): seq<Addr> {
    if item.Emptied? && listener && item.a !in keys then [item.a] else []
  }

  /** The addresses of the registrations made by headers, oldest first. */
  ghost function ByHeader(regs: seq<Reg>): seq<Addr>
    decreases |regs|
  {
    if regs == [] then []
    else ByHeader(regs[..|regs| - 1]) + if regs[|regs| - 1].byHeader then [regs[|regs| - 1].addr] else []
  }

  lemma {:induction false} ByHeaderUpdate(regs: seq<Reg>, i: nat, reg: Reg)
    requires i < |regs| && reg.addr == regs[i].addr && reg.byHeader == regs[i].byHeader
    ensures ByHeader(regs[i := reg]) == ByHeader(regs)
    decreases |regs|
  {
    var init := regs[..|regs| - 1];
    if i < |init| {
      ByHeaderUpdate(init, i, reg);
      assert regs[i := reg][..|init|] == init[i := reg];
    } else {
      assert regs[i := reg][..|init|] == init;
    }
  }

  lemma ByHeaderAppend(regs: seq<Reg>, reg: Reg)
    ensures ByHeader(regs + [reg]) == ByHeader(regs) + if reg.byHeader then [reg.addr] else []
  {
    assert (regs + [reg])[..|regs|] == regs;
  }

  lemma OpeningStep(r: Ref, e: Happening)
    ensures var item := ItemOf(r.parser, e);
            ByHeader(Apply(r, e).regs) == ByHeader(r.regs) +
              if item.Some? then Opening(r.sockets.Keys, r.listener, item.value) else []
  {
    hide ByHeader;
    var regs := Apply(r, e).regs;
    if |regs| > |r.regs| {
      ByHeaderAppend(r.regs, regs[|r.regs|]);
    } else if e.DropReader? && e.i < |r.regs| {
      ByHeaderUpdate(r.regs, e.i, regs[e.i]);
    } else if e.Arrives? && r.parser.InPayload? && r.Reachable(r.parser.owner) {
      ByHeaderUpdate(r.regs, r.sockets[r.parser.owner], regs[r.sockets[r.parser.owner]]);
    }
  }

  /** Registrations by header are the openings of the history, over every run: each empty
      header for an unknown address while somebody listens, in order, and nothing else. */
  lemma {:induction false} OpeningsFollowHistory(r: Ref, es: seq<Happening>)
    ensures ByHeader(Replay(r, es).regs) ==
              ByHeader(r.regs) + Openings(r.sockets.Keys, r.listener, Items(r.parser, es))
    decreases |es|
  {
    if es != [] {
      OpeningsFollowHistory(Apply(r, es[0]), es[1..]);
      KeysAfter(r, es[0]);
      OpeningStep(r, es[0]);
      hide ByHeader, Apply, ItemOf, KnownStep, Opening;
      var item, rest := ItemOf(r.parser, es[0]), Items(ParserAfter(r.parser, es[0]), es[1..]);
      assert item.Some? ==> ([item.value] + rest)[1..] == rest;
    }
  }

  // ---------------------------------------------------------------- dropped readers

  /** Two states that differ at most in what registration `i` has and whether it is alive. */
  ghost predicate SameBut(r: Ref, q: Ref, i: nat) {
    && r.parser == q.parser && r.sockets == q.sockets && r.listener == q.listener && |r.regs| == |q.regs|
    && (forall j :: 0 <= j < |r.regs| ==>
          r.regs[j].addr == q.regs[j].addr && r.regs[j].byHeader == q.regs[j].byHeader && (j != i ==> r.regs[j] == q.regs[j]))
  }

  lemma SameButDelivery(r: Ref, q: Ref, i: nat, a: Addr, bytes: seq<Byte>)
    requires SameBut(r, q, i)
    ensures SameBut(Deliver(r, a, bytes), Deliver(q, a, bytes), i)
  {
  }

  lemma SameButToggle(r: Ref, q: Ref, i: nat, a: Addr)
    requires SameBut(r, q, i)
    ensures SameBut(Toggle(r, a), Toggle(q, a), i)
  {
  }

  lemma SameButKept(r: Ref, q: Ref, i: nat, e: Happening)
    requires SameBut(r, q, i)
    ensures SameBut(Apply(r, e), Apply(q, e), i)
  {
    if e.Arrives? {
      var p := ParseByte(r.parser, e.b);
      var r', q' := r.(parser := p), q.(parser := p);
      assert SameBut(r', q', i);
      hide Deliver, Toggle, ParseByte, SameBut;
      if EndsHeader(r.parser) {
        SameButToggle(r', q', i, HeaderAddr(r.parser.acc + [e.b]));
      } else if r.parser.InPayload? {
        SameButDelivery(r', q', i, r.parser.owner, [e.b]);
      }
    }
  }

  lemma {:induction false} SameButRun(r: Ref, q: Ref, i: nat, es: seq<Happening>)
    requires SameBut(r, q, i)
    ensures SameBut(Replay(r, es), Replay(q, es), i)
    decreases |es|
  {
    if es != [] {
      SameButKept(r, q, i, es[0]);
      SameButRun(Apply(r, es[0]), Apply(q, es[0]), i, es[1..]);
    }
  }

  /** Dropping a reader disturbs nobody else: whatever happens afterwards, the parser, the
      known addresses and all other registrations are as if it had stayed. */
  lemma DropDisturbsNobody(r: Ref, i: nat, es: seq<Happening>)
    ensures SameBut(Replay(r, [DropReader(i)] + es), Replay(r, es), i)
  {
    assert ([DropReader(i)] + es)[1..] == es;
    SameButRun(Apply(r, DropReader(i)), r, i, es);
  }

  // ---------------------------------------------------------------- end of stream

  /** The happening that closes `a`: the last byte of an empty header for it. */
  ghost predicate Closes(r: Ref, e: Happening, a: Addr) {
    e.Arrives? && EndsHeader(r.parser) && HeaderLen(r.parser.acc + [e.b]) == 0 && HeaderAddr(r.parser.acc + [e.b]) == a
  }

  lemma MappingStep(r: Ref, e: Happening, i: nat)
    requires r.Valid() && i < |r.regs|
    ensures i < |Apply(r, e).regs| && Apply(r, e).regs[i].addr == r.regs[i].addr
    ensures Apply(r, e).Mapped(i) <==> r.Mapped(i) && !Closes(r, e, r.regs[i].addr)
    ensures !r.Mapped(i) ==> Apply(r, e).regs[i].data == r.regs[i].data
    ensures Closes(r, e, r.regs[i].addr) ==> Apply(r, e).regs[i].data == r.regs[i].data
  {
  }

  /** A registration that no address leads to stays so, and gets no more bytes. */
  lemma {:induction false} UnmappedForGood(r: Ref, es: seq<Happening>, i: nat)
    requires r.Valid() && i < |r.regs| && !r.Mapped(i)
    ensures i < |Replay(r, es).regs| && !Replay(r, es).Mapped(i)
    ensures Replay(r, es).regs[i].data == r.regs[i].data && Replay(r, es).regs[i].addr == r.regs[i].addr
    decreases |es|
  {
    if es != [] {
      ValidKept(r, es[0]);
      MappingStep(r, es[0], i);
      UnmappedForGood(Apply(r, es[0]), es[1..], i);
    }
  }

  /** End of stream, exactly: a registration is cut off by the run if and only if the run
      contains the closing header for its address, and by then it has all it will ever get. */
  lemma {:induction false} CutOffByClose(r: Ref, es: seq<Happening>, i: nat)
    requires r.Valid() && r.Mapped(i)
    ensures i < |Replay(r, es).regs|
    ensures !Replay(r, es).Mapped(i) <==>
              exists k :: 0 <= k < |es| && Closes(Replay(r, es[..k]), es[k], r.regs[i].addr)
    decreases |es|
  {
    var a := r.regs[i].addr;
    if es != [] {
      ValidKept(r, es[0]);
      MappingStep(r, es[0], i);
      var r', rest := Apply(r, es[0]), es[1..];
      assert es[..0] == [];
      forall k | 0 <= k < |rest|
        ensures Replay(r, es[..k + 1]) == Replay(r', rest[..k]) && es[k + 1] == rest[k]
      {
        assert es[..k + 1][1..] == rest[..k];
      }
      if Closes(r, es[0], a) {
        UnmappedForGood(r', rest, i);
        assert Closes(Replay(r, es[..0]), es[0], a);
      } else {
        CutOffByClose(r', rest, i);
        if k :| 0 <= k < |rest| && Closes(Replay(r', rest[..k]), rest[k], a) {
          assert Closes(Replay(r, es[..k + 1]), es[k + 1], a);
        }
        if k :| 0 <= k < |es| && Closes(Replay(r, es[..k]), es[k], a) {
          assert k > 0;
          assert Closes(Replay(r', rest[..k - 1]), rest[k - 1], a);
        }
      }
    }
  }

  // ---------------------------------------------------------------- a lone header

  /** A whole empty header for an unknown address registers it if and only if somebody
      listens; otherwise it is lost. */
  lemma LoneHeader(r: Ref, a: Addr)
    requires r.parser == START && a !in r.sockets
    ensures var r' := Feed(r, Header(a, 0));
            && (a in r'.sockets <==> r.listener)
            && (r.listener ==> r'.Mapped(|r.regs|) && r'.regs == r.regs + [Reg(a, [], true, true)])
            && (!r.listener ==> r' == r)
            && (r.Valid() ==> r'.Valid())
  {
    FeedFrame(r, Frame(a, []));
    assert Encode(a, []) == Header(a, 0);
  }

  /** One for a known address closes it and registers nothing. */
  lemma LoneClose(r: Ref, a: Addr)
    requires r.parser == START && a in r.sockets
    ensures var r' := Feed(r, Header(a, 0)); r'.regs == r.regs && a !in r'.sockets
  {
    FeedFrame(r, Frame(a, []));
    assert Encode(a, []) == Header(a, 0);
  }

  /** The registration it makes stays for as long as no other empty header for `a` comes: if
      nobody is left to send one, for ever. */
  lemma PhantomStays(r: Ref, a: Addr, es: seq<Happening>)
    requires r.Valid() && r.parser == START && a !in r.sockets && r.listener
    ensures var r' := Feed(r, Header(a, 0));
            Replay(r', es).Mapped(|r.regs|) <==> forall k :: 0 <= k < |es| ==> !Closes(Replay(r', es[..k]), es[k], a)
  {
    var r' := Feed(r, Header(a, 0));
    LoneHeader(r, a);
    hide Feed, Header, Replay, Closes, Ref.Valid;
    CutOffByClose(r', es, |r.regs|);
  }
}
