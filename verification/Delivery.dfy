/** What the receiving end holds after it has taken any bytes whatever: the argument that every
    registration gets exactly the payload for its address that comes between the empty frames
    that open and close it, however often the address is used. */
module Delivery {
  import opened Protocol
  import opened Framing
  import opened Demux

  /** Registration `i` of epoch `e`, that is, made after `e` empty frames for its address, when
      the bytes `taken` have come: its address leads to it until the next empty frame, and if
      its reader lives it has all the payload of its epoch. */
  ghost predicate RegLinked(r: Ref, i: nat, e: nat, taken: seq<Byte>)
    requires i < |r.regs|
  {
    var reg, z := r.regs[i], Empties(START, taken, r.regs[i].addr);
    && e <= z
    && (r.Mapped(i) <==> z == e)
    && (reg.alive ==> reg.data == Session(START, taken, reg.addr, e))
  }

  /** Registrations of one address have ascending epochs. */
  ghost predicate Ascend(r: Ref, es: seq<nat>)
    requires |es| == |r.regs|
  {
    forall i, j :: 0 <= i < j < |r.regs| && r.regs[i].addr == r.regs[j].addr ==> es[i] < es[j]
  }

  ghost predicate Linked(r: Ref, es: seq<nat>, taken: seq<Byte>) {
    && r.Valid() && |es| == |r.regs| && Ascend(r, es)
    && (r.parser == Parse(START, taken) || r.parser.Stopped?)
    && (forall i :: 0 <= i < |r.regs| ==> RegLinked(r, i, es[i], taken))
  }

  /** The epochs when there may be one more registration. */
  function Grown(r: Ref, es: seq<nat>, taken: seq<Byte>): seq<nat> {
    if |r.regs| == |es| + 1 then es + [Empties(START, taken, r.regs[|es|].addr)] else es
  }

  function EpochsAfter(r: Ref, es: seq<nat>, taken: seq<Byte>, bytes: seq<Byte>): seq<nat>
    decreases |bytes|
  {
    if bytes == [] then es
    else
      var r', taken' := FeedByte(r, bytes[0]), taken + [bytes[0]];
      EpochsAfter(r', Grown(r', es, taken'), taken', bytes[1..])
  }

  /** A byte as one registration sees it. */
  lemma RegKept(r: Ref, i: nat, e: nat, taken: seq<Byte>, b: Byte)
    requires r.Valid() && r.parser == Parse(START, taken) && i < |r.regs| && RegLinked(r, i, e, taken)
    ensures i < |FeedByte(r, b).regs| && FeedByte(r, b).regs[i].addr == r.regs[i].addr
    ensures RegLinked(FeedByte(r, b), i, e, taken + [b])
  {
    var a := r.regs[i].addr;
    ParseSnoc(START, taken, b, a);
    SessionSnoc(START, taken, b, a, e);
    hide Empties, Session, Parse;
    if r.parser.InPayload? {
      RegDelivery(r, i, e, taken, b);
    } else {
      assert FeedByte(r, b).regs[i] == r.regs[i];
      if EndsHeader(r.parser) {
        ZerosOfOne(HeaderLen(r.parser.acc + [b]));
      }
    }
  }

  lemma RegDelivery(r: Ref, i: nat, e: nat, taken: seq<Byte>, b: Byte)
    requires r.Valid() && r.parser.InPayload? && i < |r.regs| && RegLinked(r, i, e, taken)
    requires var a := r.regs[i].addr;
             && Empties(START, taken + [b], a) == Empties(START, taken, a)
             && Session(START, taken + [b], a, e)
                == Session(START, taken, a, e) + SessionByte(r.parser, b, a, e - Empties(START, taken, a))
    ensures RegLinked(FeedByte(r, b), i, e, taken + [b])
  {
    hide Empties, Session;
  }

  /** Only the last byte of an empty header registers anything. */
  lemma OpeningByte(r: Ref, b: Byte)
    requires |FeedByte(r, b).regs| > |r.regs|
    ensures var a, r' := HeaderAddr(FullHeader(r, b)), FeedByte(r, b);
            && r.parser.AtHeader? && HeadByte(r.parser, b, a) == [0]
            && r'.regs == r.regs + [Reg(a, [], true, true)] && a !in r.sockets && r.listener && r'.Mapped(|r.regs|)
  {
  }

  /** A registration made by a byte starts with nothing, and nothing was sent to it yet. */
  lemma RegBegins(r: Ref, taken: seq<Byte>, b: Byte)
    requires r.Valid() && r.parser == Parse(START, taken) && |FeedByte(r, b).regs| > |r.regs|
    ensures var a, r', n := HeaderAddr(FullHeader(r, b)), FeedByte(r, b), |r.regs|;
            && r'.regs == r.regs + [Reg(a, [], true, true)] && a !in r.sockets && r.listener
            && Empties(START, taken + [b], a) == Empties(START, taken, a) + 1
            && RegLinked(r', n, Empties(START, taken + [b], a), taken + [b])
  {
    hide Empties, Session, Parse, FeedByte, HeadByte, FullHeader;
    var a := HeaderAddr(FullHeader(r, b));
    OpeningByte(r, b);
    ParseSnoc(START, taken, b, a);
    ZerosOfOne(0);
    SessionSnoc(START, taken, b, a, Empties(START, taken, a) + 1);
    SessionBeyond(START, taken, a, Empties(START, taken, a) + 1);
  }

  /** The header that this byte completes. */
  function FullHeader(r: Ref, b: Byte): (h: seq<Byte>)
    ensures |h| >= HEADER_SIZE
  {
    if EndsHeader(r.parser) then r.parser.acc + [b] else Header(seq(ADDR_SIZE, _ => 0), 0)
  }

  lemma ByteKeeps(r: Ref, taken: seq<Byte>, b: Byte)
    requires r.Valid() && r.parser == Parse(START, taken) && !r.parser.Stopped?
    ensures var r' := FeedByte(r, b);
            r'.Valid() && r'.parser == Parse(START, taken + [b]) && !r'.parser.Stopped? && |r.regs| <= |r'.regs| <= |r.regs| + 1
  {
    ParseSnoc(START, taken, b, seq(ADDR_SIZE, _ => 0));
    ValidKept(r, Arrives(b));
  }

  /** Taking one more byte, whatever it is. */
  lemma LinkByte(r: Ref, es: seq<nat>, taken: seq<Byte>, b: Byte)
    requires Linked(r, es, taken) && !r.parser.Stopped?
    ensures var r' := FeedByte(r, b); Linked(r', Grown(r', es, taken + [b]), taken + [b]) && !r'.parser.Stopped?
  {
    var r', taken' := FeedByte(r, b), taken + [b];
    ByteKeeps(r, taken, b);
    if |r'.regs| > |r.regs| {
      RegBegins(r, taken, b);
    }
    hide FeedByte, Parse, Empties, Session, Ref.Valid, FullHeader;
    var es' := Grown(r', es, taken');
    forall i | 0 <= i < |r.regs|
      ensures i < |r'.regs| && r'.regs[i].addr == r.regs[i].addr && RegLinked(r', i, es[i], taken')
    {
      RegKept(r, i, es[i], taken, b);
    }
  }

  /** Taking any number of bytes. */
  lemma {:induction false} LinkBytes(r: Ref, es: seq<nat>, taken: seq<Byte>, bytes: seq<Byte>)
    requires Linked(r, es, taken) && (bytes != [] ==> !r.parser.Stopped?)
    ensures Linked(Feed(r, bytes), EpochsAfter(r, es, taken, bytes), taken + bytes)
    decreases |bytes|
  {
    hide Linked, Grown;
    if bytes == [] {
      assert taken + bytes == taken;
    } else {
      var b, rest := bytes[0], bytes[1..];
      assert taken + bytes == taken + [b] + rest;
      LinkByte(r, es, taken, b);
      LinkBytes(FeedByte(r, b), Grown(FeedByte(r, b), es, taken + [b]), taken + [b], rest);
    }
  }

  // ---------------------------------------------------------------- local events

  /** A reader or the listener going away, and the reader stopping, cost nobody a byte. */
  lemma LinkDeparture(r: Ref, e: Happening, es: seq<nat>, taken: seq<Byte>)
    requires Linked(r, es, taken) && (e.DropReader? || e.ListenerGone? || e.Stop?)
    ensures Linked(Apply(r, e), es, taken)
  {
    hide Parse, Empties, Session;
    var r' := Apply(r, e);
    forall i | 0 <= i < |r'.regs|
      ensures RegLinked(r', i, es[i], taken)
    {
      assert RegLinked(r, i, es[i], taken);
    }
  }

  /** Registering an address that is not known, and to which nothing was sent since it was. */
  lemma LinkAdopt(r: Ref, es: seq<nat>, taken: seq<Byte>, a: Addr)
    requires Linked(r, es, taken) && a !in r.sockets
    requires Session(START, taken, a, Empties(START, taken, a)) == []
    ensures Linked(Apply(r, Register(a)), es + [Empties(START, taken, a)], taken)
  {
    hide Parse, Empties, Session;
    var r', es' := Apply(r, Register(a)), es + [Empties(START, taken, a)];
    forall i | 0 <= i < |r'.regs|
      ensures RegLinked(r', i, es'[i], taken)
    {
      if i < |r.regs| {
        assert RegLinked(r, i, es[i], taken);
      }
    }
  }
}
