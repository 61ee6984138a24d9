/** Reference readings of a byte stream: cutting it into frames, and following it one byte
    at a time. Nothing here knows about connections, locks, chunks or registrations. */
module Framing {
  import opened Protocol

  // ---------------------------------------------------------------- cutting into frames

  /** Bytes read so far: the whole frames, and the bytes of the frame not yet complete. */
  datatype Cut = Cut(frames: seq<Frame>, rest: seq<Byte>)

  /** Do these bytes form exactly one frame? */
  predicate WholeFrame(bytes: seq<Byte>) {
    |bytes| >= HEADER_SIZE && |bytes| == HEADER_SIZE + HeaderLen(bytes)
  }

  /** Is this the beginning of a frame that still lacks bytes? */
  predicate Unfinished(bytes: seq<Byte>) {
    |bytes| >= HEADER_SIZE ==> |bytes| < HEADER_SIZE + HeaderLen(bytes)
  }

  function CutByte(c: Cut, b: Byte): Cut {
    var rest := c.rest + [b];
    if WholeFrame(rest) then Cut(c.frames + [Frame(HeaderAddr(rest), rest[HEADER_SIZE..])], [])
    else Cut(c.frames, rest)
  }

  function CutFrom(c: Cut, bytes: seq<Byte>): Cut
    decreases |bytes|
  {
    if bytes == [] then c
    else CutByte(CutFrom(c, bytes[..|bytes| - 1]), bytes[|bytes| - 1])
  }

  /** A stream cut into its frames, from its first byte. */
  function Unframe(bytes: seq<Byte>): Cut {
    CutFrom(Cut([], []), bytes)
  }

  lemma {:induction false} CutFromConcat(c: Cut, x: seq<Byte>, y: seq<Byte>)
    ensures CutFrom(c, x + y) == CutFrom(CutFrom(c, x), y)
    decreases |y|
  {
    if y == [] {
      assert x + y == x;
    } else {
      var y' := y[..|y| - 1];
      CutFromConcat(c, x, y');
      assert (x + y)[..|x + y| - 1] == x + y';
    }
  }

  /** Bytes that form a frame are the encoding of what they read as. */
  lemma WholeFrameEncodes(bytes: seq<Byte>)
    requires WholeFrame(bytes)
    ensures |bytes[HEADER_SIZE..]| <= PACKET_SIZE
    ensures bytes == Encode(HeaderAddr(bytes), bytes[HEADER_SIZE..])
  {
    var h := bytes[..HEADER_SIZE];
    HeaderComplete(h);
    assert h[ADDR_SIZE..HEADER_SIZE] == bytes[ADDR_SIZE..HEADER_SIZE] && h[..ADDR_SIZE] == bytes[..ADDR_SIZE];
    assert bytes == h + bytes[HEADER_SIZE..];
  }

  lemma OneMoreByte(rest: seq<Byte>, b: Byte)
    requires Unfinished(rest)
    ensures WholeFrame(rest + [b]) || Unfinished(rest + [b])
  {
    if |rest| >= HEADER_SIZE {
      assert (rest + [b])[ADDR_SIZE..HEADER_SIZE] == rest[ADDR_SIZE..HEADER_SIZE];
    }
  }

  ghost predicate Sound(bytes: seq<Byte>, c: Cut) {
    AllFit(c.frames) && Unfinished(c.rest) && bytes == EncodeAll(c.frames) + c.rest
  }

  lemma SoundByte(bytes: seq<Byte>, c: Cut, b: Byte)
    requires Sound(bytes, c)
    ensures Sound(bytes + [b], CutByte(c, b))
  {
    var rest := c.rest + [b];
    OneMoreByte(c.rest, b);
    assert bytes + [b] == EncodeAll(c.frames) + rest;
    if WholeFrame(rest) {
      var f := Frame(HeaderAddr(rest), rest[HEADER_SIZE..]);
      WholeFrameEncodes(rest);
      hide WholeFrame, Unfinished, Encode;
      assert (c.frames + [f])[..|c.frames|] == c.frames;
      assert EncodeAll(c.frames + [f]) == EncodeAll(c.frames) + Encode(f.addr, f.payload);
      assert Unfinished([]) by { NothingIsUnfinished(); }
    }
  }

  lemma NothingIsUnfinished()
    ensures Unfinished([])
  {
  }

  /** No byte is lost or invented by cutting: every stream is its whole frames, encoded,
      followed by the beginning of an unfinished one. */
  lemma {:induction false} UnframeSound(bytes: seq<Byte>)
    ensures Sound(bytes, Unframe(bytes))
    decreases |bytes|
  {
    if bytes != [] {
      hide Sound;
      var init, b := bytes[..|bytes| - 1], bytes[|bytes| - 1];
      UnframeSound(init);
      SoundByte(init, Unframe(init), b);
      assert bytes == init + [b];
    }
  }

  /** The header fields of a frame are read the same from any of its beginnings that
      contains the header. */
  lemma FramePrefix(out: seq<Byte>, n: nat)
    requires WholeFrame(out) && n <= |out|
    ensures n >= HEADER_SIZE ==> HeaderAddr(out[..n]) == HeaderAddr(out) && HeaderLen(out[..n]) == HeaderLen(out)
    ensures n < |out| ==> Unfinished(out[..n])
    ensures n < |out| ==> !WholeFrame(out[..n])
  {
    if n >= HEADER_SIZE {
      assert out[..n][ADDR_SIZE..HEADER_SIZE] == out[ADDR_SIZE..HEADER_SIZE];
      assert out[..n][..ADDR_SIZE] == out[..ADDR_SIZE];
    }
  }

  /** An encoded packet is a whole frame, and reads back as its address and payload. */
  lemma EncodeIsFrame(a: Addr, payload: seq<Byte>)
    requires |payload| <= PACKET_SIZE
    ensures WholeFrame(Encode(a, payload))
    ensures HeaderAddr(Encode(a, payload)) == a && HeaderLen(Encode(a, payload)) == |payload|
    ensures Encode(a, payload)[HEADER_SIZE..] == payload
  {
    HeaderRoundTrip(a, |payload|, payload);
  }

  lemma CutSnoc(c: Cut, init: seq<Byte>, b: Byte)
    ensures CutFrom(c, init + [b]) == CutByte(CutFrom(c, init), b)
  {
    assert (init + [b])[..|init + [b]| - 1] == init;
  }

  /** Where the cutter stands after `n` bytes of the frame `out`. */
  ghost function CutAt(fs: seq<Frame>, out: seq<Byte>, n: nat): Cut
    requires WholeFrame(out) && n <= |out|
  {
    if n == |out| then Cut(fs + [Frame(HeaderAddr(out), out[HEADER_SIZE..])], []) else Cut(fs, out[..n])
  }

  lemma CutFrameByte(fs: seq<Frame>, out: seq<Byte>, n: nat)
    requires WholeFrame(out) && n < |out|
    ensures CutByte(Cut(fs, out[..n]), out[n]) == CutAt(fs, out, n + 1)
  {
    assert out[..n] + [out[n]] == out[..n + 1];
    FramePrefix(out, n + 1);
    if n + 1 == |out| {
      assert out[..n + 1] == out;
    }
  }

  /** Feeding the cutter more bytes of the frame it is in the middle of: the frame is
      reported when, and only when, its last byte arrives. */
  lemma {:induction false} CutAdvance(fs: seq<Frame>, out: seq<Byte>, lo: nat, hi: nat)
    requires WholeFrame(out) && lo <= hi <= |out| && lo < |out|
    ensures CutFrom(Cut(fs, out[..lo]), out[lo..hi]) == CutAt(fs, out, hi)
    decreases hi
  {
    if lo < hi {
      hide WholeFrame, CutByte;
      var part := out[lo..hi - 1];
      CutAdvance(fs, out, lo, hi - 1);
      SliceSnoc(out, lo, hi - 1);
      CutSnoc(Cut(fs, out[..lo]), part, out[hi - 1]);
      CutFrameByte(fs, out, hi - 1);
    } else {
      assert out[lo..hi] == [];
    }
  }

  lemma CutWholeFrame(fs: seq<Frame>, f: Frame)
    requires |f.payload| <= PACKET_SIZE
    ensures CutFrom(Cut(fs, []), Encode(f.addr, f.payload)) == Cut(fs + [f], [])
  {
    var out := Encode(f.addr, f.payload);
    EncodeIsFrame(f.addr, f.payload);
    hide Encode, CutFrom;
    CutAdvance(fs, out, 0, |out|);
    assert out[0..|out|] == out && out[..0] == [];
  }

  lemma {:induction false} UnframeAll(fs: seq<Frame>)
    requires AllFit(fs)
    ensures Unframe(EncodeAll(fs)) == Cut(fs, [])
    decreases |fs|
  {
    if fs != [] {
      hide CutFrom, Encode;
      var init, f := fs[..|fs| - 1], fs[|fs| - 1];
      UnframeAll(init);
      CutFromConcat(Cut([], []), EncodeAll(init), Encode(f.addr, f.payload));
      CutWholeFrame(init, f);
      assert init + [f] == fs;
    } else {
      assert CutFrom(Cut([], []), []) == Cut([], []);
    }
  }

  /** Frames survive the wire: any frames, encoded and followed by the beginning of one
      more, are cut back into exactly themselves and that beginning. */
  lemma UnframeRoundTrip(fs: seq<Frame>, a: Addr, payload: seq<Byte>, n: nat)
    requires AllFit(fs) && |payload| <= PACKET_SIZE && n < HEADER_SIZE + |payload|
    ensures Unframe(EncodeAll(fs) + Encode(a, payload)[..n]) == Cut(fs, Encode(a, payload)[..n])
  {
    var out := Encode(a, payload);
    UnframeAll(fs);
    EncodeIsFrame(a, payload);
    hide CutFrom, Encode, EncodeAll, WholeFrame;
    CutFromConcat(Cut([], []), EncodeAll(fs), out[..n]);
    CutAdvance(fs, out, 0, n);
    assert out[0..n] == out[..n] && out[..0] == [];
  }

  // ---------------------------------------------------------------- one byte at a time

  /** What the next byte of the stream will be taken for. */
  datatype RawParser =
    | AtHeader(acc: seq<Byte>)
    | InPayload(owner: Addr, left: nat)
    | Stopped
  {
    predicate Valid() {
      match this
      case AtHeader(acc) => |acc| < HEADER_SIZE
      case InPayload(_, left) => 0 < left <= PACKET_SIZE
      case Stopped => true
    }
  }

  type Parser = p: RawParser | p.Valid() witness AtHeader([])

  const START: Parser := AtHeader([])

  predicate EndsHeader(p: Parser) {
    p.AtHeader? && |p.acc| == HEADER_SIZE - 1
  }

  function ParseByte(p: Parser, b: Byte): Parser {
    match p
    case AtHeader(acc) =>
      var h := acc + [b];
      if |h| < HEADER_SIZE then AtHeader(h)
      else if HeaderLen(h) == 0 then START
      else InPayload(HeaderAddr(h), HeaderLen(h))
    case InPayload(owner, left) => if left == 1 then START else InPayload(owner, left - 1)
    case Stopped => Stopped
  }

  function Parse(p: Parser, bytes: seq<Byte>): Parser
    decreases |bytes|
  {
    if bytes == [] then p else Parse(ParseByte(p, bytes[0]), bytes[1..])
  }

  /** The lengths announced by the headers for `a` that complete in `bytes`. */
  function Heads(p: Parser, bytes: seq<Byte>, a: Addr): seq<Length>
    decreases |bytes|
  {
    if bytes == [] then []
    else HeadByte(p, bytes[0], a) + Heads(ParseByte(p, bytes[0]), bytes[1..], a)
  }

  function HeadByte(p: Parser, b: Byte, a: Addr): seq<Length> {
    if EndsHeader(p) && HeaderAddr(p.acc + [b]) == a then [HeaderLen(p.acc + [b])] else []
  }

  /** How many of these lengths are zero. */
  function Zeros(h: seq<Length>): nat
    decreases |h|
  {
    if h == [] then 0 else (if h[0] == 0 then 1 else 0) + Zeros(h[1..])
  }

  /** How many empty frames for `a` complete in `bytes`. */
  function Empties(p: Parser, bytes: seq<Byte>, a: Addr): nat {
    Zeros(Heads(p, bytes, a))
  }

  /** The payload bytes for `a` in `bytes` that come after exactly `k` empty frames for `a`:
      what belongs to one connection when an address is used by several in turn. */
  function Session(p: Parser, bytes: seq<Byte>, a: Addr, k: int): seq<Byte>
    decreases |bytes|
  {
    if bytes == [] then []
    else
      SessionByte(p, bytes[0], a, k)
      + Session(ParseByte(p, bytes[0]), bytes[1..], a, k - Zeros(HeadByte(p, bytes[0], a)))
  }

  function SessionByte(p: Parser, b: Byte, a: Addr, k: int): seq<Byte> {
    if k == 0 then PayloadByte(p, b, a) else []
  }

  function PayloadByte(p: Parser, b: Byte, a: Addr): seq<Byte> {
    if p.InPayload? && p.owner == a then [b] else []
  }

  lemma {:induction false} ParseConcat(p: Parser, x: seq<Byte>, y: seq<Byte>)
    ensures Parse(p, x + y) == Parse(Parse(p, x), y)
    decreases |x|
  {
    if x == [] {
      assert x + y == y;
    } else {
      ConcatTail(x, y);
      ParseConcat(ParseByte(p, x[0]), x[1..], y);
    }
  }

  lemma {:induction false} HeadsConcat(p: Parser, x: seq<Byte>, y: seq<Byte>, a: Addr)
    ensures Heads(p, x + y, a) == Heads(p, x, a) + Heads(Parse(p, x), y, a)
    decreases |x|
  {
    if x == [] {
      assert x + y == y;
    } else {
      ConcatTail(x, y);
      hide HeadByte, ParseByte;
      HeadsConcat(ParseByte(p, x[0]), x[1..], y, a);
      Assoc(HeadByte(p, x[0], a), Heads(ParseByte(p, x[0]), x[1..], a), Heads(Parse(p, x), y, a));
    }
  }

  lemma {:induction false} ZerosConcat(x: seq<Length>, y: seq<Length>)
    ensures Zeros(x + y) == Zeros(x) + Zeros(y)
    decreases |x|
  {
    if x == [] {
      assert x + y == y;
    } else {
      ConcatTail(x, y);
      ZerosConcat(x[1..], y);
    }
  }

  lemma ZerosOfOne(n: Length)
    ensures Zeros([n]) == if n == 0 then 1 else 0
  {
    assert [n][1..] == [];
  }

  lemma EmptiesConcat(p: Parser, x: seq<Byte>, y: seq<Byte>, a: Addr)
    ensures Empties(p, x + y, a) == Empties(p, x, a) + Empties(Parse(p, x), y, a)
  {
    HeadsConcat(p, x, y, a);
    ZerosConcat(Heads(p, x, a), Heads(Parse(p, x), y, a));
  }

  lemma EmptiesCons(p: Parser, bytes: seq<Byte>, a: Addr)
    requires bytes != []
    ensures Empties(p, bytes, a) == Zeros(HeadByte(p, bytes[0], a)) + Empties(ParseByte(p, bytes[0]), bytes[1..], a)
  {
    ZerosConcat(HeadByte(p, bytes[0], a), Heads(ParseByte(p, bytes[0]), bytes[1..], a));
  }

  lemma SessionCons(p: Parser, bytes: seq<Byte>, a: Addr, k: int)
    requires bytes != []
    ensures Session(p, bytes, a, k) == SessionByte(p, bytes[0], a, k)
              + Session(ParseByte(p, bytes[0]), bytes[1..], a, k - Zeros(HeadByte(p, bytes[0], a)))
    ensures Parse(p, bytes) == Parse(ParseByte(p, bytes[0]), bytes[1..])
  {
  }

  lemma SessionConcatCons(p: Parser, x: seq<Byte>, y: seq<Byte>, a: Addr, k: int)
    requires x != []
    ensures Session(p, x + y, a, k) == SessionByte(p, x[0], a, k)
              + Session(ParseByte(p, x[0]), x[1..] + y, a, k - Zeros(HeadByte(p, x[0], a)))
  {
    ConcatTail(x, y);
    SessionCons(p, x + y, a, k);
  }

  lemma SessionConcatNil(p: Parser, y: seq<Byte>, a: Addr, k: int)
    ensures [] + y == y && Session(p, [], a, k) == [] && Parse(p, []) == p && Empties(p, [], a) == 0
  {
  }

  lemma {:induction false} SessionConcat(p: Parser, x: seq<Byte>, y: seq<Byte>, a: Addr, k: int)
    ensures Session(p, x + y, a, k) == Session(p, x, a, k) + Session(Parse(p, x), y, a, k - Empties(p, x, a))
    decreases |x|
  {
    hide *;
    if x == [] {
      SessionConcatNil(p, y, a, k);
    } else {
      EmptiesCons(p, x, a);
      SessionCons(p, x, a, k);
      SessionConcatCons(p, x, y, a, k);
      var p', tail, k' := ParseByte(p, x[0]), x[1..], k - Zeros(HeadByte(p, x[0], a));
      SessionConcat(p', tail, y, a, k');
      Assoc(SessionByte(p, x[0], a, k), Session(p', tail, a, k'), Session(Parse(p, x), y, a, k - Empties(p, x, a)));
    }
  }

  /** After more empty frames than there are nothing has come. */
  lemma {:induction false} SessionBeyond(p: Parser, bytes: seq<Byte>, a: Addr, k: int)
    requires k < 0 || k > Empties(p, bytes, a)
    ensures Session(p, bytes, a, k) == []
    decreases |bytes|
  {
    if bytes != [] {
      hide Empties, Parse, ParseByte, HeadByte;
      EmptiesCons(p, bytes, a);
      SessionBeyond(ParseByte(p, bytes[0]), bytes[1..], a, k - Zeros(HeadByte(p, bytes[0], a)));
    }
  }

  /** Reading one more byte. */
  lemma ParseSnoc(p: Parser, init: seq<Byte>, b: Byte, a: Addr)
    ensures Parse(p, init + [b]) == ParseByte(Parse(p, init), b)
    ensures Heads(p, init + [b], a) == Heads(p, init, a) + HeadByte(Parse(p, init), b, a)
    ensures Empties(p, init + [b], a) == Empties(p, init, a) + Zeros(HeadByte(Parse(p, init), b, a))
  {
    ParseConcat(p, init, [b]);
    HeadsConcat(p, init, [b], a);
    ZerosConcat(Heads(p, init, a), HeadByte(Parse(p, init), b, a));
  }

  lemma SessionSnoc(p: Parser, init: seq<Byte>, b: Byte, a: Addr, k: int)
    ensures Session(p, init + [b], a, k)
         == Session(p, init, a, k) + SessionByte(Parse(p, init), b, a, k - Empties(p, init, a))
  {
    SessionConcat(p, init, [b], a, k);
  }

  /** Where the parser stands after the first bytes of a frame. */
  function StateOf(rest: seq<Byte>): Parser
    requires Unfinished(rest)
  {
    if |rest| < HEADER_SIZE then AtHeader(rest)
    else InPayload(HeaderAddr(rest), HEADER_SIZE + HeaderLen(rest) - |rest|)
  }

  lemma ParserMatchesCutByte(c: Cut, b: Byte)
    requires Unfinished(c.rest)
    ensures Unfinished(CutByte(c, b).rest)
    ensures ParseByte(StateOf(c.rest), b) == StateOf(CutByte(c, b).rest)
  {
    var rest := c.rest + [b];
    if |c.rest| >= HEADER_SIZE {
      assert rest[ADDR_SIZE..HEADER_SIZE] == c.rest[ADDR_SIZE..HEADER_SIZE];
      assert rest[..ADDR_SIZE] == c.rest[..ADDR_SIZE];
    }
  }

  /** The byte parser and the frame cutter agree on every stream. */
  lemma {:induction false} ParserMatchesCut(bytes: seq<Byte>)
    ensures Unfinished(Unframe(bytes).rest)
    ensures Parse(START, bytes) == StateOf(Unframe(bytes).rest)
    decreases |bytes|
  {
    if bytes != [] {
      var init, b := bytes[..|bytes| - 1], bytes[|bytes| - 1];
      ParserMatchesCut(init);
      ParseConcat(START, init, [b]);
      assert bytes == init + [b];
      ParserMatchesCutByte(Unframe(init), b);
    }
  }

  /** Where the parser stands after the first `n` bytes of the frame `out`. */
  function StateAt(out: seq<Byte>, n: nat): Parser
    requires WholeFrame(out) && n <= |out|
  {
    if n == |out| then START
    else if n < HEADER_SIZE then AtHeader(out[..n])
    else InPayload(HeaderAddr(out), |out| - n)
  }

  /** One byte of a frame, as the byte parser sees it. */
  lemma FrameByte(out: seq<Byte>, n: nat, who: Addr)
    requires WholeFrame(out) && n < |out|
    ensures ParseByte(StateAt(out, n), out[n]) == StateAt(out, n + 1)
    ensures HeadByte(StateAt(out, n), out[n], who)
         == if n + 1 == HEADER_SIZE && who == HeaderAddr(out) then [HeaderLen(out)] else []
    ensures PayloadByte(StateAt(out, n), out[n], who)
         == if n >= HEADER_SIZE && who == HeaderAddr(out) then [out[n]] else []
  {
    FramePrefix(out, n);
    FramePrefix(out, n + 1);
    assert out[..n] + [out[n]] == out[..n + 1];
    if n + 1 == |out| {
      assert out[..n + 1] == out;
    }
  }

  /** Where payload bytes start in the first `n` bytes of a frame. */
  function AfterHeader(n: nat): nat {
    if n <= HEADER_SIZE then HEADER_SIZE else n
  }

  ghost predicate PartOf(bytes: seq<Byte>, out: seq<Byte>, lo: nat) {
    lo + |bytes| <= |out| && forall k :: 0 <= k < |bytes| ==> bytes[k] == out[lo + k]
  }

  /** What a reader of the stream sees when `bytes` take a frame on from its first `lo`. */
  lemma {:induction false} ParseAdvance(bytes: seq<Byte>, out: seq<Byte>, lo: nat, who: Addr)
    requires WholeFrame(out) && lo + |bytes| <= |out| && PartOf(bytes, out, lo)
    ensures Parse(StateAt(out, lo), bytes) == StateAt(out, lo + |bytes|)
    ensures Heads(StateAt(out, lo), bytes, who)
         == if lo < HEADER_SIZE <= lo + |bytes| && who == HeaderAddr(out) then [HeaderLen(out)] else []
    decreases |bytes|
  {
    hide Parse, Heads, ParseByte, StateAt, HeadByte, HeaderAddr, HeaderLen, WholeFrame, PartOf;
    if bytes == [] {
      HeadsNil(StateAt(out, lo), who);
    } else {
      PartTail(bytes, out, lo);
      HeadsCons(StateAt(out, lo), bytes, who);
      FrameByte(out, lo, who);
      ParseAdvance(bytes[1..], out, lo + 1, who);
    }
  }

  lemma PartTail(bytes: seq<Byte>, out: seq<Byte>, lo: nat)
    requires bytes != [] && PartOf(bytes, out, lo)
    ensures lo < |out| && bytes[0] == out[lo] && PartOf(bytes[1..], out, lo + 1)
  {
  }

  lemma HeadsNil(p: Parser, a: Addr)
    ensures Parse(p, []) == p && Heads(p, [], a) == []
  {
  }

  lemma HeadsCons(p: Parser, bytes: seq<Byte>, a: Addr)
    requires bytes != []
    ensures Parse(p, bytes) == Parse(ParseByte(p, bytes[0]), bytes[1..])
    ensures Heads(p, bytes, a) == HeadByte(p, bytes[0], a) + Heads(ParseByte(p, bytes[0]), bytes[1..], a)
  {
  }

  /** The payload bytes of the frame `out` between its first `lo` and its first `hi` bytes. */
  function PayloadSlice(out: seq<Byte>, lo: nat, hi: nat): seq<Byte>
    requires lo <= hi <= |out| && HEADER_SIZE <= |out|
  {
    out[AfterHeader(lo)..AfterHeader(hi)]
  }

  lemma PayloadSliceCons(out: seq<Byte>, lo: nat, hi: nat)
    requires lo < hi <= |out| && HEADER_SIZE <= |out|
    ensures PayloadSlice(out, lo, hi) == (if lo >= HEADER_SIZE then [out[lo]] else []) + PayloadSlice(out, lo + 1, hi)
  {
    if lo >= HEADER_SIZE {
      SliceCons(out, lo, hi);
    }
  }

  lemma PayloadSliceEmpty(out: seq<Byte>, lo: nat)
    requires lo <= |out| && HEADER_SIZE <= |out|
    ensures PayloadSlice(out, lo, lo) == []
  {
  }

  /** Payload of a frame counts for the session that is on when the frame begins. */
  lemma {:induction false} SessionAdvance(bytes: seq<Byte>, out: seq<Byte>, lo: nat, who: Addr, k: int)
    requires WholeFrame(out) && lo + |bytes| <= |out| && PartOf(bytes, out, lo)
    ensures Session(StateAt(out, lo), bytes, who, k)
         == if who == HeaderAddr(out) && k == 0 then PayloadSlice(out, lo, lo + |bytes|) else []
    decreases |bytes|
  {
    hide ParseByte, StateAt, HeadByte, PayloadByte, HeaderAddr, HeaderLen, PayloadSlice, PartOf, Session;
    if bytes == [] {
      PayloadSliceEmpty(out, lo);
      SessionConcatNil(StateAt(out, lo), [], who, k);
    } else {
      PartTail(bytes, out, lo);
      SessionCons(StateAt(out, lo), bytes, who, k);
      FrameByte(out, lo, who);
      var k' := k - Zeros(HeadByte(StateAt(out, lo), out[lo], who));
      SessionAdvance(bytes[1..], out, lo + 1, who, k');
      PayloadSliceCons(out, lo, lo + |bytes|);
      if k' != k {
        ZerosOfOne(HeaderLen(out));
        PayloadSliceEmpty(out, lo + 1);
      }
    }
  }

  // ---------------------------------------------------------------- frames and sessions

  /** The same two readings, said of frames. */
  ghost function EmptyFrames(fs: seq<Frame>, a: Addr): nat
    decreases |fs|
  {
    if fs == [] then 0
    else EmptyFrames(fs[..|fs| - 1], a) + if fs[|fs| - 1] == Frame(a, []) then 1 else 0
  }

  ghost function Payloads(fs: seq<Frame>, a: Addr, k: int): seq<Byte>
    decreases |fs|
  {
    if fs == [] then []
    else
      var init, f := fs[..|fs| - 1], fs[|fs| - 1];
      Payloads(init, a, k) + if f.addr == a && EmptyFrames(init, a) == k then f.payload else []
  }

  lemma OneFrame(f: Frame, a: Addr, k: int)
    requires |f.payload| <= PACKET_SIZE
    ensures var out := Encode(f.addr, f.payload);
            && Parse(START, out) == START
            && Empties(START, out, a) == (if f == Frame(a, []) then 1 else 0)
            && Session(START, out, a, k) == if f.addr == a && k == 0 then f.payload else []
  {
    var out := Encode(f.addr, f.payload);
    EncodeIsFrame(f.addr, f.payload);
    assert StateAt(out, 0) == START && StateAt(out, |out|) == START;
    assert PayloadSlice(out, 0, |out|) == f.payload;
    ZerosOfOne(HeaderLen(out));
    hide Encode, Parse, Heads, Session, StateAt, PayloadSlice;
    ParseAdvance(out, out, 0, a);
    SessionAdvance(out, out, 0, a, k);
  }

  /** Following a stream of frames byte by byte sees, for every address, its empty frames
      and the payloads between them. */
  lemma {:induction false} SessionsOfFrames(fs: seq<Frame>, a: Addr, k: int)
    requires AllFit(fs)
    ensures Parse(START, EncodeAll(fs)) == START
    ensures Empties(START, EncodeAll(fs), a) == EmptyFrames(fs, a)
    ensures Session(START, EncodeAll(fs), a, k) == Payloads(fs, a, k)
    decreases |fs|
  {
    hide *;
    if fs == [] {
      NoFrames(a, k);
    } else {
      var init, f := fs[..|fs| - 1], fs[|fs| - 1];
      LastFrame(fs, a, k);
      SessionsOfFrames(init, a, k);
      OneFrame(f, a, k - EmptyFrames(init, a));
      FollowedBy(EncodeAll(init), Encode(f.addr, f.payload), a, k);
    }
  }

  lemma NoFrames(a: Addr, k: int)
    ensures AllFit([]) && EncodeAll([]) == [] && EmptyFrames([], a) == 0 && Payloads([], a, k) == []
    ensures Parse(START, []) == START && Empties(START, [], a) == 0 && Session(START, [], a, k) == []
  {
  }

  lemma LastFrame(fs: seq<Frame>, a: Addr, k: int)
    requires fs != [] && AllFit(fs)
    ensures var init, f := fs[..|fs| - 1], fs[|fs| - 1];
            && AllFit(init) && |f.payload| <= PACKET_SIZE
            && EncodeAll(fs) == EncodeAll(init) + Encode(f.addr, f.payload)
            && EmptyFrames(fs, a) == EmptyFrames(init, a) + (if f == Frame(a, []) then 1 else 0)
            && Payloads(fs, a, k) == Payloads(init, a, k) + if f.addr == a && EmptyFrames(init, a) == k then f.payload else []
  {
  }

  lemma FollowedBy(x: seq<Byte>, y: seq<Byte>, a: Addr, k: int)
    requires Parse(START, x) == START
    ensures Parse(START, x + y) == Parse(START, y)
    ensures Empties(START, x + y, a) == Empties(START, x, a) + Empties(START, y, a)
    ensures Session(START, x + y, a, k) == Session(START, x, a, k) + Session(START, y, a, k - Empties(START, x, a))
  {
    hide *;
    ParseConcat(START, x, y);
    EmptiesConcat(START, x, y, a);
    SessionConcat(START, x, y, a, k);
  }
}
