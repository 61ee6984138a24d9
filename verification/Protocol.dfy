/** The wire format of src/protocol.rs and src/integers.rs: an 18-byte address, a
    big-endian 16-bit length, and that many payload bytes. */
module Protocol {

  /** An octet. */
  type Byte = b: int | 0 <= b < 0x100

  /** The range of a `u16`. */
  type Length = n: int | 0 <= n <= 0xFFFF

  const ADDR_SIZE: nat := 18
  const HEADER_SIZE: nat := 20
  const PACKET_SIZE: Length := 0xFFFF

  /** A socket address: 18 bytes compared for equality. */
  type Addr = a: seq<Byte> | |a| == 18 witness seq(18, _ => 0)

  datatype Option<+T> = None | Some(value: T)

  /** The smaller of two numbers. */
  function Min(x: nat, y: nat): nat {
    if x <= y then x else y
  }

  /** A slice is its first element followed by the rest. */
  lemma SliceCons<T>(s: seq<T>, lo: nat, hi: nat)
    requires lo < hi <= |s|
    ensures s[lo..hi] == [s[lo]] + s[lo + 1..hi]
  {
  }

  /** A slice grows by its next element. */
  lemma SliceSnoc<T>(s: seq<T>, lo: nat, hi: nat)
    requires lo <= hi < |s|
    ensures s[lo..hi + 1] == s[lo..hi] + [s[hi]]
  {
  }

  lemma TakeOfDrop<T>(s: seq<T>, lo: nat, n: nat)
    requires lo + n <= |s|
    ensures s[lo..][..n] == s[lo..lo + n]
  {
  }

  lemma ConcatTail<T>(x: seq<T>, y: seq<T>)
    requires x != []
    ensures (x + y)[0] == x[0] && (x + y)[1..] == x[1..] + y
  {
  }

  lemma Assoc<T>(x: seq<T>, y: seq<T>, z: seq<T>)
    ensures x + (y + z) == (x + y) + z
  {
  }

  /** A tail is its first elements followed by the rest of it. */
  lemma TailSplit<T>(s: seq<T>, lo: nat, hi: nat)
    requires lo <= hi <= |s|
    ensures s[lo..] == s[lo..hi] + s[hi..]
  {
  }

  /** Two neighbouring slices form one. */
  lemma SliceJoin<T>(s: seq<T>, lo: nat, mid: nat, hi: nat)
    requires lo <= mid <= hi <= |s|
    ensures s[lo..mid] + s[mid..hi] == s[lo..hi]
  {
  }

  /** `NetworkOrderU16::new`. */
  function NetworkOrder(x: Length): (r: seq<Byte>)
    ensures |r| == 2
  {
    [x / 0x100, x % 0x100]
  }

  /** `NetworkOrderU16::get`. */
  function FromNetworkOrder(b: seq<Byte>): (r: Length)
    requires |b| == 2
  {
    var high: int := b[0];
    high * 0x100 + b[1]
  }

  /** The two conversions are inverse to each other on all of `u16`. */
  lemma NetworkOrderBijective(x: Length, b: seq<Byte>)
    requires |b| == 2
    ensures FromNetworkOrder(NetworkOrder(x)) == x
    ensures NetworkOrder(FromNetworkOrder(b)) == b
  {
    assert NetworkOrder(FromNetworkOrder(b)) == [b[0], b[1]];
  }

  /** A `MuxFrameHeader` as its 20 bytes; `MuxFrameHeader::empty` is length 0. */
  function Header(a: Addr, n: Length): (h: seq<Byte>)
    ensures |h| == HEADER_SIZE
  {
    a + NetworkOrder(n)
  }

  /** `MuxFrameHeader::addr`. */
  function HeaderAddr(h: seq<Byte>): Addr
    requires |h| >= HEADER_SIZE
  {
    h[..ADDR_SIZE]
  }

  /** `MuxFrameHeader::len`. */
  function HeaderLen(h: seq<Byte>): Length
    requires |h| >= HEADER_SIZE
  {
    FromNetworkOrder(h[ADDR_SIZE..HEADER_SIZE])
  }

  /** Every header, also when it is followed by more bytes, reads back as it was written. */
  lemma HeaderRoundTrip(a: Addr, n: Length, rest: seq<Byte>)
    ensures HeaderAddr(Header(a, n) + rest) == a
    ensures HeaderLen(Header(a, n) + rest) == n
  {
    var h := Header(a, n) + rest;
    assert h[..ADDR_SIZE] == a;
    assert h[ADDR_SIZE..HEADER_SIZE] == NetworkOrder(n);
    NetworkOrderBijective(n, [0, 0]);
  }

  /** Every 20 bytes are the header of what they read as. */
  lemma HeaderComplete(h: seq<Byte>)
    requires |h| == HEADER_SIZE
    ensures Header(HeaderAddr(h), HeaderLen(h)) == h
  {
    NetworkOrderBijective(0, h[ADDR_SIZE..HEADER_SIZE]);
    assert h == h[..ADDR_SIZE] + h[ADDR_SIZE..HEADER_SIZE];
  }

  datatype Frame = Frame(addr: Addr, payload: seq<Byte>)

  /** The bytes of one frame: what `PacketBuffer::bytes` yields for a packet. */
  function Encode(a: Addr, payload: seq<Byte>): (r: seq<Byte>)
    requires |payload| <= PACKET_SIZE
    ensures |r| == HEADER_SIZE + |payload|
  {
    Header(a, |payload|) + payload
  }

  ghost predicate AllFit(fs: seq<Frame>) {
    forall k :: 0 <= k < |fs| ==> |fs[k].payload| <= PACKET_SIZE
  }

  /** The bytes of a sequence of frames, in order. */
  ghost function EncodeAll(fs: seq<Frame>): seq<Byte>
    requires AllFit(fs)
  {
    if fs == [] then []
    else EncodeAll(fs[..|fs| - 1]) + Encode(fs[|fs| - 1].addr, fs[|fs| - 1].payload)
  }
}
