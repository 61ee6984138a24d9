/** src/packet_buffer.rs: the packet a connection fills and sends, and the rule that lets it
    keep appending while the packet's first bytes are already on the wire. */
module Packets {
  import opened Protocol

  /** Up to here the low byte of the length field has not been sent. */
  const LEN_FIELD_CUTOFF: nat := ADDR_SIZE + 1

  /** How many bytes `push` may still append to a packet of `size` bytes once `written`
      bytes of it have been sent. */
  function PushLimit(size: Length, written: nat): Length {
    if written < LEN_FIELD_CUTOFF then PACKET_SIZE - size
    else if written == LEN_FIELD_CUTOFF then 0xFF - NetworkOrder(size)[1]
    else 0
  }

  lemma FirstLengthByte(a: Addr, payload: seq<Byte>)
    requires |payload| <= PACKET_SIZE
    ensures Encode(a, payload)[..LEN_FIELD_CUTOFF] == a + [|payload| / 0x100]
  {
  }

  /** Appending is safe and the limit is optimal: an append that fits the 16-bit length
      leaves the bytes already sent as they were exactly when it respects the limit. */
  lemma LateAppend(a: Addr, payload: seq<Byte>, more: seq<Byte>, written: nat)
    requires |payload| + |more| <= PACKET_SIZE
    requires written <= HEADER_SIZE + |payload|
    ensures Encode(a, payload + more)[..written] == Encode(a, payload)[..written]
       <==> |more| <= PushLimit(|payload|, written)
  {
    var before, after := Encode(a, payload), Encode(a, payload + more);
    if written < LEN_FIELD_CUTOFF {
      assert after[..written] == a[..written] == before[..written];
    } else if written == LEN_FIELD_CUTOFF {
      FirstLengthByte(a, payload);
      FirstLengthByte(a, payload + more);
      assert after[..written][ADDR_SIZE] == (|payload| + |more|) / 0x100;
      assert before[..written][ADDR_SIZE] == |payload| / 0x100;
    } else if more == [] {
      assert payload + more == payload;
    } else {
      assert after[ADDR_SIZE..HEADER_SIZE] == NetworkOrder(|payload| + |more|);
      assert before[ADDR_SIZE..HEADER_SIZE] == NetworkOrder(|payload|);
      NetworkOrderBijective(|payload| + |more|, [0, 0]);
      NetworkOrderBijective(|payload|, [0, 0]);
      assert after[..written][ADDR_SIZE..HEADER_SIZE] == after[ADDR_SIZE..HEADER_SIZE];
      assert before[..written][ADDR_SIZE..HEADER_SIZE] == before[ADDR_SIZE..HEADER_SIZE];
    }
  }

  class PacketBuffer {
    const socketAddr: Addr
    var len: seq<Byte>
    const data: array<Byte>

    ghost predicate Valid()
      reads this
    {
      |len| == 2 && data.Length == PACKET_SIZE
    }

    /** The bytes buffered so far. */
    ghost function Payload(): (p: seq<Byte>)
      requires Valid()
      reads this, data
      ensures |p| == PacketSize()
    {
      data[..PacketSize()]
    }

    constructor (addr: Addr)
      ensures Valid() && fresh(data) && socketAddr == addr && Payload() == []
    {
      socketAddr := addr;
      len := NetworkOrder(0);
      data := new Byte[PACKET_SIZE];
    }

    function PacketSize(): Length
      requires Valid()
      reads this
    {
      FromNetworkOrder(len)
    }

    predicate IsFull()
      requires Valid()
      reads this
    {
      PacketSize() == PACKET_SIZE
    }

    predicate IsEmpty()
      requires Valid()
      reads this
    {
      PacketSize() == 0
    }

    /** Nothing more can be appended: the limit of `push` is zero. */
    predicate MustFlushFor(written: nat)
      requires Valid()
      reads this
      ensures MustFlushFor(written) <==> PushLimit(PacketSize(), written) == 0
    {
      NetworkOrderBijective(0, len);
      if written < LEN_FIELD_CUTOFF then IsFull()
      else if written == LEN_FIELD_CUTOFF then len[1] == 0xFF
      else true
    }

    method Clear()
      requires Valid()
      modifies this`len
      ensures Valid() && Payload() == []
    {
      len := NetworkOrder(0);
    }

    /** Appends as much of `bytes` as the limit allows; what was sent does not change. */
    method Push(bytes: seq<Byte>, written: nat) returns (n: nat)
      requires Valid()
      modifies this`len, data
      ensures Valid()
      ensures n == Min(|bytes|, PushLimit(old(PacketSize()), written))
      ensures Payload() == old(Payload()) + bytes[..n]
      ensures written <= HEADER_SIZE + |old(Payload())| ==> Bytes()[..written] == old(Bytes())[..written]
    {
      ghost var payload := Payload();
      NetworkOrderBijective(0, len);
      var maxLen: nat;
      if written < LEN_FIELD_CUTOFF {
        maxLen := PACKET_SIZE - PacketSize();
      } else if written == LEN_FIELD_CUTOFF {
        maxLen := 0xFF - len[1];
      } else {
        return 0;
      }
      n := if |bytes| > maxLen then maxLen else |bytes|;
      var lastLen := PacketSize();
      NetworkOrderBijective(lastLen + n, len);
      len := NetworkOrder(lastLen + n);
      forall i | 0 <= i < n {
        data[lastLen + i] := bytes[i];
      }
      assert Payload() == payload + bytes[..n];
      if written <= HEADER_SIZE + |payload| {
        LateAppend(socketAddr, payload, bytes[..n], written);
      }
    }

    /** The frame of this packet. */
    function Bytes(): (r: seq<Byte>)
      requires Valid()
      reads this, data
      ensures r == Encode(socketAddr, Payload())
    {
      NetworkOrderBijective(0, len);
      assert len == NetworkOrder(PacketSize());
      assert socketAddr + len + data[..PacketSize()] == Encode(socketAddr, Payload());
      socketAddr + len + data[..PacketSize()]
    }

    /** The part of the frame not yet sent. */
    function BytesFrom(written: nat): (r: seq<Byte>)
      requires Valid() && written <= HEADER_SIZE + PacketSize()
      reads this, data
      ensures r == Encode(socketAddr, Payload())[written..]
    {
      Bytes()[written..]
    }
  }
}
