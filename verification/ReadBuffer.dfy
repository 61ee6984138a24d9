/** src/read/read_buffer.rs: the byte queue between the demultiplexer and one reader. */
module ReadBuffers {
  import opened Protocol

  /** What an asynchronous read source answers: some bytes (none at the end of the
      stream), not ready, or an error. A caller takes only as many bytes as it asked for. */
  datatype ReadAnswer = Ready(bytes: seq<Byte>) | Stalled | Broken

  /** The filled part of the buffer and how much of it has been read. */
  datatype View = View(pos: nat, data: seq<Byte>) {

    ghost predicate Valid(capacity: nat) {
      pos <= |data| <= capacity && (pos == |data| ==> pos == 0)
    }

    /** Bytes waiting to be read. */
    function Contents(): seq<Byte> {
      if pos <= |data| then data[pos..] else []
    }

    function Fill(chunk: seq<Byte>): View {
      View(pos, data + chunk)
    }

    function Taken(want: nat): seq<Byte> {
      Contents()[..Min(want, |Contents()|)]
    }

    /** After reading up to `want` bytes; a drained buffer starts over. */
    function Take(want: nat): View {
      var n := Min(want, |Contents()|);
      if n == 0 then this else if pos + n == |data| then View(0, []) else View(pos + n, data)
    }
  }

  datatype Op = Filled(chunk: seq<Byte>) | Read(want: nat)

  function Step(v: View, op: Op): View {
    if op.Filled? then v.Fill(op.chunk) else v.Take(op.want)
  }

  function BytesIn(op: Op): seq<Byte> {
    if op.Filled? then op.chunk else []
  }

  function BytesOut(v: View, op: Op): seq<Byte> {
    if op.Read? then v.Taken(op.want) else []
  }

  ghost function Run(v: View, ops: seq<Op>): View
    decreases |ops|
  {
    if ops == [] then v else Run(Step(v, ops[0]), ops[1..])
  }

  ghost function AllIn(ops: seq<Op>): seq<Byte>
    decreases |ops|
  {
    if ops == [] then [] else BytesIn(ops[0]) + AllIn(ops[1..])
  }

  ghost function AllOut(v: View, ops: seq<Op>): seq<Byte>
    decreases |ops|
  {
    if ops == [] then [] else BytesOut(v, ops[0]) + AllOut(Step(v, ops[0]), ops[1..])
  }

  /** A fill must fit behind the bytes already in the buffer. */
  ghost predicate Fits(v: View, op: Op, capacity: nat) {
    |v.data| + |BytesIn(op)| <= capacity
  }

  ghost predicate AllFits(v: View, ops: seq<Op>, capacity: nat)
    decreases |ops|
  {
    ops == [] || (Fits(v, ops[0], capacity) && AllFits(Step(v, ops[0]), ops[1..], capacity))
  }

  /** One operation appends at the back or hands out the front, and loses nothing. */
  lemma StepIsFifo(v: View, op: Op, capacity: nat)
    requires v.Valid(capacity) && Fits(v, op, capacity)
    ensures Step(v, op).Valid(capacity)
    ensures v.Contents() + BytesIn(op) == BytesOut(v, op) + Step(v, op).Contents()
  {
  }

  lemma Chain(c: seq<Byte>, x: seq<Byte>, xs: seq<Byte>, y: seq<Byte>, ys: seq<Byte>, c': seq<Byte>, e: seq<Byte>)
    requires c + x == y + c' && c' + xs == ys + e
    ensures c + (x + xs) == (y + ys) + e
  {
    calc {
      c + (x + xs);
      (c + x) + xs;
      y + (c' + xs);
      (y + ys) + e;
    }
  }

  /** The buffer is a FIFO queue over every run of fills and reads: what was in it and what
      was filled is what was read, followed by what is in it now; across every reset. */
  lemma {:induction false} Fifo(v: View, ops: seq<Op>, capacity: nat)
    requires v.Valid(capacity) && AllFits(v, ops, capacity)
    ensures Run(v, ops).Valid(capacity)
    ensures v.Contents() + AllIn(ops) == AllOut(v, ops) + Run(v, ops).Contents()
    decreases |ops|
  {
    if ops != [] {
      var v' := Step(v, ops[0]);
      StepIsFifo(v, ops[0], capacity);
      Fifo(v', ops[1..], capacity);
      Chain(v.Contents(), BytesIn(ops[0]), AllIn(ops[1..]), BytesOut(v, ops[0]), AllOut(v', ops[1..]),
            v'.Contents(), Run(v, ops).Contents());
    }
  }

  datatype FillResult = Full | Added(amount: nat) | Pending | Failed

  class ReadBuffer {
    const buf: array<Byte>
    var pos: nat
    var filled: nat
    var initialized: nat

    ghost predicate Valid()
      reads this, buf
    {
      && 0 < buf.Length
      && filled <= initialized <= buf.Length
      && pos <= filled
      && AsView().Valid(buf.Length)
    }

    ghost function AsView(): View
      requires filled <= buf.Length
      reads this, buf
    {
      View(pos, buf[..filled])
    }

    constructor (capacity: nat)
      requires capacity > 0
      ensures Valid() && fresh(buf) && buf.Length == capacity && AsView() == View(0, [])
    {
      buf := new Byte[capacity];
      pos, filled, initialized := 0, 0, 0;
    }

    function Bytes(): (r: seq<Byte>)
      requires Valid()
      reads this, buf
      ensures r == AsView().Contents()
    {
      buf[pos..filled]
    }

    /** Asks the source for at most `limit` bytes and appends them behind `filled`. */
    method FillBuffer(limit: nat, answer: ReadAnswer) returns (r: FillResult)
      requires Valid()
      modifies this`filled, this`initialized, buf
      ensures Valid() && initialized >= old(initialized)
      ensures r.Full? <==> old(filled) == buf.Length
      ensures r.Added? <==> answer.Ready? && old(filled) < buf.Length
      ensures r.Added? ==> r.amount == Min(|answer.bytes|, Min(limit, buf.Length - old(filled)))
      ensures r.Pending? ==> answer.Stalled?
      ensures r.Failed? ==> answer.Broken?
      ensures AsView() == if r.Added? then old(AsView()).Fill(answer.bytes[..r.amount]) else old(AsView())
    {
      if filled == buf.Length {
        return Full;
      }
      match answer
      case Stalled => return Pending;
      case Broken => return Failed;
      case Ready(bytes) =>
        ghost var before := AsView();
        var n := Min(|bytes|, Min(limit, buf.Length - filled));
        forall i | 0 <= i < n {
          buf[filled + i] := bytes[i];
        }
        var oldFilled := filled;
        filled := oldFilled + n;
        initialized := if initialized < filled then filled else initialized;
        assert buf[..filled] == before.data + bytes[..n];
        return Added(filled - oldFilled);
    }

    /** Moves bytes from the front of the buffer into a destination of `want` free bytes. */
    method Read(want: nat) returns (out: seq<Byte>)
      requires Valid()
      modifies this`pos, this`filled
      ensures Valid() && initialized == old(initialized)
      ensures out == old(AsView()).Taken(want)
      ensures AsView() == old(AsView()).Take(want)
    {
      var bytes := Bytes();
      var len := Min(want, |bytes|);
      out := bytes[..len];
      if len == 0 {
        return;
      }
      pos := pos + len;
      if pos == filled {
        pos, filled := 0, 0;
      }
    }
  }
}
