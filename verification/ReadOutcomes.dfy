/** When polls of the shared reader, reads and accepts make progress, wait or fail: what each
    outcome says about the answers of the TCP reader and about the state. */
module ReadOutcomes {
  import opened Protocol
  import opened Readers
  import opened SharedReaders

  // ---------------------------------------------------------------- one poll

  /** Is there a living reader for the payload under way? */
  predicate Wanted(rx: Rx)
    requires rx.state.Reading?
  {
    rx.state.owner in rx.sockets && rx.sockets[rx.state.owner] < |rx.entries| && rx.entries[rx.sockets[rx.state.owner]].alive
  }

  /** The buffer of that reader has no room. */
  predicate BufferFull(rx: Rx) {
    rx.state.Reading? && Wanted(rx) && |rx.entries[rx.sockets[rx.state.owner]].buffer.data| >= CAPACITY
  }

  /** The new connection does not fit into the channel. */
  predicate ChannelFull(rx: Rx) {
    rx.state.SendSocket? && rx.listener && |rx.chan| >= rx.room
  }

  /** Payload is taken whenever the TCP reader has some and its reader, if it lives, has room:
      as much as there is, up to the end of the frame and the free space. A full buffer stops
      it; the end of the stream is fatal; other answers leave everything as it is. */
  lemma PayloadIsTaken(rx: Rx, answer: Buf.ReadAnswer)
    requires rx.Valid() && rx.state.Reading?
    ensures var p := PollRead(rx, answer);
            if BufferFull(rx) then p == Polled(rx, Pending, [])
            else match answer
              case Stalled => p == Polled(rx, Pending, [])
              case Broken => p == Polled(rx, IoError, [])
              case Ready(bytes) =>
                if bytes == [] then p.outcome.Fatal? && p.rx.state.Error? && p.used == []
                else
                  && p.outcome.Progress? && p.used != [] && p.used <= bytes && |p.used| <= rx.state.left
                  && (Wanted(rx) ==> |p.used| <= CAPACITY - |rx.entries[rx.sockets[rx.state.owner]].buffer.data|)
                  && (p.used == bytes || |p.used| == rx.state.left
                      || (Wanted(rx) && |p.used| == CAPACITY - |rx.entries[rx.sockets[rx.state.owner]].buffer.data|))
  {
  }

  /** A header is gathered whenever the TCP reader has bytes; only a part of one still makes the
      poll wait, with what it has kept. */
  lemma HeaderIsGathered(rx: Rx, answer: Buf.ReadAnswer)
    requires rx.Valid() && rx.state.NextPacket?
    ensures var p := PollNextPacket(rx, answer);
            match answer
            case Stalled => p == Polled(rx, Pending, [])
            case Broken => p == Polled(rx, IoError, [])
            case Ready(bytes) =>
              if bytes == [] then p.outcome.Fatal? && p.rx.state.Error? && p.used == []
              else
                && p.used != [] && p.used <= bytes && |rx.state.header| + |p.used| <= HEADER_SIZE
                && (p.used == bytes || |rx.state.header| + |p.used| == HEADER_SIZE)
                && (p.outcome.Progress? <==> |rx.state.header| + |p.used| == HEADER_SIZE)
                && (!p.outcome.Progress? ==> p == Polled(rx.(state := NextPacket(rx.state.header + p.used)), Pending, p.used))
  {
  }

  /** A new connection goes into the channel unless that is full; without a listener it goes
      nowhere, and nothing is held up. */
  lemma SocketIsHandedOff(rx: Rx, answer: Buf.ReadAnswer)
    requires rx.Valid() && rx.state.SendSocket?
    ensures var p := PollOnce(rx, answer);
            if ChannelFull(rx) then p == Polled(rx, Pending, [])
            else
              && p.outcome.Progress? && p.used == [] && p.rx.state == NextPacket([])
              && p.rx.chan == (if rx.listener then rx.chan + [rx.state.id] else rx.chan)
              && (!rx.listener ==> !p.rx.entries[rx.state.id].alive)
  {
  }

  /** A reader that is gone holds nobody up: payload for it is taken, and thrown away, also when
      its buffer was full. */
  lemma DroppedHoldsNobodyUp(rx: Rx, i: nat, answer: Buf.ReadAnswer)
    requires rx.Valid() && rx.state.Reading? && rx.Mapped(i) && rx.entries[i].addr == rx.state.owner
    requires CanDo(rx, DropOne(i)) && answer.Ready? && answer.bytes != []
    ensures var rx' := Exec(rx, DropOne(i));
            && rx'.Valid() && !rx'.entries[i].alive && !BufferFull(rx')
            && var p := PollRead(rx', answer);
               && p.outcome.Progress? && |p.used| == Min(|answer.bytes|, rx.state.left)
               && p.rx.entries == rx'.entries
  {
    ExecRefines(rx, DropOne(i));
    PayloadIsTaken(Exec(rx, DropOne(i)), answer);
  }

  /** And it stays gone. */
  lemma GoneForGood(rx: Rx, op: Op, i: nat)
    requires rx.Valid() && CanDo(rx, op) && i < |rx.entries| && !rx.entries[i].alive
    ensures i < |Exec(rx, op).entries| && !Exec(rx, op).entries[i].alive
  {
  }

  // ---------------------------------------------------------------- a whole poll

  predicate Has(script: seq<Buf.ReadAnswer>, x: Buf.ReadAnswer) {
    exists k :: 0 <= k < |script| && script[k] == x
  }

  lemma TailHas(script: seq<Buf.ReadAnswer>, x: Buf.ReadAnswer)
    requires script != [] && Has(script[1..], x)
    ensures Has(script, x)
  {
    var k :| 0 <= k < |script[1..]| && script[1..][k] == x;
    assert script[k + 1] == x;
  }

  /** How one poll can fail. */
  lemma OnceFails(rx: Rx, answer: Buf.ReadAnswer)
    requires rx.Valid()
    ensures var p := PollOnce(rx, answer);
            && p.rx.Valid()
            && (p.outcome.Fatal? ==> rx.state.Error? || (Asks(rx.state) && answer == Buf.Ready([])))
            && (p.outcome.IoError? ==> Asks(rx.state) && answer.Broken?)
            && (p.outcome.Progress? ==> !rx.state.Error? && !p.rx.state.Error?)
            && (rx.state.Error? ==> p.outcome.Fatal?)
  {
    PollRefines(rx, answer);
  }

  /** A poll ends in an error only over an error or the end of the TCP stream, and then always:
      a fatal error lasts. Without answers it waits. */
  lemma {:induction false} PollFails(rx: Rx, script: seq<Buf.ReadAnswer>)
    requires rx.Valid()
    ensures var r := PollAll(rx, script);
            && (r.outcome.Fatal? ==> rx.state.Error? || Has(script, Buf.Ready([])))
            && (r.outcome.IoError? ==> Has(script, Buf.Broken))
            && (rx.state.Error? ==> r.outcome.Fatal? && r.rx == rx)
            && (script == [] && !rx.state.Error? ==> r.outcome.Pending?)
    decreases |script|, if rx.state.SendSocket? then 1 else 0
  {
    if !(Asks(rx.state) && script == []) {
      var answer := if Asks(rx.state) then script[0] else Buf.Stalled;
      var p := PollOnce(rx, answer);
      OnceFails(rx, answer);
      if p.outcome.Progress? {
        var rest := if Asks(rx.state) then script[1..] else script;
        if !Asks(rx.state) {
          HandOffOnce(rx, answer);
        }
        hide PollOnce, Has;
        PollFails(p.rx, rest);
        if Asks(rx.state) && Has(script[1..], Buf.Ready([])) {
          TailHas(script, Buf.Ready([]));
        }
        if Asks(rx.state) && Has(script[1..], Buf.Broken) {
          TailHas(script, Buf.Broken);
        }
      }
    }
  }

  /** How many answers a poll uses. */
  ghost function Asked(rx: Rx, script: seq<Buf.ReadAnswer>): (k: nat)
    requires rx.Valid()
    ensures k <= |script|
    decreases |script|, if rx.state.SendSocket? then 1 else 0
  {
    if Asks(rx.state) && script == [] then 0
    else
      var asks := Asks(rx.state);
      var answer := if asks then script[0] else Buf.Stalled;
      PollRefines(rx, answer);
      var p := PollOnce(rx, answer);
      (if asks then 1 else 0) + if p.outcome.Progress? then Asked(p.rx, if asks then script[1..] else script) else 0
  }

  /** Why a poll that has used `k` answers waits: there are no more, the TCP reader was not
      ready, a buffer or the channel is full, or a header is there only in part. */
  ghost predicate Reason(rx: Rx, script: seq<Buf.ReadAnswer>, k: nat) {
    || (k == |script| && Asks(rx.state))
    || (0 < k <= |script| && script[k - 1].Stalled?)
    || BufferFull(rx) || ChannelFull(rx)
    || (rx.state.NextPacket? && rx.state.header != [])
  }

  lemma OnceWaits(rx: Rx, answer: Buf.ReadAnswer)
    requires rx.Valid() && PollOnce(rx, answer).outcome.Pending?
    ensures var rx' := PollOnce(rx, answer).rx;
            || (Asks(rx.state) && answer.Stalled?) || BufferFull(rx') || ChannelFull(rx')
            || (rx'.state.NextPacket? && rx'.state.header != [])
  {
  }

  /** A poll does not wait without a reason. */
  lemma {:induction false} PollWaits(rx: Rx, script: seq<Buf.ReadAnswer>)
    requires rx.Valid()
    ensures PollAll(rx, script).outcome.Pending? ==> Reason(PollAll(rx, script).rx, script, Asked(rx, script))
    decreases |script|, if rx.state.SendSocket? then 1 else 0
  {
    if !(Asks(rx.state) && script == []) {
      var answer := if Asks(rx.state) then script[0] else Buf.Stalled;
      var p := PollOnce(rx, answer);
      PollRefines(rx, answer);
      if p.outcome.Progress? {
        if !Asks(rx.state) {
          HandOffOnce(rx, answer);
        }
        hide PollOnce, BufferFull, ChannelFull;
        PollWaits(p.rx, if Asks(rx.state) then script[1..] else script);
      } else if p.outcome.Pending? {
        OnceWaits(rx, answer);
      }
    }
  }

  // ---------------------------------------------------------------- reads and accepts

  /** What a read hands out leaves the buffer from its front and is on record. */
  lemma ReadHandsOut(rx: Rx, id: nat, want: nat, script: seq<Buf.ReadAnswer>)
    requires rx.Valid() && CanDo(rx, Take(id, want)) && want > 0 && rx.entries[id].buffer.Contents() != []
    ensures var (rx', r) := ReadFrom(rx, id, want, script);
            var c := rx.entries[id].buffer.Contents();
            && r == Got(c[..Min(want, |c|)])
            && |rx'.entries| == |rx.entries|
            && rx'.entries[id].got == rx.entries[id].got + r.bytes
            && rx'.entries[id].buffer.Contents() == c[|r.bytes|..]
            && rx' == rx.(entries := rx.entries[id := rx'.entries[id]])
  {
    var e := rx.entries[id];
    assert e.buffer.Taken(want) != [];
  }

  /** A read that finds nothing and whose connection is open waits or fails as the shared reader
      does: it fails only over an error of the TCP stream, always after a fatal one, and
      without answers it waits. */
  lemma ReadWaitsOrFails(rx: Rx, id: nat, want: nat, script: seq<Buf.ReadAnswer>)
    requires rx.Valid() && CanDo(rx, Take(id, want)) && want > 0
    requires rx.entries[id].buffer.Contents() == [] && rx.Mapped(id)
    ensures var r := ReadFrom(rx, id, want, script).1;
            && (r.Broke? || r.NotYet?)
            && (r.Broke? ==> rx.state.Error? || Has(script, Buf.Ready([])) || Has(script, Buf.Broken))
            && (rx.state.Error? ==> r.Broke?)
            && (script == [] && !rx.state.Error? ==> r.NotYet?)
            && (r.NotYet? ==> Reason(ReadFrom(rx, id, want, script).0, script, Asked(rx, script)))
  {
    PollFails(rx, script);
    PollWaits(rx, script);
    hide PollAll, Has, Reason, Asked;
    assert rx.entries[id].buffer.Taken(want) == [];
  }

  /** So does an accept that finds no connection in the channel. */
  lemma AcceptWaitsOrFails(rx: Rx, script: seq<Buf.ReadAnswer>)
    requires rx.Valid() && rx.listener && rx.chan == []
    ensures var r := AcceptFrom(rx, script).1;
            && (r.Died? || r.NoneYet?)
            && (r.Died? ==> rx.state.Error? || Has(script, Buf.Ready([])) || Has(script, Buf.Broken))
            && (rx.state.Error? ==> r.Died?)
            && (script == [] && !rx.state.Error? ==> r.NoneYet?)
            && (r.NoneYet? ==> Reason(AcceptFrom(rx, script).0, script, Asked(rx, script)))
  {
    PollFails(rx, script);
    PollWaits(rx, script);
  }
}
