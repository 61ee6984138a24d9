/** When calls of the writing side end well, wait or fail: what each outcome says about the
    answers of the lock and of the TCP writer, and which answers are enough to finish. */
module WriteOutcomes {
  import opened Protocol
  import opened Connections
  import opened WritePolls
  import opened PollLaws

  // ---------------------------------------------------------------- answers

  /** The TCP writer takes at least one byte. */
  predicate Willing(x: Answer) {
    x.Took? && x.n > 0
  }

  /** The TCP writer fails, or takes nothing, which is an error too. */
  predicate Bad(x: Answer) {
    x.Broken? || x == Took(0)
  }

  predicate AllWilling(script: seq<Answer>) {
    forall k :: 0 <= k < |script| ==> Willing(script[k])
  }

  predicate Fails(script: seq<Answer>) {
    exists k :: 0 <= k < |script| && Bad(script[k])
  }

  /** The bytes taken by these answers if there are enough of them. */
  function Total(script: seq<Answer>): nat
    decreases |script|
  {
    if script == [] then 0 else (if script[0].Took? then script[0].n else 0) + Total(script[1..])
  }

  lemma TailFails(script: seq<Answer>, k: nat)
    requires k <= |script| && Fails(script[k..])
    ensures Fails(script)
  {
    var j :| 0 <= j < |script[k..]| && Bad(script[k..][j]);
    assert Bad(script[k + j]);
  }

  // ---------------------------------------------------------------- flush_buf

  /** Why a flush that has used `k` answers ended as it did. All but the last of them were
      willing and not enough. It is flushed when the last was enough; lost when the last was
      bad; stuck when the last was neither, or when there were no more. */
  ghost predicate PumpReason(rest: nat, script: seq<Answer>, k: nat, o: FlushOutcome, gone: nat) {
    && k <= |script|
    && (k > 0 ==> AllWilling(script[..k - 1]) && Total(script[..k - 1]) < rest)
    && match o
       case Flushed => AllWilling(script[..k]) && Total(script[..k]) >= rest && gone == rest
       case Stuck =>
         || (k == |script| && AllWilling(script) && gone == Total(script) < rest)
         || (k > 0 && !Willing(script[k - 1]) && !Bad(script[k - 1]) && gone == Total(script[..k - 1]))
       case Lost => k > 0 && Bad(script[k - 1]) && gone == Total(script[..k - 1])
  }

  /** A flush, exactly: its outcome and the bytes gone are decided by its answers. */
  lemma {:induction false} PumpExactly(out: seq<Byte>, sent: nat, script: seq<Answer>) returns (k: nat)
    requires sent <= |out|
    ensures var r := Pump(out, sent, script);
            PumpReason(|out| - sent, script, k, r.outcome, r.sent - sent) && r.script == script[k..]
    decreases |out| - sent
  {
    k := 0;
    if sent < |out| && script != [] && Willing(script[0]) && script[0].n < |out| - sent {
      hide PumpReason;
      var j := PumpExactly(out, sent + script[0].n, script[1..]);
      k := j + 1;
      PumpLater(|out| - sent, script, j, Pump(out, sent, script).outcome, Pump(out, sent, script).sent - sent - script[0].n);
      assert script[1..][j..] == script[k..];
    } else {
      k := PumpEnds(out, sent, script);
    }
  }

  lemma PumpEnds(out: seq<Byte>, sent: nat, script: seq<Answer>) returns (k: nat)
    requires sent <= |out|
    requires !(sent < |out| && script != [] && Willing(script[0]) && script[0].n < |out| - sent)
    ensures var r := Pump(out, sent, script);
            PumpReason(|out| - sent, script, k, r.outcome, r.sent - sent) && r.script == script[k..]
  {
    k := if sent < |out| && script != [] then 1 else 0;
    if k == 1 {
      assert script[..1] == [script[0]] && script[..0] == [];
      assert [script[0]][1..] == [];
    }
  }

  /** One willing answer more in front. */
  lemma PumpLater(rest: nat, script: seq<Answer>, k: nat, o: FlushOutcome, gone: nat)
    requires script != [] && Willing(script[0]) && script[0].n < rest
    requires PumpReason(rest - script[0].n, script[1..], k, o, gone)
    ensures PumpReason(rest, script, k + 1, o, gone + script[0].n)
  {
    TotalCons(script, k + 1);
    TotalCons(script, |script|);
    assert script[..|script|] == script && script[1..][..|script| - 1] == script[1..];
    if k > 0 {
      TotalCons(script, k);
      assert script[k] == script[1..][k - 1];
    } else {
      assert script[..0] == [];
    }
  }

  lemma TotalCons(script: seq<Answer>, k: nat)
    requires 0 < k <= |script|
    ensures Total(script[..k]) == (if script[0].Took? then script[0].n else 0) + Total(script[1..][..k - 1])
    ensures AllWilling(script[..k]) <==> Willing(script[0]) && AllWilling(script[1..][..k - 1])
  {
    var front, tail := script[..k], script[1..][..k - 1];
    assert front[1..] == tail && front[0] == script[0];
    if AllWilling(front) {
      forall j | 0 <= j < |tail|
        ensures Willing(tail[j])
      {
        assert tail[j] == front[j + 1];
      }
    }
  }

  /** A flush is lost only over a bad answer. */
  lemma LostMeansBad(out: seq<Byte>, sent: nat, script: seq<Answer>)
    requires sent <= |out|
    ensures Pump(out, sent, script).outcome.Lost? ==> Fails(script)
    ensures Fails(Pump(out, sent, script).script) ==> Fails(script)
  {
    var k := PumpExactly(out, sent, script);
    if Fails(script[k..]) {
      TailFails(script, k);
    }
  }

  /** As many willing answers as there are bytes left are enough. */
  lemma {:induction false} WillingIsEnough(out: seq<Byte>, sent: nat, script: seq<Answer>)
    requires sent <= |out| && AllWilling(script) && |script| >= |out| - sent
    ensures var r := Pump(out, sent, script);
            r.outcome.Flushed? && AllWilling(r.script) && |r.script| >= |script| - (|out| - sent)
    decreases |out| - sent
  {
    if sent < |out| {
      assert Willing(script[0]);
      WillingIsEnough(out, sent + Min(script[0].n, |out| - sent), script[1..]);
    }
  }

  // ---------------------------------------------------------------- the lock

  /** poll_lock, exactly: the lock is taken if and only if it is free and offered, at the first
      try or, when there was no stored request, at the second. */
  lemma LockExactly(l: Local)
    requires Can(l.c, Grant) && Can(l.c, Queue) && l.Owned()
    ensures PollLock(l).c.Holds() <==>
              && l.p.owner.None?
              && ((|l.script| > 0 && l.script[0].Granted?) || (!l.c.queued && |l.script| > 1 && l.script[1].Granted?))
    ensures l.p.owner.None? && |l.script| > 0 && l.script[0].Granted? ==> PollLock(l).script == l.script[1..]
    ensures !PollLock(l).c.Holds() ==>
              PollLock(l).c.queued && PollLock(l).script == l.script[Min(|l.script|, if l.c.queued then 1 else 2)..]
  {
  }

  /** So it is for the handshake, which waits for its first request. */
  lemma AwaitExactly(l: Local)
    requires l.Owned() && l.c.phase.Opening?
    ensures AwaitLock(l).c.Holds() <==> l.p.owner.None? && l.script != [] && l.script[0].Granted?
    ensures AwaitLock(l).script == if l.script == [] then [] else l.script[1..]
  {
  }

  lemma LockUses(l: Local)
    requires Can(l.c, Grant) && Can(l.c, Queue) && l.Owned()
    ensures Fails(PollLock(l).script) ==> Fails(l.script)
  {
    var r := PollLock(l);
    var k := |l.script| - |r.script|;
    assert r.script == l.script[k..];
    if Fails(r.script) {
      TailFails(l.script, k);
    }
  }

  /** The lock is held, or free and offered, and then come enough willing answers. */
  predicate Cooperates(l: Local, owed: nat) {
    if l.c.Holds() then AllWilling(l.script) && |l.script| >= owed
    else
      && l.p.owner.None? && l.script != [] && l.script[0].Granted?
      && AllWilling(l.script[1..]) && |l.script| > owed
  }

  lemma LockCooperates(l: Local, owed: nat)
    requires Can(l.c, Grant) && Can(l.c, Queue) && l.Owned() && !l.c.Holds() && Cooperates(l, owed)
    ensures var r := PollLock(l);
            r.c.Holds() && r.c == After(l.c, Grant) && AllWilling(r.script) && |r.script| >= owed
  {
    LockExactly(l);
  }

  // ---------------------------------------------------------------- flushing a connection

  lemma FlushFails(l: Local)
    requires l.Owned() && Sending(l.c)
    ensures Flush(l).1.Lost? ==> Fails(l.script)
    ensures Fails(Flush(l).0.script) ==> Fails(l.script)
  {
    LostMeansBad(l.c.Out(), l.c.Sent(), l.script);
    assert Flush(l).0.script == Pump(l.c.Out(), l.c.Sent(), l.script).script;
  }

  lemma FlushFinishes(l: Local)
    requires l.Owned() && Sending(l.c) && AllWilling(l.script) && |l.script| >= |l.c.Out()| - l.c.Sent()
    ensures Flush(l).1.Flushed? && AllWilling(Flush(l).0.script)
    ensures |Flush(l).0.script| >= |l.script| - (|l.c.Out()| - l.c.Sent())
  {
    WillingIsEnough(l.c.Out(), l.c.Sent(), l.script);
    assert Flush(l).0.script == Pump(l.c.Out(), l.c.Sent(), l.script).script;
  }

  // ---------------------------------------------------------------- poll_write

  lemma TurnFails(l: Local, buf: seq<Byte>, wrote: nat)
    requires l.Valid() && l.Writing() && buf != []
    ensures var t := WriteTurn(l, buf, wrote);
            && (t.Return? && t.result.Error? ==> Fails(l.script))
            && (Fails(t.l.script) ==> Fails(l.script))
  {
    hide Fails, Flush, PollLock;
    if l.c.phase.Flushing? {
      FlushFails(Append(l, buf[..Min(|buf|, Room(l.c))]));
    } else if |l.c.payload| == PACKET_SIZE {
      LockUses(l);
      if PollLock(l).c.Holds() {
        FlushFails(PollLock(l));
      }
    }
  }

  /** A call of poll_write on a connection that is not shutting down reports an error only if
      the TCP writer failed or took nothing. */
  lemma {:induction false} WriteFails(l: Local, buf: seq<Byte>, wrote: nat)
    requires l.Valid() && l.Writing()
    ensures PollWrite(l, buf, wrote).1.Error? ==> Fails(l.script)
    decreases |buf|, if l.c.phase.Flushing? then 1 else 0
  {
    if buf != [] {
      hide WriteTurn, Fails;
      TurnFails(l, buf, wrote);
      var t := WriteTurn(l, buf, wrote);
      if t.Again? {
        WriteFails(t.l, buf[t.taken..], wrote + t.taken);
      }
    }
  }

  /** A call takes at least what fits at once, whatever the lock and the writer do. */
  lemma TakesWhatFits(l: Local, buf: seq<Byte>)
    requires l.Valid() && l.Writing()
    ensures PollWrite(l, buf, 0).1.accepted >= Min(|buf|, Room(l.c))
  {
    if buf != [] {
      var t := WriteTurn(l, buf, 0);
      TurnTakes(l, buf);
      hide WriteTurn;
      if t.Again? {
        WriteAppends(t.l, buf[t.taken..], t.taken);
      }
    }
  }

  lemma TurnTakes(l: Local, buf: seq<Byte>)
    requires l.Valid() && l.Writing() && buf != []
    ensures var t := WriteTurn(l, buf, 0);
            t.taken >= Min(|buf|, Room(l.c)) && (t.Return? ==> t.result.accepted == t.taken)
  {
  }

  const EVERYTHING: Answer := Took(HEADER_SIZE + PACKET_SIZE)

  /** The lock and the whole packet taken, again and again. */
  function Help(n: nat): seq<Answer> {
    if n == 0 then [] else [Granted, EVERYTHING] + Help(n - 1)
  }

  ghost predicate Helped(l: Local, n: nat) {
    if l.c.phase.Flushing? then l.script == [EVERYTHING] + Help(n) else l.p.owner.None? && l.script == Help(n)
  }

  lemma AllTakenFirst(l: Local)
    requires l.Owned() && Sending(l.c) && l.script != [] && l.script[0] == EVERYTHING && l.c.Sent() < |l.c.Out()|
    ensures Flush(l).1.Flushed? && Flush(l).0.script == l.script[1..]
  {
    assert Pump(l.c.Out(), l.c.Sent(), l.script).script == l.script[1..];
  }

  /** One turn with such help: all of the packet goes, and input is taken. */
  lemma HelpedTurn(l: Local, buf: seq<Byte>, wrote: nat, n: nat) returns (m: nat)
    requires l.Valid() && l.Writing() && buf != [] && Helped(l, n) && n >= |buf|
    ensures var t := WriteTurn(l, buf, wrote);
            && t.Again? && m >= |buf| - t.taken && Helped(t.l, m)
            && t.l.Valid() && t.l.c.phase.Buffering? && t.taken <= |buf| && (t.taken > 0 || l.c.phase.Flushing?)
  {
    m := n;
    if l.c.phase.Flushing? {
      var f := Append(l, buf[..Min(|buf|, Room(l.c))]);
      AllTakenFirst(f);
      assert l.script[1..] == Help(n);
      assert Flush(f).0.p.owner.None?;
    } else if |l.c.payload| == PACKET_SIZE {
      assert l.script[1..] == [EVERYTHING] + Help(n - 1);
      var f := PollLock(l);
      AllTakenFirst(f);
      assert f.script[1..] == Help(n - 1);
      m := n - 1;
    }
  }

  lemma {:induction false} HelpedWrite(l: Local, buf: seq<Byte>, wrote: nat, n: nat)
    requires l.Valid() && l.Writing() && Helped(l, n) && n >= |buf|
    ensures PollWrite(l, buf, wrote).1 == Ready(wrote + |buf|)
    decreases |buf|, if l.c.phase.Flushing? then 1 else 0
  {
    hide WriteTurn, Helped, Local.Valid, GoodTurn;
    if buf != [] {
      var m := HelpedTurn(l, buf, wrote, n);
      var t := WriteTurn(l, buf, wrote);
      HelpedWrite(t.l, buf[t.taken..], wrote + t.taken, m);
    }
  }

  /** Every input can be taken in one call, if the lock is granted and the packets are taken. */
  lemma WriteFinishes(c: Conn, p: Port, buf: seq<Byte>) returns (script: seq<Answer>)
    requires Local(c, p, []).Valid() && Local(c, p, []).Writing() && (c.Holds() || p.owner.None?)
    ensures Local(c, p, script).Valid() && PollWrite(Local(c, p, script), buf, 0).1 == Ready(|buf|)
  {
    script := if c.phase.Flushing? then [EVERYTHING] + Help(|buf|) else Help(|buf|);
    HelpedWrite(Local(c, p, script), buf, 0, |buf|);
  }

  // ---------------------------------------------------------------- poll_flush

  /** What poll_flush has to send. */
  function Unflushed(c: Conn): nat
    requires |c.payload| <= PACKET_SIZE
  {
    if c.payload == [] then 0 else HEADER_SIZE + |c.payload| - Min(c.Sent(), HEADER_SIZE + |c.payload|)
  }

  /** poll_flush succeeds if the lock is there and the writer takes what is in the packet; it
      fails only over a bad answer, or during shutdown. */
  lemma FlushOutcomes(l: Local)
    requires l.Valid() && l.Callable()
    ensures l.Writing() && Cooperates(l, Unflushed(l.c)) ==> PollFlush(l).1.Done?
    ensures PollFlush(l).1.Failed? ==> !l.Writing() || Fails(l.script)
    ensures l.Writing() && !l.c.Holds() && l.p.owner.Some? ==> PollFlush(l).1.Waiting?
  {
    hide Flush, PollLock, Fails;
    if l.Writing() {
      var m := if l.c.phase.Buffering? then PollLock(l) else l;
      if l.c.phase.Buffering? {
        LockUses(l);
        LockExactly(l);
      }
      if m.c.Holds() && m.c.payload != [] {
        FlushFails(m);
        if Cooperates(l, Unflushed(l.c)) {
          FlushFinishes(m);
        }
      }
    }
  }

  // ---------------------------------------------------------------- the handshake

  /** A handshake is done if the lock is there and the writer takes the header; it fails only
      over a bad answer. */
  lemma HandshakeOutcomes(l: Local)
    requires l.Valid() && (l.c.phase.Opening? || l.c.phase.Handshaking?)
    ensures Cooperates(l, HEADER_SIZE - l.c.Sent()) ==> PollHandshake(l).1.Done?
    ensures PollHandshake(l).1.Failed? ==> Fails(l.script)
    ensures l.c.phase.Opening? && l.p.owner.Some? ==> PollHandshake(l).1.Waiting?
  {
    hide Flush, Fails;
    var m := if l.c.phase.Opening? then AwaitLock(l) else l;
    if l.c.phase.Opening? {
      AwaitExactly(l);
      AwaitUses(l);
    }
    if m.c.Holds() {
      FlushFails(m);
      if Cooperates(l, HEADER_SIZE - l.c.Sent()) {
        FlushFinishes(m);
      }
    }
  }

  lemma AwaitUses(l: Local)
    requires l.Owned() && l.c.phase.Opening?
    ensures Fails(AwaitLock(l).script) ==> Fails(l.script)
  {
    AwaitExactly(l);
    if l.script != [] && Fails(l.script[1..]) {
      TailFails(l.script, 1);
    }
  }

  // ---------------------------------------------------------------- poll_shutdown

  lemma CloseTurnFails(l: Local)
    requires l.Valid() && Closing(l.c.phase)
    ensures CloseTurn(l).1 == Some(PollResult.Failed) ==> l.c.phase.CloseError? || Fails(l.script)
    ensures Fails(CloseTurn(l).0.script) ==> Fails(l.script)
    ensures CloseTurn(l).1.None? ==> !CloseTurn(l).0.c.phase.CloseError?
  {
    hide Flush, PollLock, Fails;
    if l.c.phase.CloseWaiting? {
      LockUses(l);
    } else if l.c.Holds() && !(l.c.phase.CloseFlushing? && l.c.payload == []) {
      FlushFails(l);
    }
  }

  lemma {:induction false} CloseFails(l: Local)
    requires l.Valid() && Closing(l.c.phase)
    ensures PollClose(l).1.Failed? ==> l.c.phase.CloseError? || Fails(l.script)
    decreases Rank(l.c.phase)
  {
    hide CloseTurn, Fails;
    CloseTurnFails(l);
    if CloseTurn(l).1.None? {
      CloseFails(CloseTurn(l).0);
    }
  }

  /** poll_shutdown fails only over a bad answer, or if it has failed before. */
  lemma ShutdownFails(l: Local)
    requires l.Valid() && l.Callable()
    ensures PollShutdown(l).1.Failed? ==> l.c.phase.CloseError? || Fails(l.script)
  {
    hide PollClose, Fails;
    if l.Writing() {
      OkKept(l.c, Shutdown);
      CloseFails(l.Do(Shutdown));
    } else {
      CloseFails(l);
    }
  }

  /** A turn of the closing loop with such answers goes on, and leaves enough of them. */
  lemma CloseTurnFinishes(l: Local)
    requires l.Valid() && Closing(l.c.phase) && !l.c.phase.CloseError? && !l.c.phase.Closed?
    requires Cooperates(l, |Owed(l.c)|)
    ensures var (m, o) := CloseTurn(l);
            o.None? && !m.c.phase.CloseError? && (m.c.phase.Closed? || Cooperates(m, |Owed(m.c)|))
  {
    hide Flush, PollLock;
    if l.c.phase.CloseWaiting? {
      LockCooperates(l, |Owed(l.c)|);
    } else if !(l.c.phase.CloseFlushing? && l.c.payload == []) {
      OwedWhileSending(l.c);
      FlushFinishes(l);
    }
  }

  lemma {:induction false} CloseFinishes(l: Local)
    requires l.Valid() && Closing(l.c.phase) && !l.c.phase.CloseError?
    requires l.c.phase.Closed? || Cooperates(l, |Owed(l.c)|)
    ensures PollClose(l).1.Done?
    decreases Rank(l.c.phase)
  {
    if !l.c.phase.Closed? {
      hide CloseTurn, Owed, Cooperates;
      CloseTurnFinishes(l);
      CloseFinishes(CloseTurn(l).0);
    }
  }

  /** poll_shutdown, the first call or a later one, is done if the lock is there and the writer
      takes what is owed. */
  lemma ShutdownFinishes(l: Local)
    requires l.Valid() && l.Callable() && !l.c.phase.CloseError?
    requires l.c.phase.Closed? || Cooperates(l, |OwedByCall(l.c)|)
    ensures PollShutdown(l).1.Done?
  {
    hide PollClose, Owed, Farewell;
    if l.Writing() {
      OwedAtShutdown(l.c);
      assert l.Do(Shutdown).p.owner == l.p.owner && (l.Do(Shutdown).c.Holds() <==> l.c.Holds());
      CloseFinishes(l.Do(Shutdown));
    } else {
      CloseFinishes(l);
    }
  }

  /** Without the lock it waits. */
  lemma ShutdownWaits(l: Local)
    requires l.Valid() && (l.c.phase.Buffering? || l.c.phase.CloseWaiting?) && l.p.owner.Some?
    ensures PollShutdown(l).1.Waiting?
  {
    var m := if l.Writing() then l.Do(Shutdown) else l;
    OkKept(l.c, Queue);
    assert m.Valid() && m.c.phase.CloseWaiting? && m.p.owner.Some?;
    LockExactly(m);
  }
}
