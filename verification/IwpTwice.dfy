/**
  Outside the region of `Quick` at-most-once delivery fails: for every such gap and delay there is a
  run that delivers one message of two fragments twice. In all of them the acknowledgement is lost
  and a late XMIT reaches the receiver when its replay window has just ended.
*/
module IwpTwice {
  import opened Bytes
  import opened IwpMessages
  import opened IwpSession
  import opened IwpLink
  import opened IwpTiming
  import opened IwpRuns
  import opened IwpOnce

  lemma {:induction false} PromptSnoc(hash: Hash, s: System, steps: seq<Step>, step: Step, gap: nat, delay: nat)
    requires PromptRun(hash, s, steps, gap, delay)
    requires Enabled(Exec(hash, s, steps), step) && Prompt(Exec(hash, s, steps), step, gap, delay)
    ensures PromptRun(hash, s, steps + [step], gap, delay)
    ensures Exec(hash, s, steps + [step]) == Apply(hash, Exec(hash, s, steps), step)
    decreases |steps|
  {
    hide Apply;
    if steps == [] {
      assert steps + [step] == [step];
      assert [step][1..] == [];
      assert Exec(hash, Apply(hash, s, step), []) == Apply(hash, s, step);
    } else {
      assert (steps + [step])[0] == steps[0] && (steps + [step])[1..] == steps[1..] + [step];
      PromptSnoc(hash, Apply(hash, s, steps[0]), steps[1..], step, gap, delay);
    }
  }

  /** A receiver that knows nothing about message 0 delivers it from its XMIT and its one DATA packet. */
  lemma DeliversFresh(hash: Hash, rx: Rx, data: seq<byte>, now: nat)
    requires FRAGMENT_SIZE < |data| <= 2 * FRAGMENT_SIZE
    requires rx.msgs == map[] && rx.replay == map[]
    ensures
      var rx1 := OnXmit(hash, rx, |data|, 0, hash(data), data[..FRAGMENT_SIZE], now).0;
      var rx2 := OnData(hash, rx1, FRAGMENT_SIZE, 0, Slice(data, 1), now).0;
      && rx2.msgs == map[] && rx2.replay == map[0 := now]
      && rx2.delivered == rx.delivered + [Delivery(0, data, now)]
  {
    var e := NewInbound(0, |data|, hash(data), now);
    assert data[..FRAGMENT_SIZE] == Slice(data, 0);
    HandleDataKeepsFaithful(e, data, 0, now);
    var e1 := HandleData(e, 0, data[..FRAGMENT_SIZE], now);
    assert e1.acks == {0} && 1 * FRAGMENT_SIZE < |e1.data| && 1 !in e1.acks;
    HandleDataKeepsFaithful(e1, data, 1, now);
    var e2 := HandleData(e1, FRAGMENT_SIZE, Slice(data, 1), now);
    assert e2.acks == {0, 1};
    assert Covers(e2.acks, |e2.data|);
    FaithfulAndCovered(e2, data);
    var rx1 := OnXmit(hash, rx, |data|, 0, hash(data), data[..FRAGMENT_SIZE], now).0;
    assert rx1.msgs == map[0 := e1] && rx1.replay == map[] && rx1.delivered == rx.delivered;
  }

  // ------------------------------------------------------------------ pieces of the runs

  /** `steps` is a prompt run from the start to `s`. */
  ghost predicate At(hash: Hash, steps: seq<Step>, s: System, gap: nat, delay: nat)
  {
    PromptRun(hash, START, steps, gap, delay) && Exec(hash, START, steps) == s
  }

  lemma Go(hash: Hash, steps: seq<Step>, s: System, step: Step, gap: nat, delay: nat)
    returns (steps': seq<Step>, s': System)
    requires At(hash, steps, s, gap, delay) && Enabled(s, step) && Prompt(s, step, gap, delay)
    ensures At(hash, steps', s', gap, delay) && s' == Apply(hash, s, step)
  {
    hide Apply;
    PromptSnoc(hash, START, steps, step, gap, delay);
    steps', s' := steps + [step], Apply(hash, s, step);
  }

  function Head(hash: Hash, data: seq<byte>): Packet
    requires |data| == FRAGMENT_SIZE + 1
  {
    XMIT(|data|, 0, hash(data), data[..FRAGMENT_SIZE])
  }

  function Tail(data: seq<byte>): Packet
    requires |data| == FRAGMENT_SIZE + 1
  {
    DATA(FRAGMENT_SIZE, 0, Slice(data, 1))
  }

  /** Peer A still has message 0 queued, with only its head acknowledged. */
  ghost predicate Queued(hash: Hash, tx: Tx, data: seq<byte>)
  {
    && tx.msgs.Keys == {0}
    && var m := tx.msgs[0];
       m.data == data && m.msgId == 0 && m.acks == {0} && m.digest == hash(data) && m.startedAt == 0
  }

  /** Peer B has delivered message 0 at time 0. */
  ghost predicate DeliveredOnce(rx: Rx, data: seq<byte>, replay: map<nat, nat>)
  {
    rx.msgs == map[] && rx.replay == replay && rx.delivered == [Delivery(0, data, 0)]
  }

  lemma QueuedPackets(hash: Hash, m: OutboundMessage, data: seq<byte>)
    requires |data| == FRAGMENT_SIZE + 1 && m.data == data && m.msgId == 0 && m.acks == {0} && m.digest == hash(data)
    ensures Xmit(m) == Head(hash, data) && Unacked(m, 0) == [Tail(data)]
  {
    assert Unacked(m, 2) == [];
    assert Unacked(m, 1) == [Tail(data)] + Unacked(m, 2);
  }

  lemma AtStart(hash: Hash, gap: nat, delay: nat)
    ensures At(hash, [], START, gap, delay)
  {
  }

  /** B receives head and tail of message 0 and delivers it. */
  lemma Receive(hash: Hash, data: seq<byte>, steps: seq<Step>, s: System, at: nat, gap: nat, delay: nat)
    returns (steps': seq<Step>, s': System)
    requires |data| == FRAGMENT_SIZE + 1 && At(hash, steps, s, gap, delay) && s.now <= at + delay
    requires Flight(Head(hash, data), at) in s.toB && Flight(Tail(data), at) in s.toB
    requires s.b.rx.msgs == map[] && s.b.rx.replay == map[]
    ensures At(hash, steps', s', gap, delay) && s'.now == s.now && s'.a == s.a && s'.b.lastTick == s.b.lastTick
    ensures s'.b.rx.msgs == map[] && s'.b.rx.replay == map[0 := s.now]
    ensures s'.b.rx.delivered == s.b.rx.delivered + [Delivery(0, data, s.now)]
    ensures s.toA <= s'.toA
  {
    hide At, OnXmit, OnData;
    DeliversFresh(hash, s.b.rx, data, s.now);
    var steps1, s1 := Go(hash, steps, s, Deliver(B, Flight(Head(hash, data), at)), gap, delay);
    steps', s' := Go(hash, steps1, s1, Deliver(B, Flight(Tail(data), at)), gap, delay);
  }

  /** A tail that finds message 0 neither open nor filtered draws a NACK. */
  lemma DrawNack(hash: Hash, data: seq<byte>, steps: seq<Step>, s: System, at: nat, gap: nat, delay: nat)
    returns (steps': seq<Step>, s': System)
    requires |data| == FRAGMENT_SIZE + 1 && At(hash, steps, s, gap, delay) && s.now <= at + delay
    requires Flight(Tail(data), at) in s.toB && 0 !in s.b.rx.msgs && 0 !in s.b.rx.replay
    ensures At(hash, steps', s', gap, delay)
    ensures s' == s.(toA := s.toA + {Flight(NACK(0), s.now)})
  {
    hide At;
    steps', s' := Go(hash, steps, s, Deliver(B, Flight(Tail(data), at)), gap, delay);
    assert Post([NACK(0)], s.now) == {Flight(NACK(0), s.now)};
  }

  /** A submits; B sees the tail first and asks for the head, then gets both and delivers. */
  lemma Opening(hash: Hash, data: seq<byte>, gap: nat, delay: nat) returns (steps: seq<Step>, s: System)
    requires |data| == FRAGMENT_SIZE + 1
    ensures At(hash, steps, s, gap, delay) && s.now == s.a.lastTick == s.b.lastTick == 0
    ensures Queued(hash, s.a.tx, data) && s.a.tx.msgs[0].lastFlush == 0 && s.a.rx.msgs == map[]
    ensures DeliveredOnce(s.b.rx, data, map[0 := 0])
    ensures Flight(NACK(0), 0) in s.toA
  {
    hide At;
    QueuedPackets(hash, NewOutbound(hash, 0, data, 0, 0), data);
    AtStart(hash, gap, delay);
    steps, s := Go(hash, [], START, Send(A, data, 0), gap, delay);
    assert Flight(Head(hash, data), 0) in s.toB && Flight(Tail(data), 0) in s.toB;
    steps, s := DrawNack(hash, data, steps, s, 0, gap, delay);
    steps, s := Receive(hash, data, steps, s, 0, gap, delay);
  }

  // ---------------------------------------------------------------------- time passes

  /** Both peers tick. */
  lemma TickBoth(hash: Hash, steps: seq<Step>, s: System, gap: nat, delay: nat) returns (steps': seq<Step>, s': System)
    requires At(hash, steps, s, gap, delay) && s.a.rx.msgs == map[]
    ensures At(hash, steps', s', gap, delay)
    ensures s'.now == s'.a.lastTick == s'.b.lastTick == s.now && s'.toA == s.toA && s'.toB == s.toB
    ensures s'.a.tx == TickTx(s.a.tx, s.now) && s'.b.rx == TickRx(s.b.rx, s.now) && s'.a.rx.msgs == map[]
  {
    hide At, TickTx;
    var steps1, s1 := Go(hash, steps, s, DoTick(A), gap, delay);
    steps', s' := Go(hash, steps1, s1, DoTick(B), gap, delay);
    assert Post([], s.now) == {};
    assert s'.toA == s.toA && s'.toB == s.toB;
  }

  /** Ticks keep a message that is not overdue, and let the replay filter decay. */
  lemma TickEffect(hash: Hash, tx: Tx, rx: Rx, data: seq<byte>, now: nat)
    ensures Queued(hash, tx, data) && now <= DELIVERY_TIMEOUT ==> TickTx(tx, now).msgs == tx.msgs
    ensures DeliveredOnce(rx, data, map[0 := 0]) ==>
      DeliveredOnce(TickRx(rx, now), data, if now < REPLAY_WINDOW then map[0 := 0] else map[])
  {
    if Queued(hash, tx, data) && now <= DELIVERY_TIMEOUT {
      assert TxLate(tx.msgs, now) == {};
    }
    if DeliveredOnce(rx, data, map[0 := 0]) {
      assert RxLate(rx.msgs, now) == {};
      assert Stamped({}, now) + rx.replay == rx.replay;
    }
  }

  /** Let time pass to `to`, ticking every millisecond; before the delivery timeout A keeps its message. */
  lemma {:induction false} Idle(hash: Hash, data: seq<byte>, steps: seq<Step>, s: System, to: nat, gap: nat, delay: nat)
    returns (steps': seq<Step>, s': System)
    requires At(hash, steps, s, gap, delay) && s.now == s.a.lastTick == s.b.lastTick && s.a.rx.msgs == map[]
    requires s.now <= to <= REPLAY_WINDOW && gap >= 1
    requires DeliveredOnce(s.b.rx, data, if s.now < REPLAY_WINDOW then map[0 := 0] else map[])
    ensures At(hash, steps', s', gap, delay) && s'.now == s'.a.lastTick == s'.b.lastTick == to && s'.a.rx.msgs == map[]
    ensures s'.toA == s.toA && s'.toB == s.toB
    ensures DeliveredOnce(s'.b.rx, data, if to < REPLAY_WINDOW then map[0 := 0] else map[])
    ensures to <= DELIVERY_TIMEOUT && Queued(hash, s.a.tx, data) ==> s'.a.tx.msgs == s.a.tx.msgs
    decreases if s.now <= to then to - s.now else 0
  {
    hide At, TickTx, TickRx;
    steps', s' := steps, s;
    if s.now < to {
      var steps1, s1 := Go(hash, steps, s, Advance(s.now + 1), gap, delay);
      var steps2, s2 := TickBoth(hash, steps1, s1, gap, delay);
      TickEffect(hash, s1.a.tx, s1.b.rx, data, s1.now);
      steps', s' := Idle(hash, data, steps2, s2, to, gap, delay);
    }
  }

  // --------------------------------------------------------------------- resending

  /** A flushes: the tail goes out again. */
  lemma PumpTail(hash: Hash, data: seq<byte>, steps: seq<Step>, s: System, gap: nat, delay: nat)
    returns (steps': seq<Step>, s': System)
    requires |data| == FRAGMENT_SIZE + 1 && At(hash, steps, s, gap, delay)
    requires Queued(hash, s.a.tx, data) && s.a.tx.msgs[0].lastFlush == 0 && s.now >= TX_FLUSH_INTERVAL
    requires s.a.rx.msgs == map[]
    ensures At(hash, steps', s', gap, delay) && s'.now == s.now && s'.b == s.b && s'.toA == s.toA
    ensures s'.a.lastTick == s.a.lastTick && s'.a.rx.msgs == map[]
    ensures Queued(hash, s'.a.tx, data) && s.toB <= s'.toB && Flight(Tail(data), s.now) in s'.toB
  {
    hide At;
    var tx := s.a.tx;
    steps', s' := Go(hash, steps, s, DoPump(A), gap, delay);
    QueuedPackets(hash, tx.msgs[0], data);
    FlushOne(tx.msgs, s.now);
    var r := PumpTx(tx, s.now);
    assert Tail(data) in r.1;
    assert PumpRx(s.a.rx, s.now).0.msgs == map[];
  }

  lemma FlushOne(msgs: map<nat, OutboundMessage>, now: nat)
    requires msgs.Keys == {0} && ShouldFlush(msgs[0], now)
    ensures TxDue(msgs, now) == {0} && ResendOrder(msgs, {0}) == [0] && FlushAll(msgs, [0]) == Unacked(msgs[0], 0)
  {
    var due := TxDue(msgs, now);
    assert due == {0};
    var top := Top(msgs, {0});
    assert {0} - {top} == {};
    assert FlushAll(msgs, [0][1..]) == [];
  }

  /** A answers a NACK: the head goes out again. */
  lemma AnswerNack(hash: Hash, data: seq<byte>, steps: seq<Step>, s: System, at: nat, gap: nat, delay: nat)
    returns (steps': seq<Step>, s': System)
    requires |data| == FRAGMENT_SIZE + 1 && At(hash, steps, s, gap, delay)
    requires Queued(hash, s.a.tx, data) && Flight(NACK(0), at) in s.toA && s.now <= at + delay
    ensures At(hash, steps', s', gap, delay)
    ensures s' == s.(toB := s.toB + {Flight(Head(hash, data), s.now)})
  {
    hide At;
    QueuedPackets(hash, s.a.tx.msgs[0], data);
    steps', s' := Go(hash, steps, s, Deliver(A, Flight(NACK(0), at)), gap, delay);
    assert Post([Head(hash, data)], s.now) == {Flight(Head(hash, data), s.now)};
  }

  // ----------------------------------------------------------------------- the runs

  /** The sender may tick late: A still holds the message when the replay window ends. */
  lemma TwiceByGap(hash: Hash, data: seq<byte>, gap: nat, delay: nat) returns (steps: seq<Step>, s: System)
    requires |data| == FRAGMENT_SIZE + 1 && gap >= 700
    ensures At(hash, steps, s, gap, delay) && DeliversTwice(s, B)
  {
    hide At;
    steps, s := Opening(hash, data, gap, delay);
    steps, s := Idle(hash, data, steps, s, DELIVERY_TIMEOUT, gap, delay);
    steps, s := Go(hash, steps, s, Advance(REPLAY_WINDOW), gap, delay);
    ghost var before := s;
    TickEffect(hash, s.a.tx, s.b.rx, data, s.now);
    steps, s := Go(hash, steps, s, DoTick(B), gap, delay);
    assert s.a == before.a;
    steps, s := PumpTail(hash, data, steps, s, gap, delay);
    steps, s := DrawNack(hash, data, steps, s, s.now, gap, delay);
    steps, s := AnswerNack(hash, data, steps, s, s.now, gap, delay);
    steps, s := Receive(hash, data, steps, s, s.now, gap, delay);
    assert s.Me(B).rx.delivered[0].id == s.Me(B).rx.delivered[1].id;
  }

  /** Packets may be slow: an old NACK draws a head that arrives when the replay window ends. */
  lemma TwiceByDelay(hash: Hash, data: seq<byte>, gap: nat, delay: nat) returns (steps: seq<Step>, s: System)
    requires |data| == FRAGMENT_SIZE + 1 && gap >= 1 && delay >= 600 && gap + delay >= 700
    ensures At(hash, steps, s, gap, delay) && DeliversTwice(s, B)
  {
    hide At;
    var resend := if delay >= 800 then 400 else 1200 - delay;
    steps, s := Opening(hash, data, gap, delay);
    steps, s := Idle(hash, data, steps, s, Min(resend, DELIVERY_TIMEOUT), gap, delay);
    steps, s := Go(hash, steps, s, Advance(resend), gap, delay);
    steps, s := PumpTail(hash, data, steps, s, gap, delay);
    steps, s := AnswerNack(hash, data, steps, s, 0, gap, delay);
    TickEffect(hash, s.a.tx, s.b.rx, data, s.now);
    steps, s := TickBoth(hash, steps, s, gap, delay);
    steps, s := Idle(hash, data, steps, s, REPLAY_WINDOW, gap, delay);
    steps, s := Receive(hash, data, steps, s, resend, gap, delay);
    assert s.Me(B).rx.delivered[0].id == s.Me(B).rx.delivered[1].id;
  }

  /** A prompt run after which peer `w` has been handed some message twice. */
  ghost predicate Repeats(hash: Hash, steps: seq<Step>, w: Who, gap: nat, delay: nat)
  {
    PromptRun(hash, START, steps, gap, delay) && DeliversTwice(Exec(hash, START, steps), w)
  }

  /**
    The exact bound: no prompt run delivers a message twice if and only if time cannot pass (gap 0),
    gap and delay are together under 700 ms, or the gap is under 700 ms and the delay under 600 ms.
  */
  lemma AtMostOnceExactly(hash: Hash, gap: nat, delay: nat)
    ensures Quick(gap, delay) <==> forall steps, w :: !Repeats(hash, steps, w, gap, delay)
  {
    hide Apply, DeliversTwice;
    if Quick(gap, delay) {
      forall steps, w
        ensures !Repeats(hash, steps, w, gap, delay)
      {
        if PromptRun(hash, START, steps, gap, delay) {
          AtMostOnce(hash, steps, gap, delay, w);
        }
      }
    } else {
      var data := seq(FRAGMENT_SIZE + 1, _ => 0);
      var steps, s;
      if gap >= 700 {
        steps, s := TwiceByGap(hash, data, gap, delay);
      } else {
        steps, s := TwiceByDelay(hash, data, gap, delay);
      }
      assert Repeats(hash, steps, B, gap, delay);
    }
  }
}
