/**
  Which tick gaps and packet delays rule out delivering a message twice. `AtMostOnce` gives the
  region in which no run does it; the runs of `IwpTwice` show that outside of it one does.
*/
module IwpOnce {
  import opened Bytes
  import opened IwpMessages
  import opened IwpSession
  import opened IwpLink
  import opened IwpProgress
  import opened IwpAccounting
  import opened IwpTiming
  import opened IwpRuns

  /** Packets are handled within `delay` of being sent, and time does not pass more than `gap` after a tick. */
  predicate Prompt(s: System, step: Step, gap: nat, delay: nat)
  {
    match step
    case Advance(to) => to <= s.a.lastTick + gap && to <= s.b.lastTick + gap
    case Deliver(_, flight) => s.now <= flight.at + delay
    case _ => true
  }

  ghost predicate PromptRun(hash: Hash, s: System, steps: seq<Step>, gap: nat, delay: nat)
    decreases |steps|
  {
    steps == [] ||
    (&& Enabled(s, steps[0]) && Prompt(s, steps[0], gap, delay)
     && PromptRun(hash, Apply(hash, s, steps[0]), steps[1..], gap, delay))
  }

  ghost predicate TimedLink(l: Link, lastTick: nat, gap: nat, delay: nat)
  {
    Timely(l, lastTick, gap) && Traced(l, delay) && Once(l.rx)
  }

  ghost predicate Timed(s: System, gap: nat, delay: nat)
  {
    && TimedLink(s.From(A), s.a.lastTick, gap, delay) && TimedLink(s.From(B), s.b.lastTick, gap, delay)
    && (gap == 0 ==> s.now == 0)
  }

  lemma TimedEither(s: System, w: Who, gap: nat, delay: nat)
    ensures Timed(s, gap, delay) <==>
      (TimedLink(s.From(w), s.Me(w).lastTick, gap, delay)
       && TimedLink(s.From(w.Other()), s.Me(w.Other()).lastTick, gap, delay)
       && (gap == 0 ==> s.now == 0))
  {
    hide TimedLink;
  }

  lemma TimedForeignForward(l: Link, packets: seq<Packet>, lastTick: nat, gap: nat, delay: nat)
    requires TimedLink(l, lastTick, gap, delay) && forall p | p in packets :: p.ACKS? || p.NACK? || p.MACK?
    ensures TimedLink(l.(forward := l.forward + Post(packets, l.now)), lastTick, gap, delay)
  {
    var l' := l.(forward := l.forward + Post(packets, l.now));
    forall f | f in l'.forward && f.packet.XMIT? && f.packet.id < |l.tx.sent|
      ensures Explained(l', f, delay)
    {
      assert Explained(l, f, delay);
    }
  }

  lemma TimedForeignBack(l: Link, packets: seq<Packet>, lastTick: nat, gap: nat, delay: nat)
    requires TimedLink(l, lastTick, gap, delay) && forall p | p in packets :: p.XMIT? || p.DATA?
    ensures TimedLink(l.(back := l.back + Post(packets, l.now)), lastTick, gap, delay)
  {
    TracedQuiet(l, l.rx, packets, delay);
  }

  /** The sending side of `w` moves. */
  lemma TimedSender(s: System, w: Who, tx': Tx, packets: seq<Packet>, gap: nat, delay: nat)
    requires Timed(s, gap, delay) && forall p | p in packets :: p.XMIT? || p.DATA?
    requires
      var l := s.From(w);
      TimedLink(l.(tx := tx', forward := l.forward + Post(packets, s.now)), s.Me(w).lastTick, gap, delay)
    ensures Timed(s.Move(w, s.Me(w).(tx := tx'), packets), gap, delay)
  {
    hide TimedLink;
    TimedEither(s, w, gap, delay);
    MoveViews(s, w, s.Me(w).(tx := tx'), packets);
    TimedForeignBack(s.From(w.Other()), packets, s.Me(w.Other()).lastTick, gap, delay);
    TimedEither(s.Move(w, s.Me(w).(tx := tx'), packets), w, gap, delay);
  }

  /** The receiving side of `w` moves. */
  lemma TimedReceiver(s: System, w: Who, rx': Rx, packets: seq<Packet>, gap: nat, delay: nat)
    requires Timed(s, gap, delay) && forall p | p in packets :: p.ACKS? || p.NACK? || p.MACK?
    requires
      var l := s.From(w.Other());
      TimedLink(l.(rx := rx', back := l.back + Post(packets, s.now)), s.Me(w.Other()).lastTick, gap, delay)
    ensures Timed(s.Move(w, s.Me(w).(rx := rx'), packets), gap, delay)
  {
    hide TimedLink;
    TimedEither(s, w, gap, delay);
    MoveViews(s, w, s.Me(w).(rx := rx'), packets);
    TimedForeignForward(s.From(w), packets, s.Me(w).lastTick, gap, delay);
    TimedEither(s.Move(w, s.Me(w).(rx := rx'), packets), w, gap, delay);
  }

  /** Sender steps other than answering a NACK. */
  lemma TimedSenderStep(hash: Hash, s: System, w: Who, tx': Tx, packets: seq<Packet>, gap: nat, delay: nat)
    requires Good(hash, s) && Timed(s, gap, delay) && SenderStep(hash, s.Me(w).tx, tx', packets, s.now)
    requires forall p | p in packets :: p.DATA? || (p.XMIT? && p.id >= |s.Me(w).tx.sent|)
    ensures Timed(s.Move(w, s.Me(w).(tx := tx'), packets), gap, delay)
  {
    hide Safe, Retransmits, GoodPeer, Timely, Traced, Once, SenderStep;
    GoodEither(hash, s, w);
    TimedEither(s, w, gap, delay);
    TimelySenderStep(hash, s.From(w), tx', packets, s.Me(w).lastTick, gap);
    TracedSenderStep(hash, s.From(w), tx', packets, delay);
    TimedSender(s, w, tx', packets, gap, delay);
  }

  /** Receiver steps that deliver and open nothing and send no NACK. */
  lemma TimedQuiet(s: System, w: Who, rx': Rx, packets: seq<Packet>, gap: nat, delay: nat)
    requires Timed(s, gap, delay) && rx'.delivered == s.Me(w).rx.delivered && rx'.msgs.Keys <= s.Me(w).rx.msgs.Keys
    requires forall p | p in packets :: p.ACKS? || p.MACK?
    ensures Timed(s.Move(w, s.Me(w).(rx := rx'), packets), gap, delay)
  {
    hide Traced;
    TimedEither(s, w, gap, delay);
    var l := s.From(w.Other());
    TracedQuiet(l, rx', packets, delay);
    TimedReceiver(s, w, rx', packets, gap, delay);
  }

  lemma RepliesOnly(hash: Hash, rx: Rx, p: Packet, now: nat)
    ensures p.XMIT? ==> forall q | q in OnXmit(hash, rx, p.size, p.id, p.digest, p.head, now).1 :: q.ACKS?
    ensures p.DATA? ==> forall q | q in OnData(hash, rx, p.offset, p.id, p.fragment, now).1 :: q.ACKS? || q.NACK?
  {
  }

  lemma TimelyBack(l: Link, back: set<Flight>, lastTick: nat, gap: nat)
    requires Timely(l, lastTick, gap)
    ensures Timely(l.(back := back), lastTick, gap)
  {
  }

  lemma TimedOnXmit(hash: Hash, s: System, w: Who, f: Flight, gap: nat, delay: nat)
    requires Good(hash, s) && Timed(s, gap, delay) && Quick(gap, delay)
    requires f in s.Inbox(w) && s.now <= f.at + delay && f.packet.XMIT?
    ensures Timed(Apply(hash, s, Deliver(w, f)), gap, delay)
  {
    hide Safe, Retransmits, Counted, Spaced, Timely, Traced, Once, OnXmit;
    GoodEither(hash, s, w);
    TimedEither(s, w, gap, delay);
    var l := s.From(w.Other());
    var tick := s.Me(w.Other()).lastTick;
    var p := f.packet;
    assert f in l.forward;
    HonestFlight(hash, l, f);
    var r := OnXmit(hash, l.rx, p.size, p.id, p.digest, p.head, s.now);
    SpacedOnXmit(hash, l.rx, p, s.now);
    TimelyAppends(hash, l, r.0, p.id, tick, gap);
    TimelyBack(l.(rx := r.0), l.back + Post(r.1, s.now), tick, gap);
    OnceOnXmit(hash, l, f, tick, gap, delay);
    RepliesOnly(hash, l.rx, p, s.now);
    TimedReceiver(s, w, r.0, r.1, gap, delay);
  }

  lemma TimedOnData(hash: Hash, s: System, w: Who, f: Flight, gap: nat, delay: nat)
    requires Good(hash, s) && Timed(s, gap, delay) && f in s.Inbox(w) && f.packet.DATA?
    ensures Timed(Apply(hash, s, Deliver(w, f)), gap, delay)
  {
    hide Safe, Retransmits, Counted, Spaced, Timely, Traced, Once, OnData;
    GoodEither(hash, s, w);
    TimedEither(s, w, gap, delay);
    var l := s.From(w.Other());
    var tick := s.Me(w.Other()).lastTick;
    var p := f.packet;
    assert f in l.forward;
    HonestFlight(hash, l, f);
    var r := OnData(hash, l.rx, p.offset, p.id, p.fragment, s.now);
    SpacedOnData(hash, l.rx, p, s.now);
    TimelyAppends(hash, l, r.0, p.id, tick, gap);
    TimelyBack(l.(rx := r.0), l.back + Post(r.1, s.now), tick, gap);
    OnceOnData(hash, l, p, delay);
    RepliesOnly(hash, l.rx, p, s.now);
    TimedReceiver(s, w, r.0, r.1, gap, delay);
  }

  lemma TimedOnNack(hash: Hash, s: System, w: Who, f: Flight, gap: nat, delay: nat)
    requires Good(hash, s) && Timed(s, gap, delay) && f in s.Inbox(w) && f.packet.NACK? && s.now <= f.at + delay
    ensures Timed(Apply(hash, s, Deliver(w, f)), gap, delay)
  {
    hide Safe, Retransmits, GoodPeer, Timely, Traced, Once, SenderStep;
    GoodEither(hash, s, w);
    TimedEither(s, w, gap, delay);
    var l := s.From(w);
    var packets := OnNack(l.tx, f.packet.id);
    TruthfulFlight(hash, l, f);
    OnNackIsSenderStep(hash, l.tx, f.packet.id, s.now);
    TimelySenderStep(hash, l, l.tx, packets, s.Me(w).lastTick, gap);
    TracedOnNack(hash, l, f, delay);
    assert s.Me(w).(tx := l.tx) == s.Me(w);
    var forward := l.forward + Post(packets, s.now);
    assert l.(tx := l.tx, forward := forward) == l.(forward := forward);
    TimedSender(s, w, l.tx, packets, gap, delay);
  }

  lemma TimedReply(hash: Hash, s: System, w: Who, f: Flight, gap: nat, delay: nat)
    requires Good(hash, s) && Timed(s, gap, delay) && f in s.Inbox(w) && (f.packet.ACKS? || f.packet.MACK?)
    ensures Timed(Apply(hash, s, Deliver(w, f)), gap, delay)
  {
    hide Safe, Retransmits, GoodPeer, Timed;
    GoodEither(hash, s, w);
    var l := s.From(w);
    TruthfulFlight(hash, l, f);
    match f.packet
    case ACKS(id, mask) =>
      var r := OnAcks(l.tx, id, mask, s.now);
      OnAcksIsSenderStep(hash, l.tx, id, mask, s.now);
      FlushesData(hash, l.tx, id, mask, s.now);
      TimedSenderStep(hash, s, w, r.0, r.1, gap, delay);
    case MACK(ids) =>
      OnMackIsSenderStep(hash, l.tx, ids, s.now);
      TimedSenderStep(hash, s, w, OnMack(l.tx, ids), [], gap, delay);
  }

  lemma FlushesData(hash: Hash, tx: Tx, id: nat, mask: set<nat>, now: nat)
    requires TxOk(hash, tx, now) && 0 in mask
    ensures forall p | p in OnAcks(tx, id, mask, now).1 :: p.DATA?
  {
    if id in tx.msgs {
      assert OutboundOk(hash, tx.sent, id, tx.msgs[id]);
      UnackedHonest(hash, tx.sent, id, tx.msgs[id].(acks := mask));
    }
  }

  lemma PumpsData(hash: Hash, tx: Tx, now: nat)
    requires TxOk(hash, tx, now)
    ensures forall p | p in PumpTx(tx, now).1 :: p.DATA?
  {
    var order := ResendOrder(tx.msgs, TxDue(tx.msgs, now));
    ResendOrderContents(tx.msgs, TxDue(tx.msgs, now));
    forall p | p in PumpTx(tx, now).1
      ensures p.DATA?
    {
      FlushAllContents(tx.msgs, order, p);
      var id :| id in order && p in Unacked(tx.msgs[id], 0);
      UnackedHonest(hash, tx.sent, id, tx.msgs[id]);
    }
  }

  lemma GoodTx(hash: Hash, s: System, w: Who)
    requires Good(hash, s)
    ensures TxOk(hash, s.Me(w).tx, s.now)
  {
    hide GoodPeer, Retransmits;
    GoodEither(hash, s, w);
  }

  lemma TimedPump(hash: Hash, s: System, w: Who, gap: nat, delay: nat)
    requires Good(hash, s) && Timed(s, gap, delay)
    ensures Timed(Apply(hash, s, DoPump(w)), gap, delay)
  {
    hide Good, Timed, SenderStep;
    var acks := PumpRx(s.Me(w).rx, s.now);
    AcksOnly(s.Me(w).rx, s.now);
    TimedQuiet(s, w, acks.0, acks.1, gap, delay);
    GoodPumpRx(hash, s, w);
    var mid := s.Move(w, s.Me(w).(rx := acks.0), acks.1);
    GoodTx(hash, mid, w);
    PumpTxIsSenderStep(hash, mid.Me(w).tx, s.now);
    PumpsData(hash, mid.Me(w).tx, s.now);
    var resends := PumpTx(mid.Me(w).tx, s.now);
    TimedSenderStep(hash, mid, w, resends.0, resends.1, gap, delay);
  }

  lemma TimedLinkTickTx(hash: Hash, l: Link, lastTick: nat, gap: nat, delay: nat)
    requires TimedLink(l, lastTick, gap, delay)
    ensures TimedLink(l.(tx := TickTx(l.tx, l.now)), l.now, gap, delay)
  {
    TimelyTickTx(l, lastTick, gap);
    var l' := l.(tx := TickTx(l.tx, l.now));
    forall f | f in l.forward && f.packet.XMIT? && f.packet.id < |l.tx.sent|
      ensures Explained(l', f, delay)
    {
      assert Explained(l, f, delay);
    }
  }

  lemma TimedLinkTickRx(l: Link, lastTick: nat, gap: nat, delay: nat)
    requires TimedLink(l, lastTick, gap, delay)
    ensures TimedLink(l.(rx := TickRx(l.rx, l.now)), lastTick, gap, delay)
  {
    TracedQuiet(l, TickRx(l.rx, l.now), [], delay);
    assert l.back + Post([], l.now) == l.back;
  }

  lemma TimedTick(hash: Hash, s: System, w: Who, gap: nat, delay: nat)
    requires Timed(s, gap, delay)
    ensures Timed(Apply(hash, s, DoTick(w)), gap, delay)
  {
    hide TimedLink, TickTx, TickRx;
    TimedEither(s, w, gap, delay);
    var me := s.Me(w);
    MoveViews(s, w, Peer(TickTx(me.tx, s.now), TickRx(me.rx, s.now), s.now), []);
    assert Post([], s.now) == {};
    var l := s.From(w);
    assert l.forward + {} == l.forward;
    TimedLinkTickTx(hash, l, me.lastTick, gap, delay);
    var o := s.From(w.Other());
    assert o.back + {} == o.back;
    TimedLinkTickRx(o, s.Me(w.Other()).lastTick, gap, delay);
    TimedEither(Apply(hash, s, DoTick(w)), w, gap, delay);
  }

  lemma TimedLinkLater(l: Link, to: nat, lastTick: nat, gap: nat, delay: nat)
    requires TimedLink(l, lastTick, gap, delay) && l.now <= to <= lastTick + gap
    ensures TimedLink(l.(now := to), lastTick, gap, delay)
  {
    var l' := l.(now := to);
    forall f | f in l.forward && f.packet.XMIT? && f.packet.id < |l.tx.sent|
      ensures Explained(l', f, delay)
    {
      assert Explained(l, f, delay);
    }
  }

  lemma TimedAdvance(s: System, to: nat, gap: nat, delay: nat)
    requires Timed(s, gap, delay) && s.now <= to && to <= s.a.lastTick + gap && to <= s.b.lastTick + gap
    ensures Timed(s.(now := to), gap, delay)
  {
    assert s.a.lastTick <= s.now;
    hide TimedLink;
    TimedLinkLater(s.From(A), to, s.a.lastTick, gap, delay);
    TimedLinkLater(s.From(B), to, s.b.lastTick, gap, delay);
  }

  lemma TimedSend(hash: Hash, s: System, w: Who, data: seq<byte>, priority: nat, gap: nat, delay: nat)
    requires Good(hash, s) && Timed(s, gap, delay)
    ensures Timed(Apply(hash, s, Send(w, data, priority)), gap, delay)
  {
    hide Good, Timed;
    GoodTx(hash, s, w);
    var tx := s.Me(w).tx;
    var r := Submit(hash, tx, data, s.now, priority);
    SubmitIsSenderStep(hash, tx, data, s.now, priority);
    SubmitsOwn(hash, tx, data, s.now, priority);
    TimedSenderStep(hash, s, w, r.0, r.1, gap, delay);
  }

  lemma SubmitsOwn(hash: Hash, tx: Tx, data: seq<byte>, now: nat, priority: nat)
    requires TxOk(hash, tx, now)
    ensures forall p | p in Submit(hash, tx, data, now, priority).1 :: p.DATA? || (p.XMIT? && p.id >= |tx.sent|)
  {
    if |tx.msgs| < MAX_SEND_QUEUE_SIZE {
      var m := NewOutbound(hash, tx.nextId, data, now, priority);
      UnackedHonest(hash, tx.sent + [Submitted(data, now)], tx.nextId, m);
    }
  }

  lemma TimedStep(hash: Hash, s: System, step: Step, gap: nat, delay: nat)
    requires Good(hash, s) && Timed(s, gap, delay) && Quick(gap, delay)
    requires Enabled(s, step) && Prompt(s, step, gap, delay)
    ensures Timed(Apply(hash, s, step), gap, delay)
  {
    hide Good, Timed, Quick;
    match step
    case Advance(to) => TimedAdvance(s, to, gap, delay);
    case Send(who, data, priority) => TimedSend(hash, s, who, data, priority, gap, delay);
    case FlushMacks(who) =>
      MackBatching(s.Me(who).rx);
      TimedQuiet(s, who, SendMacks(s.Me(who).rx).0, SendMacks(s.Me(who).rx).1, gap, delay);
    case DoPump(who) => TimedPump(hash, s, who, gap, delay);
    case DoTick(who) => TimedTick(hash, s, who, gap, delay);
    case Deliver(who, f) =>
      match f.packet
      case XMIT(_, _, _, _) => TimedOnXmit(hash, s, who, f, gap, delay);
      case DATA(_, _, _) => TimedOnData(hash, s, who, f, gap, delay);
      case NACK(_) => TimedOnNack(hash, s, who, f, gap, delay);
      case _ => TimedReply(hash, s, who, f, gap, delay);
  }

  lemma {:induction false} TimedRun(hash: Hash, s: System, steps: seq<Step>, gap: nat, delay: nat)
    requires Good(hash, s) && Timed(s, gap, delay) && Quick(gap, delay)
    requires PromptRun(hash, s, steps, gap, delay)
    ensures Timed(Exec(hash, s, steps), gap, delay)
    decreases |steps|
  {
    hide Good, Timed, Quick;
    if steps != [] {
      GoodStep(hash, s, steps[0]);
      TimedStep(hash, s, steps[0], gap, delay);
      TimedRun(hash, Apply(hash, s, steps[0]), steps[1..], gap, delay);
    }
  }

  lemma TimedStart(gap: nat, delay: nat)
    ensures Timed(START, gap, delay)
  {
  }

  ghost predicate DeliversTwice(s: System, w: Who)
  {
    exists i, j :: 0 <= i < j < |s.Me(w).rx.delivered| && s.Me(w).rx.delivered[i].id == s.Me(w).rx.delivered[j].id
  }

  /** At most once: inside the region, no run delivers an id twice, to either peer. */
  lemma AtMostOnce(hash: Hash, steps: seq<Step>, gap: nat, delay: nat, w: Who)
    requires PromptRun(hash, START, steps, gap, delay) && Quick(gap, delay)
    ensures !DeliversTwice(Exec(hash, START, steps), w)
  {
    hide Good, Timely, Traced;
    GoodStart(hash);
    TimedStart(gap, delay);
    TimedRun(hash, START, steps, gap, delay);
  }
}
