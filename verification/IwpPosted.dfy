/** What every run keeps about the packets on their way: fragments and acknowledgements are sent, and in time. */
module IwpPosted {
  import opened Bytes
  import opened IwpMessages
  import opened IwpSession
  import opened IwpLink
  import opened IwpProgress
  import opened IwpRuns
  import opened IwpAnswers

  // ----------------------------------------------------------------- fragments on the wire

  /** The missing fragments of every queued message were sent when it was last flushed. */
  ghost predicate FragmentsPosted(tx: Tx, out: set<Flight>)
  {
    forall id, p | id in tx.msgs && p in Unacked(tx.msgs[id], 0) :: Flight(p, tx.msgs[id].lastFlush) in out
  }

  /** A queued message of several fragments still has one missing. */
  ghost predicate Unfinished(tx: Tx)
  {
    forall id | id in tx.msgs && |tx.msgs[id].data| > FRAGMENT_SIZE :: !Covers(tx.msgs[id].acks, |tx.msgs[id].data|)
  }

  ghost predicate SenderPosted(tx: Tx, out: set<Flight>)
  {
    FragmentsPosted(tx, out) && Unfinished(tx)
  }

  /** The fragments of a flush do not depend on when the last one was. */
  lemma SameFragments(m: OutboundMessage, now: nat, p: Packet)
    ensures p in Unacked(m.(lastFlush := now), 0) <==> p in Unacked(m, 0)
  {
    UnackedContents(m, 0, p);
    UnackedContents(m.(lastFlush := now), 0, p);
  }

  lemma PostedSubmit(hash: Hash, tx: Tx, out: set<Flight>, data: seq<byte>, now: nat, priority: nat)
    requires SenderPosted(tx, out)
    ensures var (tx', packets) := Submit(hash, tx, data, now, priority); SenderPosted(tx', out + Post(packets, now))
  {
    hide Unacked;
    var (tx', packets) := Submit(hash, tx, data, now, priority);
    if |tx.msgs| < MAX_SEND_QUEUE_SIZE {
      var m := NewOutbound(hash, tx.nextId, data, now, priority);
      forall p | p in Unacked(m, 0)
        ensures p in packets
      {
        UnackedContents(m, 0, p);
      }
      if |data| > FRAGMENT_SIZE {
        HeadAlone({0}, |data|);
      }
    }
  }

  lemma PostedOnAcks(tx: Tx, out: set<Flight>, id: nat, mask: set<nat>, now: nat)
    requires SenderPosted(tx, out)
    ensures var (tx', packets) := OnAcks(tx, id, mask, now); SenderPosted(tx', out + Post(packets, now))
  {
    hide Unacked, Covers;
    var (tx', packets) := OnAcks(tx, id, mask, now);
    if id in tx'.msgs {
      forall p | p in Unacked(tx'.msgs[id], 0)
        ensures p in packets
      {
        SameFragments(tx.msgs[id].(acks := mask), now, p);
      }
    }
  }

  lemma PostedRemoval(tx: Tx, tx': Tx, out: set<Flight>, more: set<Flight>)
    requires SenderPosted(tx, out) && forall id | id in tx'.msgs :: id in tx.msgs && tx'.msgs[id] == tx.msgs[id]
    ensures SenderPosted(tx', out + more)
  {
    hide Unacked, Covers;
  }

  lemma PostedPumpTx(tx: Tx, out: set<Flight>, now: nat)
    requires SenderPosted(tx, out)
    ensures var (tx', packets) := PumpTx(tx, now); SenderPosted(tx', out + Post(packets, now))
  {
    hide Unacked, Covers;
    var (tx', packets) := PumpTx(tx, now);
    forall id, p | id in tx'.msgs && p in Unacked(tx'.msgs[id], 0)
      ensures Flight(p, tx'.msgs[id].lastFlush) in out + Post(packets, now)
    {
      if ShouldFlush(tx.msgs[id], now) {
        SameFragments(tx.msgs[id], now, p);
        PumpResendsExactly(tx, now, p);
      }
    }
  }

  // ------------------------------------------------------------ acknowledgements on the wire

  /** The entry's fragments of some earlier time were acknowledged then. */
  ghost predicate AckPosted(m: InboundMessage, out: set<Flight>)
  {
    exists mask :: mask <= m.acks && Flight(ACKS(m.msgId, mask), m.lastAckSent) in out
  }

  /** Every open entry that was ever acknowledged was so when it says. */
  ghost predicate AcksPosted(rx: Rx, out: set<Flight>)
  {
    forall id | id in rx.msgs && rx.msgs[id].lastAckSent > 0 :: AckPosted(rx.msgs[id], out)
  }

  lemma AckPostedMore(m: InboundMessage, m': InboundMessage, out: set<Flight>, out': set<Flight>)
    requires AckPosted(m, out) && out <= out'
    requires m'.msgId == m.msgId && m'.lastAckSent == m.lastAckSent && m.acks <= m'.acks
    ensures AckPosted(m', out')
  {
  }

  /** Entries stay, grow or are new. */
  lemma AcksPostedMore(rx: Rx, rx': Rx, out: set<Flight>, out': set<Flight>)
    requires AcksPosted(rx, out) && out <= out'
    requires forall id | id in rx'.msgs && rx'.msgs[id].lastAckSent > 0 ::
      && id in rx.msgs && rx'.msgs[id].msgId == rx.msgs[id].msgId
      && rx'.msgs[id].lastAckSent == rx.msgs[id].lastAckSent && rx.msgs[id].acks <= rx'.msgs[id].acks
    ensures AcksPosted(rx', out')
  {
    hide AckPosted;
    forall id | id in rx'.msgs && rx'.msgs[id].lastAckSent > 0
      ensures AckPosted(rx'.msgs[id], out')
    {
      AckPostedMore(rx.msgs[id], rx'.msgs[id], out, out');
    }
  }

  lemma HearGrows(hash: Hash, rx: Rx, p: Packet, now: nat, id: nat)
    requires (p.XMIT? || p.DATA?) && RxKeyed(rx.msgs)
    requires id in Hear(hash, rx, p, now).0.msgs && Hear(hash, rx, p, now).0.msgs[id].lastAckSent > 0
    ensures
      var m := Hear(hash, rx, p, now).0.msgs[id];
      && id in rx.msgs && m.msgId == rx.msgs[id].msgId
      && m.lastAckSent == rx.msgs[id].lastAckSent && rx.msgs[id].acks <= m.acks
  {
    hide Covers;
  }

  lemma PostedHear(hash: Hash, rx: Rx, out: set<Flight>, p: Packet, now: nat)
    requires (p.XMIT? || p.DATA?) && RxKeyed(rx.msgs) && AcksPosted(rx, out)
    ensures var (rx', packets) := Hear(hash, rx, p, now); AcksPosted(rx', out + Post(packets, now))
  {
    hide Hear, AcksPosted;
    var (rx', packets) := Hear(hash, rx, p, now);
    forall id | id in rx'.msgs && rx'.msgs[id].lastAckSent > 0
      ensures
        && id in rx.msgs && rx'.msgs[id].msgId == rx.msgs[id].msgId
        && rx'.msgs[id].lastAckSent == rx.msgs[id].lastAckSent && rx.msgs[id].acks <= rx'.msgs[id].acks
    {
      HearGrows(hash, rx, p, now, id);
    }
    AcksPostedMore(rx, rx', out, out + Post(packets, now));
  }

  lemma PostedPumpRx(rx: Rx, out: set<Flight>, now: nat)
    requires RxKeyed(rx.msgs) && AcksPosted(rx, out)
    ensures var (rx', packets) := PumpRx(rx, now); AcksPosted(rx', out + Post(packets, now))
  {
    var (rx', packets) := PumpRx(rx, now);
    forall id | id in rx'.msgs && rx'.msgs[id].lastAckSent > 0
      ensures AckPosted(rx'.msgs[id], out + Post(packets, now))
    {
      if ShouldSendAcks(rx.msgs[id], now) {
        PumpAcksExactly(rx, now, ACKS(id, rx.msgs[id].acks));
        assert Flight(ACKS(id, rx.msgs[id].acks), now) in out + Post(packets, now);
      } else {
        AckPostedMore(rx.msgs[id], rx'.msgs[id], out, out + Post(packets, now));
      }
    }
  }

  // -------------------------------------------------------------------------- every run

  /** What `w` has to have sent is on its way to the other. */
  ghost predicate Posted(s: System, w: Who)
  {
    SenderPosted(s.Me(w).tx, s.Inbox(w.Other())) && AcksPosted(s.Me(w).rx, s.Inbox(w.Other()))
  }

  lemma GoodIsKeyed(hash: Hash, s: System, w: Who)
    requires Good(hash, s)
    ensures RxKeyed(s.Me(w).rx.msgs)
  {
    GoodEither(hash, s, w.Other());
    assert RxOk(hash, s.Me(w).rx, s.Me(w.Other()).tx.sent);
    forall id | id in s.Me(w).rx.msgs
      ensures s.Me(w).rx.msgs[id].msgId == id && HasBits(s.Me(w).rx.msgs[id].acks)
    {
      assert InboundOk(hash, s.Me(w.Other()).tx.sent, id, s.Me(w).rx.msgs[id]);
    }
  }

  /** Peer `w` moves to `p` and sends `packets`. */
  lemma PostedMove(s: System, w: Who, p: Peer, packets: seq<Packet>)
    requires SenderPosted(p.tx, s.Inbox(w.Other()) + Post(packets, s.now))
    requires AcksPosted(p.rx, s.Inbox(w.Other()) + Post(packets, s.now))
    ensures Posted(s.Move(w, p, packets), w)
  {
    hide SenderPosted, AcksPosted;
  }

  lemma PostedSenderMoves(s: System, w: Who, tx': Tx, packets: seq<Packet>)
    requires Posted(s, w) && SenderPosted(tx', s.Inbox(w.Other()) + Post(packets, s.now))
    ensures Posted(s.Move(w, s.Me(w).(tx := tx'), packets), w)
  {
    var out := s.Inbox(w.Other());
    AcksPostedMore(s.Me(w).rx, s.Me(w).rx, out, out + Post(packets, s.now));
    PostedMove(s, w, s.Me(w).(tx := tx'), packets);
  }

  lemma PostedReceiverMoves(s: System, w: Who, rx': Rx, packets: seq<Packet>)
    requires Posted(s, w) && AcksPosted(rx', s.Inbox(w.Other()) + Post(packets, s.now))
    ensures Posted(s.Move(w, s.Me(w).(rx := rx'), packets), w)
  {
    PostedRemoval(s.Me(w).tx, s.Me(w).tx, s.Inbox(w.Other()), Post(packets, s.now));
    hide SenderPosted, AcksPosted;
    PostedMove(s, w, s.Me(w).(rx := rx'), packets);
  }

  lemma DeliverIsHear(hash: Hash, s: System, w: Who, f: Flight)
    requires f.packet.XMIT? || f.packet.DATA?
    ensures
      var r := Hear(hash, s.Me(w).rx, f.packet, s.now);
      Apply(hash, s, Deliver(w, f)) == s.Move(w, s.Me(w).(rx := r.0), r.1)
  {
    hide OnXmit, OnData;
  }

  lemma PostedReceive(hash: Hash, s: System, w: Who, f: Flight)
    requires Good(hash, s) && Posted(s, w) && (f.packet.XMIT? || f.packet.DATA?)
    ensures Posted(Apply(hash, s, Deliver(w, f)), w)
  {
    hide SenderPosted, AcksPosted, Good, RxKeyed, Hear, Apply;
    GoodIsKeyed(hash, s, w);
    var r := Hear(hash, s.Me(w).rx, f.packet, s.now);
    PostedHear(hash, s.Me(w).rx, s.Inbox(w.Other()), f.packet, s.now);
    PostedReceiverMoves(s, w, r.0, r.1);
    DeliverIsHear(hash, s, w, f);
  }

  lemma PostedHandle(hash: Hash, s: System, w: Who, f: Flight)
    requires Good(hash, s) && Posted(s, w)
    ensures Posted(Apply(hash, s, Deliver(w, f)), w)
  {
    hide SenderPosted, AcksPosted, Good;
    var tx, out := s.Me(w).tx, s.Inbox(w.Other());
    match f.packet
    case XMIT(_, _, _, _) => PostedReceive(hash, s, w, f);
    case DATA(_, _, _) => PostedReceive(hash, s, w, f);
    case ACKS(id, mask) =>
      hide OnAcks;
      PostedOnAcks(tx, out, id, mask, s.now);
      hide Posted;
      PostedSenderMoves(s, w, OnAcks(tx, id, mask, s.now).0, OnAcks(tx, id, mask, s.now).1);
    case NACK(id) =>
      hide OnNack;
      PostedRemoval(tx, tx, out, Post(OnNack(tx, id), s.now));
      hide Posted;
      PostedSenderMoves(s, w, tx, OnNack(tx, id));
      assert s.Me(w).(tx := tx) == s.Me(w);
    case MACK(ids) =>
      OnMackRemoves(tx, ids);
      hide OnMack;
      PostedRemoval(tx, OnMack(tx, ids), out, Post([], s.now));
      hide Posted;
      PostedSenderMoves(s, w, OnMack(tx, ids), []);
  }

  lemma PostedPumpAcks(s: System, w: Who)
    requires Posted(s, w) && RxKeyed(s.Me(w).rx.msgs)
    ensures var r := PumpRx(s.Me(w).rx, s.now); Posted(s.Move(w, s.Me(w).(rx := r.0), r.1), w)
  {
    hide SenderPosted, AcksPosted, RxKeyed, PumpRx;
    var r := PumpRx(s.Me(w).rx, s.now);
    PostedPumpRx(s.Me(w).rx, s.Inbox(w.Other()), s.now);
    PostedReceiverMoves(s, w, r.0, r.1);
  }

  lemma PostedPumpResends(s: System, w: Who)
    requires Posted(s, w)
    ensures var r := PumpTx(s.Me(w).tx, s.now); Posted(s.Move(w, s.Me(w).(tx := r.0), r.1), w)
  {
    hide SenderPosted, AcksPosted, PumpTx;
    var r := PumpTx(s.Me(w).tx, s.now);
    PostedPumpTx(s.Me(w).tx, s.Inbox(w.Other()), s.now);
    PostedSenderMoves(s, w, r.0, r.1);
  }

  lemma PostedPump(hash: Hash, s: System, w: Who)
    requires Good(hash, s) && Posted(s, w)
    ensures Posted(Apply(hash, s, DoPump(w)), w)
  {
    hide Posted, Good, RxKeyed, PumpRx, PumpTx;
    GoodIsKeyed(hash, s, w);
    PostedPumpAcks(s, w);
    var acks := PumpRx(s.Me(w).rx, s.now);
    PostedPumpResends(s.Move(w, s.Me(w).(rx := acks.0), acks.1), w);
  }

  lemma PostedTick(hash: Hash, s: System, w: Who)
    requires Posted(s, w)
    ensures Posted(Apply(hash, s, DoTick(w)), w)
  {
    var tx, rx, out := s.Me(w).tx, s.Me(w).rx, s.Inbox(w.Other());
    TickTxRemoves(tx, s.now);
    PostedRemoval(tx, TickTx(tx, s.now), out, Post([], s.now));
    AcksPostedMore(rx, TickRx(rx, s.now), out, out + Post([], s.now));
    hide SenderPosted, AcksPosted, TickTx, TickRx;
  }

  lemma PostedSend(hash: Hash, s: System, w: Who, data: seq<byte>, priority: nat)
    requires Posted(s, w)
    ensures Posted(Apply(hash, s, Send(w, data, priority)), w)
  {
    hide SenderPosted, AcksPosted, Submit;
    var tx, rx, out := s.Me(w).tx, s.Me(w).rx, s.Inbox(w.Other());
    PostedSubmit(hash, tx, out, data, s.now, priority);
    AcksPostedMore(rx, rx, out, out + Post(Submit(hash, tx, data, s.now, priority).1, s.now));
  }

  lemma PostedFlushMacks(hash: Hash, s: System, w: Who)
    requires Posted(s, w)
    ensures Posted(Apply(hash, s, FlushMacks(w)), w)
  {
    hide SenderPosted, AcksPosted;
    var tx, rx, out := s.Me(w).tx, s.Me(w).rx, s.Inbox(w.Other());
    var r := SendMacks(rx);
    PostedRemoval(tx, tx, out, Post(r.1, s.now));
    AcksPostedMore(rx, r.0, out, out + Post(r.1, s.now));
  }

  lemma PostedOther(hash: Hash, s: System, step: Step, w: Who)
    requires Posted(s, w) && (step.Advance? || step.who == w.Other())
    ensures Posted(Apply(hash, s, step), w)
  {
    hide SenderPosted, AcksPosted, Handle, Submit, SendMacks, PumpRx, PumpTx, TickTx, TickRx;
  }

  lemma PostedStep(hash: Hash, s: System, step: Step, w: Who)
    requires Good(hash, s) && Posted(s, w)
    ensures Posted(Apply(hash, s, step), w)
  {
    hide Good, Posted, Apply;
    if step.Advance? || step.who == w.Other() {
      PostedOther(hash, s, step, w);
    } else {
      match step
      case Send(_, data, priority) => PostedSend(hash, s, w, data, priority);
      case Deliver(_, f) => PostedHandle(hash, s, w, f);
      case FlushMacks(_) => PostedFlushMacks(hash, s, w);
      case DoPump(_) => PostedPump(hash, s, w);
      case DoTick(_) => PostedTick(hash, s, w);
    }
  }

  lemma {:induction false} PostedRun(hash: Hash, s: System, steps: seq<Step>, w: Who)
    requires Good(hash, s) && Posted(s, w) && Legal(hash, s, steps)
    ensures Posted(Exec(hash, s, steps), w)
    decreases |steps|
  {
    hide Good, Posted, Apply, Enabled;
    if steps != [] {
      GoodStep(hash, s, steps[0]);
      PostedStep(hash, s, steps[0], w);
      PostedRun(hash, Apply(hash, s, steps[0]), steps[1..], w);
    }
  }

  lemma ReachableIsPosted(hash: Hash, s: System, w: Who)
    requires Reachable(hash, s)
    ensures Good(hash, s) && Posted(s, w)
  {
    hide Good, Exec, Legal;
    ReachableIsGood(hash, s);
    GoodStart(hash);
    var steps :| Legal(hash, START, steps) && s == Exec(hash, START, steps);
    assert Posted(START, w);
    PostedRun(hash, START, steps, w);
  }

  /**
    In every reachable state, right after a pump: once the first 250 ms are over, every open entry was acknowledged
    at most 250 ms ago; and every missing fragment of a queued message was sent less than 400 ms ago.
  */
  lemma PumpKeepsUp(hash: Hash, s: System, w: Who)
    requires Reachable(hash, s)
    ensures
      var s' := Apply(hash, s, DoPump(w));
      var me, out := s'.Me(w), s'.Inbox(w.Other());
      && (forall id | id in me.rx.msgs && s.now > 250 ::
            s.now <= me.rx.msgs[id].lastAckSent + 250 && AckPosted(me.rx.msgs[id], out))
      && (forall id | id in me.tx.msgs :: s.now < me.tx.msgs[id].lastFlush + 400)
      && (forall id, p | id in me.tx.msgs && p in Unacked(me.tx.msgs[id], 0) ::
            Flight(p, me.tx.msgs[id].lastFlush) in out)
  {
    hide Good, Unacked, AckPosted, Covers;
    ReachableIsPosted(hash, s, w);
    PostedPump(hash, s, w);
  }
}
