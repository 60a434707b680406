/**
  At-most-once delivery. The replay filter keeps two deliveries of one id a full window apart,
  whatever arrives; with a bound on the sender's tick gap and on packet delay it rules out a second
  delivery altogether.
*/
module IwpTiming {
  import opened Bytes
  import opened IwpMessages
  import opened IwpSession
  import opened IwpLink

  // ------------------------------------------------- deliveries stay a window apart

  ghost predicate Guarded(rx: Rx, d: Delivery, now: nat)
  {
    && d.at <= now
    && (d.at + REPLAY_WINDOW <= now || (d.id in rx.replay && d.at <= rx.replay[d.id]))
  }

  /** Open entries and the replay filter are disjoint, and equal ids are delivered a window apart. */
  ghost predicate Spaced(rx: Rx, now: nat)
  {
    && (forall id | id in rx.msgs :: id !in rx.replay && rx.msgs[id].msgId == id)
    && (forall id | id in rx.replay :: rx.replay[id] <= now)
    && (forall i, j | 0 <= i < j < |rx.delivered| && rx.delivered[i].id == rx.delivered[j].id ::
          rx.delivered[i].at + REPLAY_WINDOW <= rx.delivered[j].at)
    && (forall d | d in rx.delivered :: Guarded(rx, d, now))
  }

  /** At most one delivery was added, of an id that the replay filter did not hold. */
  ghost predicate Appends(rx: Rx, rx': Rx, id: nat, now: nat)
  {
    || rx'.delivered == rx.delivered
    || (id !in rx.replay && exists data :: rx'.delivered == rx.delivered + [Delivery(id, data, now)])
  }

  lemma SpacedAfterFragment(hash: Hash, rx: Rx, m: InboundMessage, now: nat)
    requires Spaced(rx.(msgs := rx.msgs - {m.msgId}), now) && m.msgId !in rx.replay
    ensures
      var rx' := AfterFragment(hash, rx, m, now).0;
      Spaced(rx', now) && Appends(rx, rx', m.msgId, now)
  {
    var rx' := AfterFragment(hash, rx, m, now).0;
    assert forall id | id in rx.msgs && id != m.msgId :: id in rx.msgs - {m.msgId};
    forall d | d in rx.delivered
      ensures Guarded(rx', d, now)
    {
      assert Guarded(rx.(msgs := rx.msgs - {m.msgId}), d, now);
    }
    forall i, j | 0 <= i < j < |rx'.delivered| && rx'.delivered[i].id == rx'.delivered[j].id
      ensures rx'.delivered[i].at + REPLAY_WINDOW <= rx'.delivered[j].at
    {
      assert rx'.delivered[i] == rx.delivered[i];
      assert Guarded(rx.(msgs := rx.msgs - {m.msgId}), rx.delivered[i], now);
    }
  }

  /** Any XMIT packet, honest or not; a delivery it causes is of an id outside the replay filter. */
  lemma SpacedOnXmit(hash: Hash, rx: Rx, p: Packet, now: nat)
    requires Spaced(rx, now) && p.XMIT?
    ensures
      var rx' := OnXmit(hash, rx, p.size, p.id, p.digest, p.head, now).0;
      Spaced(rx', now) && Appends(rx, rx', p.id, now)
  {
    if p.id !in rx.replay && p.id !in rx.msgs {
      var m := NewInbound(p.id, p.size, p.digest, now);
      var open := rx.(msgs := rx.msgs[p.id := m], openings := rx.openings + multiset{p.id});
      assert open.msgs - {p.id} == rx.msgs;
      assert Spaced(open, now);
      SpacedAfterFragment(hash, open, HandleData(m, 0, p.head, now), now);
    }
  }

  lemma SpacedOnData(hash: Hash, rx: Rx, p: Packet, now: nat)
    requires Spaced(rx, now) && p.DATA?
    ensures
      var rx' := OnData(hash, rx, p.offset, p.id, p.fragment, now).0;
      Spaced(rx', now) && Appends(rx, rx', p.id, now)
  {
    if p.id in rx.msgs {
      SpacedAfterFragment(hash, rx, HandleData(rx.msgs[p.id], p.offset, p.fragment, now), now);
    }
  }

  lemma SpacedTickRx(rx: Rx, now: nat)
    requires Spaced(rx, now)
    ensures Spaced(TickRx(rx, now), now)
  {
    var rx' := TickRx(rx, now);
    forall d | d in rx.delivered
      ensures Guarded(rx', d, now)
    {
      assert Guarded(rx, d, now);
    }
  }

  lemma SpacedQuiet(rx: Rx, now: nat, later: nat)
    requires Spaced(rx, now) && now <= later
    ensures Spaced(rx, later) && Spaced(PumpRx(rx, now).0, now) && Spaced(SendMacks(rx).0, now)
  {
    forall d | d in rx.delivered
      ensures Guarded(rx, d, later) && Guarded(PumpRx(rx, now).0, d, now) && Guarded(SendMacks(rx).0, d, now)
    {
      assert Guarded(rx, d, now);
    }
  }

  // ------------------------------------------------------ with bounded gap and delay

  /** The sender ticked at `lastTick`, at most `gap` ago. */
  ghost predicate Timely(l: Link, lastTick: nat, gap: nat)
  {
    && lastTick <= l.now <= lastTick + gap
    && (forall id | id in l.tx.msgs :: lastTick <= l.tx.msgs[id].startedAt + DELIVERY_TIMEOUT)
    && (forall f | f in l.forward && (f.packet.XMIT? || f.packet.DATA?) && f.packet.id < |l.tx.sent| ::
          f.at <= l.tx.sent[f.packet.id].at + DELIVERY_TIMEOUT + gap)
    && (forall d | d in l.rx.delivered && d.id < |l.tx.sent| :: l.tx.sent[d.id].at <= d.at)
  }

  ghost predicate Once(rx: Rx)
  {
    forall i, j | 0 <= i < j < |rx.delivered| :: rx.delivered[i].id != rx.delivered[j].id
  }

  /** What any sender step keeps: new packets are about queued messages, queued messages keep their start. */
  ghost predicate SenderStep(hash: Hash, tx: Tx, tx': Tx, packets: seq<Packet>, now: nat)
  {
    && tx.sent <= tx'.sent
    && (forall i | |tx.sent| <= i < |tx'.sent| :: tx'.sent[i].at == now)
    && (forall id | id in tx'.msgs ::
          (id in tx.msgs && tx'.msgs[id].startedAt == tx.msgs[id].startedAt) || tx'.msgs[id].startedAt == now)
    && (forall p | p in packets :: (p.XMIT? || p.DATA?) && (p.id in tx.msgs || (|tx.sent| <= p.id < |tx'.sent|)))
  }

  lemma TimelySenderStep(hash: Hash, l: Link, tx': Tx, packets: seq<Packet>, lastTick: nat, gap: nat)
    requires Safe(hash, l) && Timely(l, lastTick, gap) && SenderStep(hash, l.tx, tx', packets, l.now)
    ensures Timely(l.(tx := tx', forward := l.forward + Post(packets, l.now)), lastTick, gap)
  {
    var l' := l.(tx := tx', forward := l.forward + Post(packets, l.now));
    forall f | f in l'.forward && (f.packet.XMIT? || f.packet.DATA?) && f.packet.id < |tx'.sent|
      ensures f.at <= tx'.sent[f.packet.id].at + DELIVERY_TIMEOUT + gap
    {
      if f in l.forward {
        assert Honest(hash, l.tx.sent, f.packet);
      } else if f.packet.id in l.tx.msgs {
        assert OutboundOk(hash, l.tx.sent, f.packet.id, l.tx.msgs[f.packet.id]);
      }
    }
  }

  lemma SubmitIsSenderStep(hash: Hash, tx: Tx, data: seq<byte>, now: nat, priority: nat)
    requires TxOk(hash, tx, now)
    ensures var r := Submit(hash, tx, data, now, priority); SenderStep(hash, tx, r.0, r.1, now)
  {
    var r := Submit(hash, tx, data, now, priority);
    if |tx.msgs| < MAX_SEND_QUEUE_SIZE {
      UnackedHonest(hash, r.0.sent, tx.nextId, NewOutbound(hash, tx.nextId, data, now, priority));
    }
  }

  lemma OnAcksIsSenderStep(hash: Hash, tx: Tx, id: nat, mask: set<nat>, now: nat)
    requires TxOk(hash, tx, now) && 0 in mask
    ensures var r := OnAcks(tx, id, mask, now); SenderStep(hash, tx, r.0, r.1, now)
  {
    if id in tx.msgs {
      assert OutboundOk(hash, tx.sent, id, tx.msgs[id]);
      UnackedHonest(hash, tx.sent, id, tx.msgs[id].(acks := mask));
    }
  }

  lemma OnNackIsSenderStep(hash: Hash, tx: Tx, id: nat, now: nat)
    requires TxOk(hash, tx, now)
    ensures SenderStep(hash, tx, tx, OnNack(tx, id), now)
  {
    assert id in tx.msgs ==> OutboundOk(hash, tx.sent, id, tx.msgs[id]);
  }

  lemma {:induction false} OnMackIsSenderStep(hash: Hash, tx: Tx, ids: seq<nat>, now: nat)
    ensures SenderStep(hash, tx, OnMack(tx, ids), [], now)
    decreases |ids|
  {
    if ids != [] {
      OnMackIsSenderStep(hash, AckOne(tx, ids[0]), ids[1..], now);
    }
  }

  lemma PumpTxIsSenderStep(hash: Hash, tx: Tx, now: nat)
    requires TxOk(hash, tx, now)
    ensures var r := PumpTx(tx, now); SenderStep(hash, tx, r.0, r.1, now)
  {
    var order := ResendOrder(tx.msgs, TxDue(tx.msgs, now));
    ResendOrderContents(tx.msgs, TxDue(tx.msgs, now));
    forall p | p in PumpTx(tx, now).1
      ensures p.DATA? && p.id in tx.msgs
    {
      FlushAllContents(tx.msgs, order, p);
      var id :| id in order && p in Unacked(tx.msgs[id], 0);
      UnackedHonest(hash, tx.sent, id, tx.msgs[id]);
    }
  }

  lemma TimelyTickTx(l: Link, lastTick: nat, gap: nat)
    requires Timely(l, lastTick, gap)
    ensures Timely(l.(tx := TickTx(l.tx, l.now)), l.now, gap)
  {
  }

  // -------------------------------------------------------- where an XMIT comes from

  /** A repeated XMIT answers a NACK that was at most `delay` old. */
  ghost predicate Explained(l: Link, f: Flight, delay: nat)
    requires f.packet.XMIT? && f.packet.id < |l.tx.sent|
  {
    || f.at == l.tx.sent[f.packet.id].at
    || exists g :: g in l.back && g.packet == NACK(f.packet.id) && g.at <= f.at <= g.at + delay
  }

  /** NACKs fall before a delivery or a window after it; what is open has not been delivered. */
  ghost predicate Traced(l: Link, delay: nat)
  {
    && (forall f | f in l.back :: f.at <= l.now)
    && (forall f | f in l.forward && f.packet.XMIT? && f.packet.id < |l.tx.sent| :: Explained(l, f, delay))
    && (forall g, d | g in l.back && d in l.rx.delivered && g.packet == NACK(d.id) ::
          g.at <= d.at || d.at + REPLAY_WINDOW <= g.at)
    && (forall d | d in l.rx.delivered :: d.id !in l.rx.msgs)
  }

  /** Gap and delay for which no run delivers twice. */
  predicate Quick(gap: nat, delay: nat)
  {
    gap == 0 || gap + delay < 700 || (gap < 700 && delay < 600)
  }

  lemma TracedSenderStep(hash: Hash, l: Link, tx': Tx, packets: seq<Packet>, delay: nat)
    requires Safe(hash, l) && Traced(l, delay) && SenderStep(hash, l.tx, tx', packets, l.now)
    requires forall p | p in packets && p.XMIT? :: p.id >= |l.tx.sent|
    ensures Traced(l.(tx := tx', forward := l.forward + Post(packets, l.now)), delay)
  {
    var l' := l.(tx := tx', forward := l.forward + Post(packets, l.now));
    forall f | f in l'.forward && f.packet.XMIT? && f.packet.id < |tx'.sent|
      ensures Explained(l', f, delay)
    {
      if f in l.forward {
        assert Honest(hash, l.tx.sent, f.packet);
        assert Explained(l, f, delay);
      }
    }
  }

  lemma TracedOnNack(hash: Hash, l: Link, g: Flight, delay: nat)
    requires Safe(hash, l) && Traced(l, delay) && g in l.back && g.packet.NACK? && l.now <= g.at + delay
    ensures Traced(l.(forward := l.forward + Post(OnNack(l.tx, g.packet.id), l.now)), delay)
  {
    var l' := l.(forward := l.forward + Post(OnNack(l.tx, g.packet.id), l.now));
    forall f | f in l'.forward && f.packet.XMIT? && f.packet.id < |l.tx.sent|
      ensures Explained(l', f, delay)
    {
      if f in l.forward {
        assert Explained(l, f, delay);
      } else {
        assert OutboundOk(hash, l.tx.sent, g.packet.id, l.tx.msgs[g.packet.id]);
      }
    }
  }

  /** Receiver steps that deliver nothing, open nothing and send no NACK. */
  lemma TracedQuiet(l: Link, rx': Rx, packets: seq<Packet>, delay: nat)
    requires Traced(l, delay) && rx'.delivered == l.rx.delivered && rx'.msgs.Keys <= l.rx.msgs.Keys
    requires forall p | p in packets :: !p.NACK?
    ensures Traced(l.(rx := rx', back := l.back + Post(packets, l.now)), delay)
  {
    var l' := l.(rx := rx', back := l.back + Post(packets, l.now));
    forall f | f in l.forward && f.packet.XMIT? && f.packet.id < |l.tx.sent|
      ensures Explained(l', f, delay)
    {
      assert Explained(l, f, delay);
    }
  }

  /** The heart of it: an XMIT that finds its id neither open nor filtered is for a message never delivered. */
  lemma OpensOnlyFresh(hash: Hash, l: Link, f: Flight, lastTick: nat, gap: nat, delay: nat)
    requires Safe(hash, l) && Spaced(l.rx, l.now) && Timely(l, lastTick, gap) && Traced(l, delay)
    requires Quick(gap, delay) && (gap == 0 ==> l.now == 0)
    requires f in l.forward && f.packet.XMIT? && l.now <= f.at + delay && f.packet.id !in l.rx.replay
    ensures forall d | d in l.rx.delivered :: d.id != f.packet.id
  {
    assert Honest(hash, l.tx.sent, f.packet);
    assert Explained(l, f, delay);
    forall d | d in l.rx.delivered
      ensures d.id != f.packet.id
    {
      assert Guarded(l.rx, d, l.now);
    }
  }

  /** The receiver takes a fragment of a message it never delivered. */
  lemma TracedAfterFragment(hash: Hash, l: Link, rx: Rx, m: InboundMessage, delay: nat)
    requires Traced(l, delay) && Once(l.rx) && rx.delivered == l.rx.delivered
    requires forall id | id in rx.msgs :: id in l.rx.msgs || id == m.msgId
    requires forall d | d in l.rx.delivered :: d.id != m.msgId
    ensures
      var (rx', packets) := AfterFragment(hash, rx, m, l.now);
      Once(rx') && Traced(l.(rx := rx', back := l.back + Post(packets, l.now)), delay)
  {
    var (rx', packets) := AfterFragment(hash, rx, m, l.now);
    var l' := l.(rx := rx', back := l.back + Post(packets, l.now));
    forall f | f in l.forward && f.packet.XMIT? && f.packet.id < |l.tx.sent|
      ensures Explained(l', f, delay)
    {
      assert Explained(l, f, delay);
    }
  }

  lemma OnceOnXmit(hash: Hash, l: Link, f: Flight, lastTick: nat, gap: nat, delay: nat)
    requires Safe(hash, l) && Spaced(l.rx, l.now) && Timely(l, lastTick, gap) && Traced(l, delay) && Once(l.rx)
    requires Quick(gap, delay) && (gap == 0 ==> l.now == 0)
    requires f in l.forward && f.packet.XMIT? && l.now <= f.at + delay
    ensures
      var p := f.packet;
      var (rx', packets) := OnXmit(hash, l.rx, p.size, p.id, p.digest, p.head, l.now);
      Once(rx') && Traced(l.(rx := rx', back := l.back + Post(packets, l.now)), delay)
  {
    var p := f.packet;
    var (rx', packets) := OnXmit(hash, l.rx, p.size, p.id, p.digest, p.head, l.now);
    if p.id !in l.rx.replay && p.id !in l.rx.msgs {
      OpensOnlyFresh(hash, l, f, lastTick, gap, delay);
      assert Honest(hash, l.tx.sent, p);
      var m := NewInbound(p.id, p.size, p.digest, l.now);
      var open := l.rx.(msgs := l.rx.msgs[p.id := m], openings := l.rx.openings + multiset{p.id});
      TracedAfterFragment(hash, l, open, HandleData(m, 0, p.head, l.now), delay);
    } else {
      TracedQuiet(l, rx', packets, delay);
    }
  }

  lemma OnceOnData(hash: Hash, l: Link, p: Packet, delay: nat)
    requires Spaced(l.rx, l.now) && Traced(l, delay) && Once(l.rx) && p.DATA?
    ensures
      var (rx', packets) := OnData(hash, l.rx, p.offset, p.id, p.fragment, l.now);
      Once(rx') && Traced(l.(rx := rx', back := l.back + Post(packets, l.now)), delay)
  {
    var (rx', packets) := OnData(hash, l.rx, p.offset, p.id, p.fragment, l.now);
    if p.id in l.rx.msgs {
      TracedAfterFragment(hash, l, l.rx, HandleData(l.rx.msgs[p.id], p.offset, p.fragment, l.now), delay);
    } else if p.id in l.rx.replay {
      TracedQuiet(l, rx', packets, delay);
    } else {
      NackIsTraced(l, p.id, delay);
    }
  }

  lemma NackIsTraced(l: Link, id: nat, delay: nat)
    requires Spaced(l.rx, l.now) && Traced(l, delay) && id !in l.rx.replay
    ensures Traced(l.(back := l.back + Post([NACK(id)], l.now)), delay)
  {
    var l' := l.(back := l.back + Post([NACK(id)], l.now));
    forall f | f in l.forward && f.packet.XMIT? && f.packet.id < |l.tx.sent|
      ensures Explained(l', f, delay)
    {
      assert Explained(l, f, delay);
    }
    forall g, d | g in l'.back && d in l.rx.delivered && g.packet == NACK(d.id)
      ensures g.at <= d.at || d.at + REPLAY_WINDOW <= g.at
    {
      assert Guarded(l.rx, d, l.now);
    }
  }

  /** Deliveries happen after submission. */
  lemma TimelyAppends(hash: Hash, l: Link, rx': Rx, id: nat, lastTick: nat, gap: nat)
    requires Safe(hash, l) && Timely(l, lastTick, gap) && id < |l.tx.sent| && Appends(l.rx, rx', id, l.now)
    ensures Timely(l.(rx := rx'), lastTick, gap)
  {
  }
}
