/**
  One direction of an IWP session: a sender, the receiver it talks to, and the packets between them.

  The network may lose, repeat, delay and reorder, so the packets in flight are kept as the set of
  everything ever sent: delivering any member at any time covers all of that. Sender and receiver
  each run the other direction of the session too; the packets of that direction share the wires and
  are foreign here.

  `Safe` is the invariant across the sender, the receiver and both wires. The lemmas show that every
  handler keeps it.
*/
module IwpLink {
  import opened Bytes
  import opened IwpMessages
  import opened IwpSession
  import opened Ordered

  datatype Flight = Flight(packet: Packet, at: nat)

  datatype Link = Link(tx: Tx, rx: Rx, forward: set<Flight>, back: set<Flight>, now: nat)

  function Post(packets: seq<Packet>, now: nat): set<Flight>
  {
    set p | p in packets :: Flight(p, now)
  }

  /** The receiver handed message `id` to the upper layer. */
  ghost predicate Delivered(rx: Rx, id: nat)
  {
    exists d :: d in rx.delivered && d.id == id
  }

  /** The receiver is done with `id`: it delivered it, or an entry for it timed out. */
  ghost predicate Settled(rx: Rx, id: nat)
  {
    Delivered(rx, id) || id in rx.expired
  }

  /** What the sender says: its packets carry the bytes submitted under their ids. */
  ghost predicate Honest(hash: Hash, sent: seq<Submitted>, p: Packet)
  {
    match p
    case XMIT(size, id, digest, head) =>
      id < |sent| && size == |sent[id].data| && digest == hash(sent[id].data)
      && head == sent[id].data[.. Min(|sent[id].data|, FRAGMENT_SIZE)]
    case DATA(offset, id, fragment) =>
      id < |sent| && offset % FRAGMENT_SIZE == 0 && 0 < offset < |sent[id].data|
      && fragment == Slice(sent[id].data, offset / FRAGMENT_SIZE)
    case _ => true
  }

  /** Fragment numbers that an eight-bit mask can hold. */
  ghost predicate FitsByte(mask: set<nat>)
  {
    forall k | k in mask :: k < 8
  }

  /** What the receiver says: a full mask or a MACK only for messages it is done with. */
  ghost predicate Truthful(sent: seq<Submitted>, rx: Rx, p: Packet)
  {
    match p
    case ACKS(id, mask) =>
      id < |sent| && 0 in mask && FitsByte(mask) && (Covers(mask, |sent[id].data|) ==> Delivered(rx, id))
    case MACK(ids) => |ids| <= MAX_ACKS_IN_MACK && forall id | id in ids :: id < |sent| && Settled(rx, id)
    case NACK(id) => id < |sent|
    case _ => true
  }

  ghost predicate OutboundOk(hash: Hash, sent: seq<Submitted>, id: nat, m: OutboundMessage)
  {
    && id < |sent| && m.msgId == id && m.data == sent[id].data && m.digest == hash(m.data)
    && m.startedAt == sent[id].at && 0 in m.acks
  }

  ghost predicate InboundOk(hash: Hash, sent: seq<Submitted>, id: nat, m: InboundMessage)
  {
    && id < |sent| && m.msgId == id && m.digest == hash(sent[id].data)
    && Faithful(m, sent[id].data) && 0 in m.acks && FitsByte(m.acks) && !Covers(m.acks, |m.data|)
  }

  ghost predicate SentOk(sent: seq<Submitted>, now: nat)
  {
    forall i | 0 <= i < |sent| :: |sent[i].data| <= MAX_LINK_MSG_SIZE && sent[i].at <= now
  }

  ghost predicate TxOk(hash: Hash, tx: Tx, now: nat)
  {
    && tx.nextId == |tx.sent| && SentOk(tx.sent, now)
    && forall id | id in tx.msgs :: OutboundOk(hash, tx.sent, id, tx.msgs[id])
  }

  ghost predicate RxOk(hash: Hash, rx: Rx, sent: seq<Submitted>)
  {
    && (forall id | id in rx.msgs :: InboundOk(hash, sent, id, rx.msgs[id]))
    && (forall id | id in rx.replay :: id !in rx.msgs && id < |sent| && Settled(rx, id))
    && (forall id | id in rx.macks :: id < |sent| && Settled(rx, id))
    && (forall d | d in rx.delivered :: d.id < |sent| && d.data == sent[d.id].data)
  }

  ghost predicate Safe(hash: Hash, l: Link)
  {
    && TxOk(hash, l.tx, l.now)
    && RxOk(hash, l.rx, l.tx.sent)
    && (forall f | f in l.forward :: Honest(hash, l.tx.sent, f.packet))
    && (forall f | f in l.back :: Truthful(l.tx.sent, l.rx, f.packet))
    && (forall c | c in l.tx.completions && c.status == Success :: Settled(l.rx, c.id))
  }

  // --------------------------------------------------------------- the sender

  lemma UnackedHonest(hash: Hash, sent: seq<Submitted>, id: nat, m: OutboundMessage)
    requires OutboundOk(hash, sent, id, m)
    ensures forall p | p in Unacked(m, 0) :: Honest(hash, sent, p) && p.DATA? && p.id == id
  {
    forall p | p in Unacked(m, 0)
      ensures Honest(hash, sent, p) && p.DATA? && p.id == id
    {
      UnackedContents(m, 0, p);
    }
  }

  lemma XmitHonest(hash: Hash, sent: seq<Submitted>, id: nat, m: OutboundMessage)
    requires OutboundOk(hash, sent, id, m)
    ensures Honest(hash, sent, Xmit(m))
  {
  }

  lemma SafeSubmit(hash: Hash, l: Link, data: seq<byte>, priority: nat)
    requires Safe(hash, l) && |data| <= MAX_LINK_MSG_SIZE
    ensures
      var (tx, packets) := Submit(hash, l.tx, data, l.now, priority);
      Safe(hash, l.(tx := tx, forward := l.forward + Post(packets, l.now)))
  {
    var (tx, packets) := Submit(hash, l.tx, data, l.now, priority);
    if |l.tx.msgs| < MAX_SEND_QUEUE_SIZE {
      var m := NewOutbound(hash, l.tx.nextId, data, l.now, priority);
      assert OutboundOk(hash, tx.sent, l.tx.nextId, m);
      UnackedHonest(hash, tx.sent, l.tx.nextId, m);
      forall id | id in tx.msgs
        ensures OutboundOk(hash, tx.sent, id, tx.msgs[id])
      {
        assert id == l.tx.nextId || OutboundOk(hash, l.tx.sent, id, l.tx.msgs[id]);
      }
      forall f | f in l.forward
        ensures Honest(hash, tx.sent, f.packet)
      {
        assert Honest(hash, l.tx.sent, f.packet);
      }
      forall f | f in l.back
        ensures Truthful(tx.sent, l.rx, f.packet)
      {
        assert Truthful(l.tx.sent, l.rx, f.packet);
      }
      forall id | id in l.rx.msgs
        ensures InboundOk(hash, tx.sent, id, l.rx.msgs[id])
      {
        assert InboundOk(hash, l.tx.sent, id, l.rx.msgs[id]);
      }
    }
  }

  lemma SafeOnAcks(hash: Hash, l: Link, id: nat, mask: set<nat>)
    requires Safe(hash, l) && Truthful(l.tx.sent, l.rx, ACKS(id, mask))
    ensures
      var (tx, packets) := OnAcks(l.tx, id, mask, l.now);
      Safe(hash, l.(tx := tx, forward := l.forward + Post(packets, l.now)))
  {
    var (tx, packets) := OnAcks(l.tx, id, mask, l.now);
    if id in l.tx.msgs {
      assert OutboundOk(hash, l.tx.sent, id, l.tx.msgs[id]);
      var m := l.tx.msgs[id].(acks := mask);
      UnackedHonest(hash, l.tx.sent, id, m);
    }
  }

  lemma SafeOnNack(hash: Hash, l: Link, id: nat)
    requires Safe(hash, l)
    ensures Safe(hash, l.(forward := l.forward + Post(OnNack(l.tx, id), l.now)))
  {
    if id in l.tx.msgs {
      XmitHonest(hash, l.tx.sent, id, l.tx.msgs[id]);
    }
  }

  lemma {:induction false} SafeOnMack(hash: Hash, l: Link, ids: seq<nat>)
    requires Safe(hash, l) && Truthful(l.tx.sent, l.rx, MACK(ids))
    ensures Safe(hash, l.(tx := OnMack(l.tx, ids)))
    decreases |ids|
  {
    if ids != [] {
      var next := l.(tx := AckOne(l.tx, ids[0]));
      assert Safe(hash, next);
      SafeOnMack(hash, next, ids[1..]);
    }
  }

  lemma SafeTickTx(hash: Hash, l: Link)
    requires Safe(hash, l)
    ensures Safe(hash, l.(tx := TickTx(l.tx, l.now)))
  {
  }

  lemma {:induction false} FlushAllContents(msgs: map<nat, OutboundMessage>, order: seq<nat>, p: Packet)
    requires forall id | id in order :: id in msgs
    ensures p in FlushAll(msgs, order) <==> exists id :: id in order && p in Unacked(msgs[id], 0)
  {
    hide Unacked;
    if order != [] {
      assert order == [order[0]] + order[1..];
      FlushAllContents(msgs, order[1..], p);
    }
  }

  lemma SafePumpTx(hash: Hash, l: Link)
    requires Safe(hash, l)
    ensures
      var (tx, packets) := PumpTx(l.tx, l.now);
      Safe(hash, l.(tx := tx, forward := l.forward + Post(packets, l.now)))
  {
    var (tx, packets) := PumpTx(l.tx, l.now);
    var order := ResendOrder(l.tx.msgs, TxDue(l.tx.msgs, l.now));
    ResendOrderContents(l.tx.msgs, TxDue(l.tx.msgs, l.now));
    forall p | p in packets
      ensures Honest(hash, l.tx.sent, p)
    {
      FlushAllContents(l.tx.msgs, order, p);
      var id :| id in order && p in Unacked(l.tx.msgs[id], 0);
      UnackedHonest(hash, l.tx.sent, id, l.tx.msgs[id]);
    }
    forall id | id in tx.msgs
      ensures OutboundOk(hash, tx.sent, id, tx.msgs[id])
    {
      assert OutboundOk(hash, l.tx.sent, id, l.tx.msgs[id]);
    }
  }

  // ------------------------------------------------------------- the receiver

  /** Deliveries and time-outs are never taken back. */
  ghost predicate Grew(rx: Rx, rx': Rx)
  {
    (forall d | d in rx.delivered :: d in rx'.delivered) && rx.expired <= rx'.expired
  }

  /** What was true to say before the receiver moved on is still true. */
  lemma SafeGrew(hash: Hash, l: Link, rx': Rx, packets: seq<Packet>)
    requires Safe(hash, l) && Grew(l.rx, rx') && RxOk(hash, rx', l.tx.sent)
    requires forall p | p in packets :: Truthful(l.tx.sent, rx', p)
    ensures Safe(hash, l.(rx := rx', back := l.back + Post(packets, l.now)))
  {
    assert forall id | Settled(l.rx, id) :: Settled(rx', id);
    forall f | f in l.back
      ensures Truthful(l.tx.sent, rx', f.packet)
    {
      assert Truthful(l.tx.sent, l.rx, f.packet);
    }
  }

  /**
    A new fragment of the original leaves the receiver either with a faithful partial entry or with a
    delivery of exactly the original.
  */
  lemma AfterFragmentOk(hash: Hash, rx: Rx, sent: seq<Submitted>, m: InboundMessage, now: nat)
    requires RxOk(hash, rx.(msgs := rx.msgs - {m.msgId}), sent) && m.msgId !in rx.replay
    requires m.msgId < |sent| && m.digest == hash(sent[m.msgId].data)
    requires Faithful(m, sent[m.msgId].data) && 0 in m.acks && FitsByte(m.acks)
    ensures
      var (rx', packets) := AfterFragment(hash, rx, m, now);
      && RxOk(hash, rx', sent) && Grew(rx, rx')
      && (forall p | p in packets :: Truthful(sent, rx', p))
      && (Covers(m.acks, |m.data|) ==> rx'.delivered == rx.delivered + [Delivery(m.msgId, sent[m.msgId].data, now)])
      && (!Covers(m.acks, |m.data|) ==> rx' == rx.(msgs := rx.msgs[m.msgId := m]) && packets == [])
  {
    var (rx', packets) := AfterFragment(hash, rx, m, now);
    if Covers(m.acks, |m.data|) {
      FaithfulAndCovered(m, sent[m.msgId].data);
      assert rx'.delivered[|rx.delivered|] == Delivery(m.msgId, m.data, now);
      assert Delivered(rx', m.msgId);
      assert rx'.msgs == rx.msgs - {m.msgId};
    } else {
      assert InboundOk(hash, sent, m.msgId, m);
    }
    assert forall id | Settled(rx, id) :: Settled(rx', id);
    forall id | id in rx'.msgs
      ensures InboundOk(hash, sent, id, rx'.msgs[id])
    {
      assert id == m.msgId || id in (rx.msgs - {m.msgId});
    }
  }

  lemma SafeOnXmit(hash: Hash, l: Link, p: Packet)
    requires Safe(hash, l) && p.XMIT? && Honest(hash, l.tx.sent, p)
    ensures
      var (rx', packets) := OnXmit(hash, l.rx, p.size, p.id, p.digest, p.head, l.now);
      Safe(hash, l.(rx := rx', back := l.back + Post(packets, l.now)))
  {
    var rx := l.rx;
    var (rx', packets) := OnXmit(hash, rx, p.size, p.id, p.digest, p.head, l.now);
    if p.id !in rx.replay && p.id !in rx.msgs {
      var m := NewInbound(p.id, p.size, p.digest, l.now);
      var open := rx.(msgs := rx.msgs[p.id := m], openings := rx.openings + multiset{p.id});
      assert p.head == Slice(l.tx.sent[p.id].data, 0);
      HandleDataKeepsFaithful(m, l.tx.sent[p.id].data, 0, l.now);
      assert open.msgs - {p.id} == rx.msgs;
      assert RxOk(hash, open.(msgs := rx.msgs), l.tx.sent);
      AfterFragmentOk(hash, open, l.tx.sent, HandleData(m, 0, p.head, l.now), l.now);
    }
    SafeGrew(hash, l, rx', packets);
  }

  lemma RxWithout(hash: Hash, rx: Rx, sent: seq<Submitted>, id: nat)
    requires RxOk(hash, rx, sent) && id in rx.msgs
    ensures InboundOk(hash, sent, id, rx.msgs[id]) && id !in rx.replay
    ensures RxOk(hash, rx.(msgs := rx.msgs - {id}), sent)
  {
    assert forall i | Settled(rx, i) :: Settled(rx.(msgs := rx.msgs - {id}), i);
  }

  /** A fragment for an open entry. */
  lemma FragmentOk(hash: Hash, rx: Rx, sent: seq<Submitted>, p: Packet, now: nat)
    requires RxOk(hash, rx, sent) && p.DATA? && Honest(hash, sent, p) && p.id in rx.msgs
    requires |sent[p.id].data| <= MAX_LINK_MSG_SIZE
    ensures
      var (rx', packets) := OnData(hash, rx, p.offset, p.id, p.fragment, now);
      RxOk(hash, rx', sent) && Grew(rx, rx') && forall q | q in packets :: Truthful(sent, rx', q)
  {
    hide HandleData, AfterFragment, RxOk;
    var m := rx.msgs[p.id];
    RxWithout(hash, rx, sent, p.id);
    HandleDataKeepsFaithful(m, sent[p.id].data, p.offset / FRAGMENT_SIZE, now);
    HandleDataShape(m, p.offset, p.fragment, now);
    AfterFragmentOk(hash, rx, sent, HandleData(m, p.offset, p.fragment, now), now);
  }

  lemma SafeOnData(hash: Hash, l: Link, p: Packet)
    requires Safe(hash, l) && p.DATA? && Honest(hash, l.tx.sent, p)
    ensures
      var (rx', packets) := OnData(hash, l.rx, p.offset, p.id, p.fragment, l.now);
      Safe(hash, l.(rx := rx', back := l.back + Post(packets, l.now)))
  {
    hide AfterFragment;
    var rx := l.rx;
    var (rx', packets) := OnData(hash, rx, p.offset, p.id, p.fragment, l.now);
    if p.id in rx.msgs {
      FragmentOk(hash, rx, l.tx.sent, p, l.now);
    }
    SafeGrew(hash, l, rx', packets);
  }

  lemma SafeTickRx(hash: Hash, l: Link)
    requires Safe(hash, l)
    ensures Safe(hash, l.(rx := TickRx(l.rx, l.now)))
  {
    var rx' := TickRx(l.rx, l.now);
    assert forall id | Settled(l.rx, id) :: Settled(rx', id);
    SafeGrew(hash, l, rx', []);
    assert l.back + Post([], l.now) == l.back;
  }

  lemma {:induction false} AckPacketsContents(msgs: map<nat, InboundMessage>, ids: seq<nat>, now: nat, p: Packet)
    requires forall id | id in ids :: id in msgs
    ensures p in AckPackets(msgs, ids, now) <==>
      exists id :: id in ids && msgs[id].lastAckSent + 250 < now && p == ACKS(msgs[id].msgId, msgs[id].acks)
  {
    if ids != [] {
      assert ids == [ids[0]] + ids[1..];
      AckPacketsContents(msgs, ids[1..], now, p);
    }
  }

  lemma SafePumpRx(hash: Hash, l: Link)
    requires Safe(hash, l)
    ensures
      var (rx', packets) := PumpRx(l.rx, l.now);
      Safe(hash, l.(rx := rx', back := l.back + Post(packets, l.now)))
  {
    var (rx', packets) := PumpRx(l.rx, l.now);
    AscendingContents(l.rx.msgs.Keys);
    forall p | p in packets
      ensures Truthful(l.tx.sent, rx', p)
    {
      AckPacketsContents(l.rx.msgs, Ascending(l.rx.msgs.Keys), l.now, p);
      var id :| id in Ascending(l.rx.msgs.Keys) && p == ACKS(l.rx.msgs[id].msgId, l.rx.msgs[id].acks);
      assert InboundOk(hash, l.tx.sent, id, l.rx.msgs[id]);
    }
    forall id | id in rx'.msgs
      ensures InboundOk(hash, l.tx.sent, id, rx'.msgs[id])
    {
      assert InboundOk(hash, l.tx.sent, id, l.rx.msgs[id]);
    }
    SafeGrew(hash, l, rx', packets);
  }

  lemma {:induction false} MackedIdsContents(packets: seq<Packet>, p: Packet, id: nat)
    requires p in packets && p.MACK? && id in p.ids
    ensures id in MackedIds(packets)
  {
    if p != packets[0] {
      MackedIdsContents(packets[1..], p, id);
    }
  }

  lemma SafeSendMacks(hash: Hash, l: Link)
    requires Safe(hash, l)
    ensures
      var (rx', packets) := SendMacks(l.rx);
      Safe(hash, l.(rx := rx', back := l.back + Post(packets, l.now)))
  {
    hide Drain, MackPackets, MackedIds, Ordered.Sorted;
    var (rx', packets) := SendMacks(l.rx);
    MackBatching(l.rx);
    forall p | p in packets
      ensures Truthful(l.tx.sent, rx', p)
    {
      forall id | id in p.ids
        ensures id < |l.tx.sent| && Settled(rx', id)
      {
        MackedIdsContents(packets, p, id);
        assert id in multiset(MackedIds(packets));
        assert id in l.rx.macks && Settled(l.rx, id);
      }
    }
    SafeGrew(hash, l, rx', packets);
  }

  // -------------------------------------------------------------- the network

  /** Packets of the other direction and the passing of time change nothing here. */
  lemma SafeForeign(hash: Hash, l: Link, forward: set<Flight>, back: set<Flight>, now: nat)
    requires Safe(hash, l) && l.now <= now
    requires forall f | f in forward :: !f.packet.XMIT? && !f.packet.DATA?
    requires forall f | f in back :: !f.packet.ACKS? && !f.packet.NACK? && !f.packet.MACK?
    ensures Safe(hash, l.(forward := l.forward + forward, back := l.back + back, now := now))
  {
  }
}
