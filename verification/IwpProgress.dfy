/**
  Retransmission. While the receiver holds its first entry for a message, the sender never believes
  a fragment arrived that did not, so one loss-free flush completes the message. A message that fits
  one fragment is different: it is transmitted exactly once, so losing that packet loses it.
*/
module IwpProgress {
  import opened Bytes
  import opened IwpMessages
  import opened IwpSession
  import opened IwpLink
  import opened Ordered

  /** `id` has been opened exactly once and that entry is still there. */
  ghost predicate FirstEntry(rx: Rx, id: nat)
  {
    id in rx.msgs && rx.openings[id] == 1
  }

  ghost predicate MaskBehind(rx: Rx, id: nat, mask: set<nat>)
  {
    FirstEntry(rx, id) ==> mask <= rx.msgs[id].acks
  }

  /** What the sender knows, and what it may still be told, lags behind the receiver's first entry. */
  ghost predicate Behind(l: Link)
  {
    && (forall id | id in l.rx.openings :: id < |l.tx.sent|)
    && (forall id | id in l.rx.msgs || id in l.rx.replay :: id in l.rx.openings)
    && (forall id | id in l.tx.msgs && id !in l.rx.openings :: l.tx.msgs[id].acks == {0})
    && (forall id | id in l.tx.msgs :: MaskBehind(l.rx, id, l.tx.msgs[id].acks))
    && (forall f | f in l.back && f.packet.ACKS? ::
          f.packet.id in l.rx.openings && MaskBehind(l.rx, f.packet.id, f.packet.mask))
  }

  /** Only messages of several fragments are asked for again, and only those are transmitted again. */
  ghost predicate SingleShot(l: Link)
  {
    && (forall f | f in l.back && f.packet.NACK? ::
          f.packet.id < |l.tx.sent| && |l.tx.sent[f.packet.id].data| > FRAGMENT_SIZE)
    && (forall f | f in l.forward && f.packet.XMIT? && f.packet.id < |l.tx.sent| ::
          |l.tx.sent[f.packet.id].data| <= FRAGMENT_SIZE ==> f.at == l.tx.sent[f.packet.id].at)
  }

  ghost predicate Retransmits(l: Link)
  {
    Behind(l) && SingleShot(l)
  }

  // --------------------------------------------------------------- the sender

  lemma BehindSubmit(hash: Hash, l: Link, data: seq<byte>, priority: nat)
    requires Safe(hash, l) && Behind(l)
    ensures Behind(l.(tx := Submit(hash, l.tx, data, l.now, priority).0))
  {
    hide Unacked, Slice, Xmit, MaskBehind;
    var tx := Submit(hash, l.tx, data, l.now, priority).0;
    if |l.tx.msgs| < MAX_SEND_QUEUE_SIZE {
      assert l.tx.nextId !in l.rx.openings;
      NoEntryNoMask(l.rx, l.tx.nextId, tx.msgs[l.tx.nextId].acks);
    }
  }

  lemma NoEntryNoMask(rx: Rx, id: nat, mask: set<nat>)
    requires id !in rx.openings
    ensures MaskBehind(rx, id, mask)
  {
  }

  lemma SingleShotSubmit(hash: Hash, l: Link, data: seq<byte>, priority: nat)
    requires Safe(hash, l) && SingleShot(l)
    ensures
      var (tx, packets) := Submit(hash, l.tx, data, l.now, priority);
      SingleShot(l.(tx := tx, forward := l.forward + Post(packets, l.now)))
  {
    hide Unacked, Slice;
    var (tx, packets) := Submit(hash, l.tx, data, l.now, priority);
    if |l.tx.msgs| < MAX_SEND_QUEUE_SIZE {
      UnackedHonest(hash, tx.sent, l.tx.nextId, NewOutbound(hash, l.tx.nextId, data, l.now, priority));
      forall f | f in l.forward && f.packet.XMIT?
        ensures f.packet.id < |l.tx.sent|
      {
        assert Honest(hash, l.tx.sent, f.packet);
      }
    }
  }

  lemma RetransmitsSubmit(hash: Hash, l: Link, data: seq<byte>, priority: nat)
    requires Safe(hash, l) && Retransmits(l)
    ensures
      var (tx, packets) := Submit(hash, l.tx, data, l.now, priority);
      Retransmits(l.(tx := tx, forward := l.forward + Post(packets, l.now)))
  {
    hide Submit, SingleShot, Safe;
    BehindSubmit(hash, l, data, priority);
    SingleShotSubmit(hash, l, data, priority);
  }

  lemma RetransmitsOnAcks(hash: Hash, l: Link, f: Flight)
    requires Safe(hash, l) && Retransmits(l) && f in l.back && f.packet.ACKS?
    ensures
      var (tx, packets) := OnAcks(l.tx, f.packet.id, f.packet.mask, l.now);
      Retransmits(l.(tx := tx, forward := l.forward + Post(packets, l.now)))
  {
    var id := f.packet.id;
    assert Truthful(l.tx.sent, l.rx, f.packet);
    if id in l.tx.msgs {
      assert OutboundOk(hash, l.tx.sent, id, l.tx.msgs[id]);
      UnackedHonest(hash, l.tx.sent, id, l.tx.msgs[id].(acks := f.packet.mask));
    }
  }

  lemma RetransmitsOnNack(hash: Hash, l: Link, f: Flight)
    requires Safe(hash, l) && Retransmits(l) && f in l.back && f.packet.NACK?
    ensures Retransmits(l.(forward := l.forward + Post(OnNack(l.tx, f.packet.id), l.now)))
  {
    var id := f.packet.id;
    assert id in l.tx.msgs ==> OutboundOk(hash, l.tx.sent, id, l.tx.msgs[id]);
  }

  /** Messages only leave the sender's queue. */
  lemma RetransmitsRemoval(l: Link, tx': Tx)
    requires Retransmits(l) && tx'.sent == l.tx.sent
    requires forall id | id in tx'.msgs :: id in l.tx.msgs && tx'.msgs[id].acks == l.tx.msgs[id].acks
    ensures Retransmits(l.(tx := tx'))
  {
  }

  lemma {:induction false} OnMackRemoves(tx: Tx, ids: seq<nat>)
    ensures OnMack(tx, ids).sent == tx.sent
    ensures forall id | id in OnMack(tx, ids).msgs :: id in tx.msgs && OnMack(tx, ids).msgs[id] == tx.msgs[id]
    decreases |ids|
  {
    if ids != [] {
      OnMackRemoves(AckOne(tx, ids[0]), ids[1..]);
    }
  }

  lemma RetransmitsPumpTx(hash: Hash, l: Link)
    requires Safe(hash, l) && Retransmits(l)
    ensures
      var (tx, packets) := PumpTx(l.tx, l.now);
      Retransmits(l.(tx := tx, forward := l.forward + Post(packets, l.now)))
  {
    var (tx, packets) := PumpTx(l.tx, l.now);
    RetransmitsRemoval(l, tx);
    var order := ResendOrder(l.tx.msgs, TxDue(l.tx.msgs, l.now));
    ResendOrderContents(l.tx.msgs, TxDue(l.tx.msgs, l.now));
    forall p | p in packets
      ensures p.DATA?
    {
      FlushAllContents(l.tx.msgs, order, p);
      var id :| id in order && p in Unacked(l.tx.msgs[id], 0);
      UnackedHonest(hash, l.tx.sent, id, l.tx.msgs[id]);
    }
  }

  // ------------------------------------------------------------- the receiver

  /** A first entry either was one already and lost nothing, or is new and holds the first fragment. */
  ghost predicate Advances(rx: Rx, rx': Rx)
  {
    && rx.openings <= rx'.openings
    && (forall id | FirstEntry(rx', id) ::
          || (FirstEntry(rx, id) && rx.msgs[id].acks <= rx'.msgs[id].acks)
          || (id !in rx.openings && 0 in rx'.msgs[id].acks))
  }

  lemma RetransmitsReceive(l: Link, rx': Rx, packets: seq<Packet>)
    requires Retransmits(l) && Advances(l.rx, rx')
    requires forall id | id in rx'.openings :: id < |l.tx.sent|
    requires forall id | id in rx'.msgs || id in rx'.replay :: id in rx'.openings
    requires forall p | p in packets && p.ACKS? :: p.id in rx'.openings && MaskBehind(rx', p.id, p.mask)
    requires forall p | p in packets && p.NACK? :: p.id < |l.tx.sent| && |l.tx.sent[p.id].data| > FRAGMENT_SIZE
    ensures Retransmits(l.(rx := rx', back := l.back + Post(packets, l.now)))
  {
    var l' := l.(rx := rx', back := l.back + Post(packets, l.now));
    forall id | id in l.tx.msgs
      ensures MaskBehind(rx', id, l.tx.msgs[id].acks)
    {
      assert MaskBehind(l.rx, id, l.tx.msgs[id].acks);
    }
    forall f | f in l'.back && f.packet.ACKS?
      ensures f.packet.id in rx'.openings && MaskBehind(rx', f.packet.id, f.packet.mask)
    {
      if f in l.back {
        assert MaskBehind(l.rx, f.packet.id, f.packet.mask);
      }
    }
  }

  /** What storing a fragment leaves of the entry, and what it can send. */
  lemma AfterFragmentShape(hash: Hash, rx: Rx, m: InboundMessage, now: nat)
    ensures
      var (rx', packets) := AfterFragment(hash, rx, m, now);
      && rx'.openings == rx.openings
      && (forall id | id in rx'.msgs ::
            (id == m.msgId && rx'.msgs[id] == m) || (id in rx.msgs && rx'.msgs[id] == rx.msgs[id]))
      && (forall id | id in rx'.replay :: id in rx.replay || id == m.msgId)
      && (forall p | p in packets :: p == ACKS(m.msgId, m.acks) && m.msgId !in rx'.msgs)
  {
  }

  lemma RetransmitsOnXmit(hash: Hash, l: Link, p: Packet)
    requires Safe(hash, l) && Retransmits(l) && p.XMIT? && Honest(hash, l.tx.sent, p)
    ensures
      var (rx', packets) := OnXmit(hash, l.rx, p.size, p.id, p.digest, p.head, l.now);
      Retransmits(l.(rx := rx', back := l.back + Post(packets, l.now)))
  {
    var (rx', packets) := OnXmit(hash, l.rx, p.size, p.id, p.digest, p.head, l.now);
    if p.id !in l.rx.replay && p.id !in l.rx.msgs {
      var m := NewInbound(p.id, p.size, p.digest, l.now);
      var open := l.rx.(msgs := l.rx.msgs[p.id := m], openings := l.rx.openings + multiset{p.id});
      AfterFragmentShape(hash, open, HandleData(m, 0, p.head, l.now), l.now);
    }
    RetransmitsReceive(l, rx', packets);
  }

  lemma RetransmitsOnData(hash: Hash, l: Link, p: Packet)
    requires Safe(hash, l) && Retransmits(l) && p.DATA? && Honest(hash, l.tx.sent, p)
    ensures
      var (rx', packets) := OnData(hash, l.rx, p.offset, p.id, p.fragment, l.now);
      Retransmits(l.(rx := rx', back := l.back + Post(packets, l.now)))
  {
    var (rx', packets) := OnData(hash, l.rx, p.offset, p.id, p.fragment, l.now);
    if p.id in l.rx.msgs {
      assert InboundOk(hash, l.tx.sent, p.id, l.rx.msgs[p.id]);
      AfterFragmentShape(hash, l.rx, HandleData(l.rx.msgs[p.id], p.offset, p.fragment, l.now), l.now);
    }
    RetransmitsReceive(l, rx', packets);
  }

  lemma RetransmitsPumpRx(hash: Hash, l: Link)
    requires Safe(hash, l) && Retransmits(l)
    ensures
      var (rx', packets) := PumpRx(l.rx, l.now);
      Retransmits(l.(rx := rx', back := l.back + Post(packets, l.now)))
  {
    var (rx', packets) := PumpRx(l.rx, l.now);
    AscendingContents(l.rx.msgs.Keys);
    forall p | p in packets
      ensures p.ACKS? && p.id in l.rx.msgs && p.mask == l.rx.msgs[p.id].acks
    {
      AckPacketsContents(l.rx.msgs, Ascending(l.rx.msgs.Keys), l.now, p);
      var id :| id in Ascending(l.rx.msgs.Keys) && p == ACKS(l.rx.msgs[id].msgId, l.rx.msgs[id].acks);
      assert InboundOk(hash, l.tx.sent, id, l.rx.msgs[id]);
    }
    RetransmitsReceive(l, rx', packets);
  }

  lemma RetransmitsSendMacks(l: Link)
    requires Retransmits(l)
    ensures
      var (rx', packets) := SendMacks(l.rx);
      Retransmits(l.(rx := rx', back := l.back + Post(packets, l.now)))
  {
    MackBatching(l.rx);
    RetransmitsReceive(l, SendMacks(l.rx).0, SendMacks(l.rx).1);
  }

  lemma RetransmitsTickRx(l: Link)
    requires Retransmits(l)
    ensures Retransmits(l.(rx := TickRx(l.rx, l.now)))
  {
    RetransmitsReceive(l, TickRx(l.rx, l.now), []);
    assert l.back + Post([], l.now) == l.back;
  }

  // ------------------------------------------------------------------ progress

  /** The receiver handles a run of DATA packets. */
  ghost function RunData(hash: Hash, rx: Rx, round: seq<Packet>, now: nat): Rx
    requires forall p | p in round :: p.DATA?
    decreases |round|
  {
    if round == [] then rx
    else RunData(hash, OnData(hash, rx, round[0].offset, round[0].id, round[0].fragment, now).0, round[1..], now)
  }

  ghost predicate FragmentsOf(sent: seq<Submitted>, id: nat, round: seq<Packet>)
  {
    forall p | p in round :: p.DATA? && p.id == id && id < |sent|
      && p.offset % FRAGMENT_SIZE == 0 && 0 < p.offset < |sent[id].data|
      && p.fragment == Slice(sent[id].data, p.offset / FRAGMENT_SIZE)
  }

  /** Once delivered, further fragments only queue a MACK. */
  lemma {:induction false} RunDataAfterDelivery(hash: Hash, rx: Rx, sent: seq<Submitted>, id: nat,
        round: seq<Packet>, now: nat)
    requires FragmentsOf(sent, id, round) && id in rx.replay && id !in rx.msgs
    ensures RunData(hash, rx, round, now).delivered == rx.delivered
    decreases |round|
  {
    if round != [] {
      var next := OnData(hash, rx, round[0].offset, round[0].id, round[0].fragment, now).0;
      RunDataAfterDelivery(hash, next, sent, id, round[1..], now);
    }
  }

  /** One fragment of an open entry: it is stored, and the message is delivered if it was the last one missing. */
  lemma OneFragment(hash: Hash, rx: Rx, sent: seq<Submitted>, id: nat, p: Packet, now: nat)
    requires RxOk(hash, rx, sent) && id in rx.msgs && FragmentsOf(sent, id, [p])
    requires id < |sent| && |sent[id].data| <= MAX_LINK_MSG_SIZE
    ensures
      var m := rx.msgs[id];
      var acks := m.acks + {p.offset / FRAGMENT_SIZE};
      var next := OnData(hash, rx, p.offset, p.id, p.fragment, now).0;
      if Covers(acks, |m.data|) then
        && next.delivered == rx.delivered + [Delivery(id, sent[id].data, now)]
        && id in next.replay && id !in next.msgs
      else
        && next.delivered == rx.delivered && RxOk(hash, next, sent)
        && id in next.msgs && next.msgs[id].acks == acks && |next.msgs[id].data| == |m.data|
  {
    hide HandleData, FragmentsOf, RxOk;
    assert p in [p];
    var m := rx.msgs[id];
    assert InboundOk(hash, sent, id, m) && m.msgId !in rx.replay && RxOk(hash, rx.(msgs := rx.msgs - {id}), sent) by {
      RxWithout(hash, rx, sent, id);
    }
    FragmentIs(sent, id, p);
    HandleDataKeepsFaithful(m, sent[id].data, p.offset / FRAGMENT_SIZE, now);
    var m' := HandleData(m, p.offset, p.fragment, now);
    HandleDataShape(m, p.offset, p.fragment, now);
    AfterFragmentOk(hash, rx, sent, m', now);
    if Covers(m'.acks, |m'.data|) {
      FaithfulAndCovered(m', sent[id].data);
    }
  }

  lemma FragmentIs(sent: seq<Submitted>, id: nat, p: Packet)
    requires FragmentsOf(sent, id, [p])
    ensures
      && p.DATA? && p.id == id && id < |sent| && 0 < p.offset < |sent[id].data|
      && p.offset == p.offset / FRAGMENT_SIZE * FRAGMENT_SIZE
      && p.fragment == Slice(sent[id].data, p.offset / FRAGMENT_SIZE)
  {
    assert p in [p];
  }

  /** The round holds every fragment that the entry lacks. */
  ghost predicate BringsMissing(rx: Rx, sent: seq<Submitted>, id: nat, round: seq<Packet>)
    requires id in rx.msgs && id < |sent|
  {
    forall k: nat | k * FRAGMENT_SIZE < |sent[id].data| && k !in rx.msgs[id].acks ::
      DATA(k * FRAGMENT_SIZE, id, Slice(sent[id].data, k)) in round
  }

  lemma SomethingMissing(rx: Rx, sent: seq<Submitted>, id: nat, round: seq<Packet>)
    requires id in rx.msgs && id < |sent| && BringsMissing(rx, sent, id, round)
    requires !Covers(rx.msgs[id].acks, |sent[id].data|)
    ensures round != []
  {
    var k: nat :| k * FRAGMENT_SIZE < |sent[id].data| && k !in rx.msgs[id].acks;
    assert DATA(k * FRAGMENT_SIZE, id, Slice(sent[id].data, k)) in round;
  }

  /** Fragments in any order and with any repetition complete an entry as soon as none is missing. */
  lemma {:induction false} RoundCompletes(hash: Hash, rx: Rx, sent: seq<Submitted>, id: nat, round: seq<Packet>,
        now: nat)
    requires RxOk(hash, rx, sent) && id in rx.msgs && FragmentsOf(sent, id, round)
    requires id < |sent| && |sent[id].data| <= MAX_LINK_MSG_SIZE && BringsMissing(rx, sent, id, round)
    ensures RunData(hash, rx, round, now).delivered == rx.delivered + [Delivery(id, sent[id].data, now)]
    decreases |round|
  {
    hide RxOk, OnData, InboundOk, Covers;
    assert |rx.msgs[id].data| == |sent[id].data| && !Covers(rx.msgs[id].acks, |sent[id].data|) by {
      RxWithout(hash, rx, sent, id);
      EntryNotCovered(hash, sent, id, rx.msgs[id]);
    }
    SomethingMissing(rx, sent, id, round);
    var p := round[0];
    var next := OnData(hash, rx, p.offset, p.id, p.fragment, now).0;
    OneFragment(hash, rx, sent, id, p, now);
    if Covers(rx.msgs[id].acks + {p.offset / FRAGMENT_SIZE}, |sent[id].data|) {
      RunDataAfterDelivery(hash, next, sent, id, round[1..], now);
    } else {
      forall k: nat | k * FRAGMENT_SIZE < |sent[id].data| && k !in next.msgs[id].acks
        ensures DATA(k * FRAGMENT_SIZE, id, Slice(sent[id].data, k)) in round[1..]
      {
        assert DATA(k * FRAGMENT_SIZE, id, Slice(sent[id].data, k)) in round;
        assert k != p.offset / FRAGMENT_SIZE;
      }
      RoundCompletes(hash, next, sent, id, round[1..], now);
    }
  }

  lemma EntryNotCovered(hash: Hash, sent: seq<Submitted>, id: nat, m: InboundMessage)
    requires InboundOk(hash, sent, id, m)
    ensures !Covers(m.acks, |m.data|) && |m.data| == |sent[id].data|
  {
  }

  lemma FlushHasMissing(hash: Hash, l: Link, id: nat)
    requires Safe(hash, l) && id in l.tx.msgs
    ensures FragmentsOf(l.tx.sent, id, Unacked(l.tx.msgs[id], 0))
    ensures id < |l.tx.sent| && forall k: nat | k * FRAGMENT_SIZE < |l.tx.sent[id].data| && k !in l.tx.msgs[id].acks ::
      DATA(k * FRAGMENT_SIZE, id, Slice(l.tx.sent[id].data, k)) in Unacked(l.tx.msgs[id], 0)
  {
    var m := l.tx.msgs[id];
    assert OutboundOk(hash, l.tx.sent, id, m);
    UnackedHonest(hash, l.tx.sent, id, m);
    forall k: nat | k * FRAGMENT_SIZE < |m.data| && k !in m.acks
      ensures DATA(k * FRAGMENT_SIZE, id, Slice(m.data, k)) in Unacked(m, 0)
    {
      UnackedContents(m, 0, DATA(k * FRAGMENT_SIZE, id, Slice(m.data, k)));
    }
  }

  /**
    Progress: while the receiver holds its first entry, if every packet of one flush arrives, in any
    order and with any repetition, then the message is delivered, once and unchanged.
  */
  lemma FlushCompletes(hash: Hash, l: Link, id: nat, round: seq<Packet>)
    requires Safe(hash, l) && Behind(l) && id in l.tx.msgs && FirstEntry(l.rx, id)
    requires FragmentsOf(l.tx.sent, id, round)
    requires forall p | p in Unacked(l.tx.msgs[id], 0) :: p in round
    ensures RunData(hash, l.rx, round, l.now).delivered == l.rx.delivered + [Delivery(id, l.tx.sent[id].data, l.now)]
  {
    assert MaskBehind(l.rx, id, l.tx.msgs[id].acks);
    assert InboundOk(hash, l.tx.sent, id, l.rx.msgs[id]);
    FlushHasMissing(hash, l, id);
    RoundCompletes(hash, l.rx, l.tx.sent, id, round, l.now);
  }

  /** The flush of a message whose XMIT was lost draws a NACK for each fragment. */
  lemma LostFlushDrawsNacks(hash: Hash, l: Link, id: nat)
    requires Safe(hash, l) && Behind(l) && id in l.tx.msgs && id !in l.rx.openings
    requires |l.tx.msgs[id].data| > FRAGMENT_SIZE
    ensures
      var flush := Unacked(l.tx.msgs[id], 0);
      && flush != []
      && (forall p | p in flush ::
            p.DATA? && OnData(hash, l.rx, p.offset, p.id, p.fragment, l.now) == (l.rx, [NACK(id)]))
  {
    hide Unacked;
    var m := l.tx.msgs[id];
    assert OutboundOk(hash, l.tx.sent, id, m);
    FlushHasMissing(hash, l, id);
    assert 1 * FRAGMENT_SIZE < |l.tx.sent[id].data| && 1 !in m.acks;
  }

  /** The XMIT sent again opens an entry that lacks everything but the first fragment. */
  lemma ResentXmitOpens(hash: Hash, l: Link, id: nat)
    requires Safe(hash, l) && Behind(l) && id in l.tx.msgs && id !in l.rx.openings
    requires |l.tx.msgs[id].data| > FRAGMENT_SIZE
    ensures
      var xmit := Xmit(l.tx.msgs[id]);
      var (rx', _) := OnXmit(hash, l.rx, xmit.size, xmit.id, xmit.digest, xmit.head, l.now);
      && RxOk(hash, rx', l.tx.sent) && id in rx'.msgs && rx'.msgs[id].acks == {0} && rx'.delivered == l.rx.delivered
  {
    var m := l.tx.msgs[id];
    assert OutboundOk(hash, l.tx.sent, id, m);
    var xmit := Xmit(m);
    SafeOnXmit(hash, l, xmit);
    HeadAlone({} + {0}, |m.data|);
    HandleDataShape(NewInbound(id, |m.data|, m.digest, l.now), 0, xmit.head, l.now);
    assert HandleData(NewInbound(id, |m.data|, m.digest, l.now), 0, xmit.head, l.now).acks == {} + {0};
    hide HandleData, Covers;
  }

  lemma HeadAlone(acks: set<nat>, size: nat)
    requires 1 !in acks && size > FRAGMENT_SIZE
    ensures !Covers(acks, size)
  {
    assert 1 * FRAGMENT_SIZE < size;
  }

  /**
    A lost XMIT of a message of several fragments is repaired by the next flush: its DATA draws a
    NACK, the NACK draws the XMIT again, and after that the same flush completes the message.
  */
  lemma LostXmitIsRepaired(hash: Hash, l: Link, id: nat)
    requires Safe(hash, l) && Behind(l) && id in l.tx.msgs && id !in l.rx.openings
    requires |l.tx.msgs[id].data| > FRAGMENT_SIZE
    ensures
      var flush := Unacked(l.tx.msgs[id], 0);
      var xmit := Xmit(l.tx.msgs[id]);
      && flush != []
      && (forall p | p in flush ::
            p.DATA? && OnData(hash, l.rx, p.offset, p.id, p.fragment, l.now) == (l.rx, [NACK(id)]))
      && OnNack(l.tx, id) == [xmit]
      && (var (rx', _) := OnXmit(hash, l.rx, xmit.size, xmit.id, xmit.digest, xmit.head, l.now);
          RunData(hash, rx', flush, l.now).delivered == l.rx.delivered + [Delivery(id, l.tx.sent[id].data, l.now)])
  {
    hide OnXmit, OnData, Unacked;
    var m, xmit := l.tx.msgs[id], Xmit(l.tx.msgs[id]);
    assert OutboundOk(hash, l.tx.sent, id, m);
    LostFlushDrawsNacks(hash, l, id);
    ResentXmitOpens(hash, l, id);
    FlushHasMissing(hash, l, id);
    var rx' := OnXmit(hash, l.rx, xmit.size, xmit.id, xmit.digest, xmit.head, l.now).0;
    RoundCompletes(hash, rx', l.tx.sent, id, Unacked(m, 0), l.now);
  }

  /**
    A message of at most one fragment is put on the wire exactly at submission, as XMIT, and never
    again: whatever the receiver says, no other packet of it ever exists.
  */
  lemma SmallMessagesAreNeverResent(hash: Hash, l: Link, f: Flight)
    requires Safe(hash, l) && SingleShot(l) && f in l.forward && (f.packet.XMIT? || f.packet.DATA?)
    ensures f.packet.id < |l.tx.sent|
    ensures
      var s := l.tx.sent[f.packet.id];
      |s.data| <= FRAGMENT_SIZE ==> f == Flight(XMIT(|s.data|, f.packet.id, hash(s.data), s.data), s.at)
  {
    assert Honest(hash, l.tx.sent, f.packet);
    var s := l.tx.sent[f.packet.id];
    if |s.data| <= FRAGMENT_SIZE {
      assert s.data[..Min(|s.data|, FRAGMENT_SIZE)] == s.data;
    }
  }
}
