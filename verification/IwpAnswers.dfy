/**
  What a session answers, whatever packet arrives: what it refuses, delivers and acknowledges, and what it re-sends and
  drops when.
*/
module IwpAnswers {
  import opened Bytes
  import opened IwpMessages
  import opened IwpSession
  import opened IwpLink
  import opened Ordered

  // ------------------------------------------------------------------------ one packet

  /** The receiving side on one XMIT or DATA. */
  ghost function Hear(hash: Hash, rx: Rx, p: Packet, now: nat): (Rx, seq<Packet>)
    requires p.XMIT? || p.DATA?
  {
    match p
    case XMIT(size, id, digest, head) => OnXmit(hash, rx, size, id, digest, head, now)
    case DATA(offset, id, fragment) => OnData(hash, rx, offset, id, fragment, now)
  }

  lemma {:induction false} MackedIdsIn(packets: seq<Packet>, id: nat)
    ensures id in MackedIds(packets) <==> exists p :: p in packets && p.MACK? && id in p.ids
  {
    if packets != [] {
      assert packets == [packets[0]] + packets[1..];
      MackedIdsIn(packets[1..], id);
    }
  }

  /** A MACK goes out for an id if and only if it is queued. */
  lemma MackedExactly(rx: Rx, id: nat)
    ensures (exists p :: p in SendMacks(rx).1 && p.MACK? && id in p.ids) <==> id in rx.macks
  {
    MackBatching(rx);
    var ids := MackedIds(SendMacks(rx).1);
    assert id in ids <==> id in multiset(ids);
    MackedIdsIn(SendMacks(rx).1, id);
  }

  /** A packet of a message in the replay filter is answered by a MACK and changes nothing else. */
  lemma FilteredIsMacked(hash: Hash, rx: Rx, p: Packet, now: nat)
    requires (p.XMIT? || p.DATA?) && p.id in rx.replay && p.id !in rx.msgs
    ensures
      var (rx', out) := Hear(hash, rx, p, now);
      && out == [] && rx' == rx.(macks := rx'.macks)
      && exists q :: q in SendMacks(rx').1 && q.MACK? && p.id in q.ids
  {
    MackedExactly(Hear(hash, rx, p, now).0, p.id);
  }

  ghost predicate Keyed(rx: Rx)
  {
    forall id | id in rx.msgs :: rx.msgs[id].msgId == id
  }

  predicate Knows(rx: Rx, id: nat)
  {
    id in rx.msgs || id in rx.replay
  }

  /** A fragment is refused with a NACK if and only if its message is unknown; an announcement makes it known. */
  lemma NackExactly(hash: Hash, rx: Rx, p: Packet, now: nat)
    requires p.XMIT? || p.DATA?
    ensures
      var (rx', out) := Hear(hash, rx, p, now);
      && (NACK(p.id) in out <==> p.DATA? && !Knows(rx, p.id))
      && (Knows(rx', p.id) <==> p.XMIT? || Knows(rx, p.id))
  {
  }

  /** An announcement heard again changes nothing and draws nothing. */
  lemma OpenAnnouncementIsIgnored(hash: Hash, rx: Rx, p: Packet, now: nat)
    requires p.XMIT? && p.id in rx.msgs && p.id !in rx.replay
    ensures Hear(hash, rx, p, now) == (rx, [])
  {
  }

  /** The head of an announcement counts as the first fragment if and only if it has that fragment's length. */
  lemma HeadCountsExactly(hash: Hash, rx: Rx, p: Packet, now: nat)
    requires p.XMIT? && !Knows(rx, p.id)
    ensures
      var (rx', out) := Hear(hash, rx, p, now);
      if |p.head| == Min(p.size, 1024) then p.id in rx'.msgs ==> rx'.msgs[p.id].acks == {0}
      else p.id in rx'.msgs && rx'.msgs[p.id].acks == {} && rx'.delivered == rx.delivered && out == []
  {
    HandleDataShape(NewInbound(p.id, p.size, p.digest, now), 0, p.head, now);
    assert {} + {0} == {0};
    hide Covers;
  }

  /** A fragment that fits keeps its entry open for 500 ms more; one that does not fit does not. */
  lemma StaysOpenExactly(hash: Hash, rx: Rx, offset: nat, id: nat, fragment: seq<byte>, now: nat, later: nat)
    requires Keyed(rx) && id in rx.msgs && id in OnData(hash, rx, offset, id, fragment, now).0.msgs
    ensures
      var at := if offset + |fragment| <= |rx.msgs[id].data| then now else rx.msgs[id].lastActiveAt;
      id in TickRx(OnData(hash, rx, offset, id, fragment, now).0, later).msgs <==> later <= at + 500
  {
    hide Covers;
  }

  /** A submission is refused, and its handler called at once, if and only if 16384 messages are queued. */
  lemma RefusedExactly(hash: Hash, tx: Tx, data: seq<byte>, now: nat, priority: nat)
    ensures
      var (tx', out) := Submit(hash, tx, data, now, priority);
      if |tx.msgs| >= 16384 then tx' == tx.(refused := tx.refused + 1) && out == []
      else tx'.sent == tx.sent + [Submitted(data, now)] && tx'.refused == tx.refused && out != []
  {
  }

  /** A new message is re-sent before another if and only if its priority value is lower, or the same. */
  lemma SubmittedRanks(hash: Hash, tx: Tx, data: seq<byte>, now: nat, priority: nat, other: nat)
    requires |tx.msgs| < 16384 && other in tx.msgs && other != tx.nextId
    ensures
      var msgs := Submit(hash, tx, data, now, priority).0.msgs;
      && tx.nextId in msgs && other in msgs
      && (ResendLess(msgs, other, tx.nextId) <==>
            priority < tx.msgs[other].priority || (priority == tx.msgs[other].priority && other < tx.nextId))
  {
  }

  // ------------------------------------------------------------------------- one pump

  /** A pump acknowledges exactly the open entries last acknowledged more than 250 ms ago. */
  lemma PumpAcksExactly(rx: Rx, now: nat, p: Packet)
    requires RxKeyed(rx.msgs)
    ensures p in PumpRx(rx, now).1 <==>
      p.ACKS? && p.id in rx.msgs && p.mask == rx.msgs[p.id].acks && rx.msgs[p.id].lastAckSent + 250 < now
  {
    AscendingContents(rx.msgs.Keys);
    AckPacketsContents(rx.msgs, Ascending(rx.msgs.Keys), now, p);
    if p.ACKS? && p.id in rx.msgs {
      assert rx.msgs[p.id].msgId == p.id;
    }
  }

  /** A pump re-sends exactly the missing fragments of the messages last flushed at least 400 ms ago. */
  lemma PumpResendsExactly(tx: Tx, now: nat, p: Packet)
    ensures p in PumpTx(tx, now).1 <==>
      exists id :: id in tx.msgs && tx.msgs[id].lastFlush + 400 <= now && p in Unacked(tx.msgs[id], 0)
  {
    hide Unacked;
    var due := TxDue(tx.msgs, now);
    ResendOrderContents(tx.msgs, due);
    FlushAllContents(tx.msgs, ResendOrder(tx.msgs, due), p);
  }

  /** A tick drops exactly the messages submitted more than 500 ms ago. */
  lemma TickDropsExactly(tx: Tx, now: nat, id: nat)
    requires id in tx.msgs
    ensures
      var tx' := TickTx(tx, now);
      && (id in tx'.msgs <==> now <= tx.msgs[id].startedAt + 500)
      && (id in tx'.msgs ==> tx'.msgs[id] == tx.msgs[id])
      && tx'.completions[Completion(id, Dropped)] ==
         tx.completions[Completion(id, Dropped)] + if now <= tx.msgs[id].startedAt + 500 then 0 else 1
  {
  }

  /** A tick closes exactly the entries idle for more than 500 ms, and what it closes is in the filter from then on. */
  lemma TickClosesExactly(rx: Rx, now: nat, id: nat)
    requires id in rx.msgs && id !in rx.replay
    ensures
      var rx' := TickRx(rx, now);
      && (id in rx'.msgs <==> now <= rx.msgs[id].lastActiveAt + 500)
      && (id in rx'.msgs ==> rx'.msgs[id] == rx.msgs[id])
      && (id in rx'.replay <==> id !in rx'.msgs) && (id in rx'.replay ==> rx'.replay[id] == now)
  {
  }

  // ------------------------------------------------------------- what a delivery goes with

  /** A delivery of `data` under `id` at `now`, with its acknowledgement. */
  ghost predicate Delivers(hash: Hash, rx: Rx, rx': Rx, out: seq<Packet>, id: nat, size: nat, digest: Digest, now: nat)
  {
    exists data, mask ::
      && rx'.delivered == rx.delivered + [Delivery(id, data, now)]
      && |data| == size && hash(data) == digest
      && Covers(mask, size) && out == [ACKS(id, mask)]
  }

  /**
    Whatever packet arrives, forged or not: it leads to no delivery and no acknowledgement, or to one delivery of a
    message of the announced size and digest, which was not in the filter and is now, and is acknowledged in full.
  */
  lemma HearDelivers(hash: Hash, rx: Rx, p: Packet, now: nat)
    requires (p.XMIT? || p.DATA?) && (p.id in rx.msgs ==> rx.msgs[p.id].msgId == p.id)
    ensures
      var (rx', out) := Hear(hash, rx, p, now);
      (rx'.delivered == rx.delivered && forall q | q in out :: !q.ACKS?) ||
      (&& p.id !in rx.replay && p.id !in rx'.msgs && rx'.replay == rx.replay[p.id := now]
       && (p.XMIT? || p.id in rx.msgs)
       && Delivers(hash, rx, rx', out, p.id,
            if p.XMIT? then p.size else |rx.msgs[p.id].data|,
            if p.XMIT? then p.digest else rx.msgs[p.id].digest, now))
  {
    if p.XMIT? {
      if p.id !in rx.replay && p.id !in rx.msgs {
        var m := NewInbound(p.id, p.size, p.digest, now);
        var open := rx.(msgs := rx.msgs[p.id := m], openings := rx.openings + multiset{p.id});
        HandleDataShape(m, 0, p.head, now);
        AfterFragmentDelivers(hash, open, HandleData(m, 0, p.head, now), now);
        hide AfterFragment, HandleData;
      }
    } else if p.id in rx.msgs {
      HandleDataShape(rx.msgs[p.id], p.offset, p.fragment, now);
      AfterFragmentDelivers(hash, rx, HandleData(rx.msgs[p.id], p.offset, p.fragment, now), now);
      hide AfterFragment, HandleData;
    }
  }

  lemma AfterFragmentDelivers(hash: Hash, rx: Rx, m: InboundMessage, now: nat)
    ensures
      var (rx', out) := AfterFragment(hash, rx, m, now);
      (rx'.delivered == rx.delivered && out == []) ||
      (&& m.msgId !in rx.replay && m.msgId !in rx'.msgs && rx'.replay == rx.replay[m.msgId := now]
       && Delivers(hash, rx, rx', out, m.msgId, |m.data|, m.digest, now))
  {
    hide Covers;
  }

  datatype Event = Arrive(packet: Packet, at: nat) | Age(at: nat)

  /** The receiving side alone, whatever arrives. */
  ghost function Listen(hash: Hash, rx: Rx, events: seq<Event>): Rx
    decreases |events|
  {
    if events == [] then rx else Listen(hash, Take(hash, rx, events[0]), events[1..])
  }

  ghost function Take(hash: Hash, rx: Rx, e: Event): Rx
  {
    match e
    case Age(at) => TickRx(rx, at)
    case Arrive(p, at) => if p.XMIT? || p.DATA? then Hear(hash, rx, p, at).0 else rx
  }

  /** A message of this id, size and digest was announced. */
  ghost predicate Announced(events: seq<Event>, id: nat, size: nat, digest: Digest)
  {
    exists e :: e in events && e.Arrive? && e.packet.XMIT? && e.packet.id == id && e.packet.size == size
      && e.packet.digest == digest
  }

  ghost predicate AllAnnounced(hash: Hash, events: seq<Event>, rx: Rx)
  {
    && (forall id | id in rx.msgs ::
          rx.msgs[id].msgId == id && Announced(events, id, |rx.msgs[id].data|, rx.msgs[id].digest))
    && (forall d | d in rx.delivered :: Announced(events, d.id, |d.data|, hash(d.data)))
  }

  lemma AnnouncedMore(events: seq<Event>, e: Event, id: nat, size: nat, digest: Digest)
    requires Announced(events, id, size, digest)
    ensures Announced(events + [e], id, size, digest)
  {
    var x :| x in events && x.Arrive? && x.packet.XMIT? && x.packet.id == id && x.packet.size == size
      && x.packet.digest == digest;
    assert x in events + [e];
  }

  /** An entry after a packet is one before it with the same announcement, or the one just announced. */
  lemma HearEntries(hash: Hash, rx: Rx, p: Packet, now: nat, id: nat)
    requires (p.XMIT? || p.DATA?) && id in Hear(hash, rx, p, now).0.msgs
    requires forall i | i in rx.msgs :: rx.msgs[i].msgId == i
    ensures
      var m := Hear(hash, rx, p, now).0.msgs[id];
      && m.msgId == id
      && ((id in rx.msgs && |m.data| == |rx.msgs[id].data| && m.digest == rx.msgs[id].digest)
          || (p.XMIT? && p.id == id && |m.data| == p.size && m.digest == p.digest))
  {
    hide Covers;
  }

  lemma AnnouncedTake(hash: Hash, events: seq<Event>, rx: Rx, e: Event)
    requires AllAnnounced(hash, events, rx)
    ensures AllAnnounced(hash, events + [e], Take(hash, rx, e))
  {
    hide Hear, Announced, Covers;
    var rx' := Take(hash, rx, e);
    forall id | id in rx'.msgs
      ensures rx'.msgs[id].msgId == id && Announced(events + [e], id, |rx'.msgs[id].data|, rx'.msgs[id].digest)
    {
      AnnouncedEntry(hash, events, rx, e, id);
    }
    forall d | d in rx'.delivered
      ensures Announced(events + [e], d.id, |d.data|, hash(d.data))
    {
      AnnouncedDelivery(hash, events, rx, e, d);
    }
  }

  lemma AnnouncedEntry(hash: Hash, events: seq<Event>, rx: Rx, e: Event, id: nat)
    requires AllAnnounced(hash, events, rx) && id in Take(hash, rx, e).msgs
    ensures
      var m := Take(hash, rx, e).msgs[id];
      m.msgId == id && Announced(events + [e], id, |m.data|, m.digest)
  {
    hide Hear;
    if e.Arrive? && (e.packet.XMIT? || e.packet.DATA?) {
      HearEntries(hash, rx, e.packet, e.at, id);
      assert e in events + [e];
    }
    if id in rx.msgs {
      AnnouncedMore(events, e, id, |rx.msgs[id].data|, rx.msgs[id].digest);
    }
  }

  lemma AnnouncedDelivery(hash: Hash, events: seq<Event>, rx: Rx, e: Event, d: Delivery)
    requires AllAnnounced(hash, events, rx) && d in Take(hash, rx, e).delivered
    ensures Announced(events + [e], d.id, |d.data|, hash(d.data))
  {
    hide Hear, Covers;
    if d in rx.delivered {
      AnnouncedMore(events, e, d.id, |d.data|, hash(d.data));
    } else {
      var p := e.packet;
      HearDelivers(hash, rx, p, e.at);
      assert e in events + [e];
      if p.id in rx.msgs {
        AnnouncedMore(events, e, p.id, |rx.msgs[p.id].data|, rx.msgs[p.id].digest);
      }
    }
  }

  lemma {:induction false} AnnouncedRun(hash: Hash, before: seq<Event>, rx: Rx, events: seq<Event>)
    requires AllAnnounced(hash, before, rx)
    ensures AllAnnounced(hash, before + events, Listen(hash, rx, events))
    decreases |events|
  {
    hide AllAnnounced, Take;
    if events == [] {
      assert before + events == before;
    } else {
      AnnouncedTake(hash, before, rx, events[0]);
      AnnouncedRun(hash, before + [events[0]], Take(hash, rx, events[0]), events[1..]);
      assert before + [events[0]] + events[1..] == before + events;
    }
  }

  /** Whatever arrives, forged packets included, only messages of an announced size and digest are delivered. */
  lemma OnlyAnnouncedIsDelivered(hash: Hash, events: seq<Event>, d: Delivery)
    requires d in Listen(hash, EMPTY_RX, events).delivered
    ensures Announced(events, d.id, |d.data|, hash(d.data))
  {
    hide Listen, Announced;
    AnnouncedRun(hash, [], EMPTY_RX, events);
    assert [] + events == events;
  }
}
