/**
  A message that arrives is reported to its sender: at once when nothing is lost, and otherwise after the next pump,
  even if the first acknowledgement is lost.
*/
module IwpReports {
  import opened Bytes
  import opened IwpMessages
  import opened IwpSession
  import opened IwpLink
  import opened IwpProgress
  import opened IwpAccounting
  import opened IwpRuns
  import opened IwpAnswers
  import opened IwpPosted

  // ------------------------------------------------------ deliveries are reported

  lemma {:induction false} OnMackReports(tx: Tx, ids: seq<nat>, id: nat)
    ensures
      var tx' := OnMack(tx, ids);
      && tx.completions[Completion(id, Success)] <= tx'.completions[Completion(id, Success)]
      && (id in ids && id in tx.msgs ==> id !in tx'.msgs && Completion(id, Success) in tx'.completions)
    decreases |ids|
  {
    if ids != [] {
      OnMackReports(AckOne(tx, ids[0]), ids[1..], id);
      if id == ids[0] && id in tx.msgs {
        OnMackRemoves(AckOne(tx, id), ids[1..]);
      }
    }
  }

  /** A MACK that lists a queued message completes it with success, its one handler call. */
  lemma MackCompletes(tx: Tx, ids: seq<nat>, id: nat)
    requires Counted(tx) && id in tx.msgs && id in ids
    ensures
      var tx' := OnMack(tx, ids);
      && id !in tx'.msgs && tx'.completions[Completion(id, Success)] == 1
      && tx'.completions[Completion(id, Dropped)] == 0
  {
    assert id < tx.nextId;
    OnMackReports(tx, ids, id);
    CountedOnMack(tx, ids);
    OnMackRemoves(tx, ids);
    var tx' := OnMack(tx, ids);
    hide OnMack;
    assert |tx'.sent| == tx'.nextId;
    assert Calls(tx', id) == 1;
  }

  /** When the peer has heard `f` and sends its MACKs, one of them lists its message, and each that does reports it. */
  ghost predicate Reports(hash: Hash, s: System, w: Who, f: Flight)
    requires f.packet.XMIT? || f.packet.DATA?
  {
    var id := f.packet.id;
    var s' := Apply(hash, Apply(hash, s, Deliver(w.Other(), f)), FlushMacks(w.Other()));
    && (exists g :: g in s'.Inbox(w) && g.at == s.now && g.packet.MACK? && id in g.packet.ids)
    && (forall g | g in s'.Inbox(w) && g.packet.MACK? && id in g.packet.ids ::
          var tx := Apply(hash, s', Deliver(w, g)).Me(w).tx;
          && id !in tx.msgs && tx.completions[Completion(id, Success)] == 1
          && tx.completions[Completion(id, Dropped)] == 0)
  }

  /** The peer answers for a message it has in its filter. */
  lemma MackIsSent(hash: Hash, s: System, w: Who, f: Flight)
    requires (f.packet.XMIT? || f.packet.DATA?) && f.packet.id in s.Me(w).rx.replay && f.packet.id !in s.Me(w).rx.msgs
    ensures
      var s' := Apply(hash, Apply(hash, s, Deliver(w, f)), FlushMacks(w));
      && s'.Me(w.Other()) == s.Me(w.Other())
      && exists g :: g in s'.Inbox(w.Other()) && g.at == s.now && g.packet.MACK? && f.packet.id in g.packet.ids
  {
    hide OnXmit, OnData, SendMacks;
    FilteredIsMacked(hash, s.Me(w).rx, f.packet, s.now);
    var rx' := Hear(hash, s.Me(w).rx, f.packet, s.now).0;
    var q :| q in SendMacks(rx').1 && q.MACK? && f.packet.id in q.ids;
    var s' := Apply(hash, Apply(hash, s, Deliver(w, f)), FlushMacks(w));
    assert Flight(q, s.now) in s'.Inbox(w.Other());
  }

  /** What a good system says about a queued message. */
  lemma GoodFacts(hash: Hash, s: System, w: Who, id: nat)
    requires Good(hash, s) && id in s.Me(w).tx.msgs
    ensures Counted(s.Me(w).tx) && OutboundOk(hash, s.Me(w).tx.sent, id, s.Me(w).tx.msgs[id])
    ensures id in s.Me(w.Other()).rx.replay ==> id !in s.Me(w.Other()).rx.msgs
  {
    GoodEither(hash, s, w);
    assert RxOk(hash, s.Me(w.Other()).rx, s.Me(w).tx.sent);
  }

  lemma ResentReports(hash: Hash, s: System, w: Who, f: Flight)
    requires Good(hash, s) && (f.packet.XMIT? || f.packet.DATA?)
    requires f.packet.id in s.Me(w).tx.msgs && f.packet.id in s.Me(w.Other()).rx.replay
    ensures Reports(hash, s, w, f)
  {
    hide Good, Counted, Apply, OutboundOk;
    var id := f.packet.id;
    GoodFacts(hash, s, w, id);
    MackIsSent(hash, s, w.Other(), f);
    var s' := Apply(hash, Apply(hash, s, Deliver(w.Other(), f)), FlushMacks(w.Other()));
    forall g | g in s'.Inbox(w) && g.packet.MACK? && id in g.packet.ids
      ensures
        var tx := Apply(hash, s', Deliver(w, g)).Me(w).tx;
        && id !in tx.msgs && tx.completions[Completion(id, Success)] == 1
        && tx.completions[Completion(id, Dropped)] == 0
    {
      MackCompletes(s.Me(w).tx, g.packet.ids, id);
      MackDelivered(hash, s', w, g);
    }
  }

  lemma MackDelivered(hash: Hash, s: System, w: Who, g: Flight)
    requires g.packet.MACK?
    ensures Apply(hash, s, Deliver(w, g)).Me(w).tx == OnMack(s.Me(w).tx, g.packet.ids)
  {
  }

  /**
    In every reachable state, if the peer has delivered a message that is still queued, any packet of it that arrives
    within the replay window leads to exactly one report, of success.
  */
  lemma DeliveredIsReported(hash: Hash, s: System, w: Who, f: Flight)
    requires Reachable(hash, s) && (f.packet.XMIT? || f.packet.DATA?)
    requires f.packet.id in s.Me(w).tx.msgs && f.packet.id in s.Me(w.Other()).rx.replay
    ensures Reports(hash, s, w, f)
  {
    hide Good;
    ReachableIsGood(hash, s);
    ResentReports(hash, s, w, f);
  }

  /** A pump sends a fragment of a message of several fragments that is due. */
  lemma PumpSendsFragment(hash: Hash, s: System, w: Who, id: nat)
    requires Good(hash, s) && Unfinished(s.Me(w).tx) && id in s.Me(w).tx.msgs
    requires |s.Me(w).tx.msgs[id].data| > FRAGMENT_SIZE && s.Me(w).tx.msgs[id].lastFlush + 400 <= s.now
    ensures exists p :: p in PumpTx(s.Me(w).tx, s.now).1 && p.DATA? && p.id == id
  {
    hide Good, PumpTx, Counted;
    var m := s.Me(w).tx.msgs[id];
    GoodFacts(hash, s, w, id);
    var k: nat :| k * FRAGMENT_SIZE < |m.data| && k !in m.acks;
    var p := DATA(k * FRAGMENT_SIZE, m.msgId, Slice(m.data, k));
    UnackedContents(m, 0, p);
    PumpResendsExactly(s.Me(w).tx, s.now, p);
  }

  lemma PumpPosts(hash: Hash, s: System, w: Who, p: Packet)
    requires p in PumpTx(s.Me(w).tx, s.now).1
    ensures
      var s' := Apply(hash, s, DoPump(w));
      && Flight(p, s.now) in s'.Inbox(w.Other())
      && s'.Me(w.Other()) == s.Me(w.Other()) && s'.Me(w).tx == PumpTx(s.Me(w).tx, s.now).0
  {
    hide PumpTx, PumpRx;
  }

  /**
    In every reachable state, if all acknowledgements of a delivered message of several fragments were lost, then
    after 400 ms one pump, one of its packets and one MACK report it, as long as it is queued and in the filter.
  */
  lemma LostAcksAreRepaired(hash: Hash, s: System, w: Who, id: nat)
    requires Reachable(hash, s) && id in s.Me(w).tx.msgs && id in s.Me(w.Other()).rx.replay
    requires |s.Me(w).tx.msgs[id].data| > FRAGMENT_SIZE && s.Me(w).tx.msgs[id].lastFlush + 400 <= s.now
    ensures
      var s' := Apply(hash, s, DoPump(w));
      exists f ::
        && f in s'.Inbox(w.Other()) && f.at == s.now && f.packet.DATA? && f.packet.id == id
        && Reports(hash, s', w, f)
  {
    ReachableIsPosted(hash, s, w);
    assert Unfinished(s.Me(w).tx);
    hide Good, Posted, Reports, PumpTx;
    PumpSendsFragment(hash, s, w, id);
    var p :| p in PumpTx(s.Me(w).tx, s.now).1 && p.DATA? && p.id == id;
    PumpPosts(hash, s, w, p);
    PumpKeepsQueue(s.Me(w).tx, s.now);
    GoodPump(hash, s, w);
    var s' := Apply(hash, s, DoPump(w));
    hide Apply;
    ResentReports(hash, s', w, Flight(p, s.now));
  }

  lemma PumpKeepsQueue(tx: Tx, now: nat)
    ensures PumpTx(tx, now).0.msgs.Keys == tx.msgs.Keys
  {
  }

  // ---------------------------------------------------------------- the undisturbed case

  /** A mask that covers a queued message completes it, with one report of success; any other draws what is missing. */
  lemma AcksAnswerExactly(tx: Tx, id: nat, mask: set<nat>, now: nat)
    requires Counted(tx) && id in tx.msgs
    ensures
      var (tx', out) := OnAcks(tx, id, mask, now);
      if Covers(mask, |tx.msgs[id].data|) then
        && id !in tx'.msgs && out == [] && tx'.completions[Completion(id, Success)] == 1
        && tx'.completions[Completion(id, Dropped)] == 0
      else
        && id in tx'.msgs && tx'.msgs[id].lastFlush == now && tx'.completions == tx.completions
        && forall k: nat :: k * FRAGMENT_SIZE < |tx.msgs[id].data| ==>
             (DATA(k * FRAGMENT_SIZE, tx.msgs[id].msgId, Slice(tx.msgs[id].data, k)) in out <==> k !in mask)
  {
    assert Calls(tx, id) == 0;
    var m := tx.msgs[id].(acks := mask);
    if !Covers(mask, |m.data|) {
      hide Unacked;
      forall k: nat | k * FRAGMENT_SIZE < |m.data|
        ensures DATA(k * FRAGMENT_SIZE, m.msgId, Slice(m.data, k)) in Unacked(m, 0) <==> k !in mask
      {
        UnackedContents(m, 0, DATA(k * FRAGMENT_SIZE, m.msgId, Slice(m.data, k)));
      }
    }
  }

  /** The receiving side on several packets: its state, and all it answers. */
  ghost function HearAll(hash: Hash, rx: Rx, packets: seq<Packet>, now: nat): (Rx, seq<Packet>)
    requires forall p | p in packets :: p.XMIT? || p.DATA?
    decreases |packets|
  {
    if packets == [] then (rx, [])
    else
      var (rx', out) := Hear(hash, rx, packets[0], now);
      var (last, more) := HearAll(hash, rx', packets[1..], now);
      (last, out + more)
  }

  lemma KeyedHear(hash: Hash, rx: Rx, p: Packet, now: nat)
    requires (p.XMIT? || p.DATA?) && Keyed(rx)
    ensures Keyed(Hear(hash, rx, p, now).0)
  {
    hide Hear;
    forall id | id in Hear(hash, rx, p, now).0.msgs
      ensures Hear(hash, rx, p, now).0.msgs[id].msgId == id
    {
      HearEntries(hash, rx, p, now, id);
    }
  }

  /** `packets` holds a mask that covers the message. */
  ghost predicate Acknowledged(packets: seq<Packet>, id: nat, size: nat)
  {
    exists p :: p in packets && p.ACKS? && p.id == id && Covers(p.mask, size)
  }

  /** Every delivery among several packets is acknowledged. */
  lemma {:induction false} HearAllAcknowledges(hash: Hash, rx: Rx, packets: seq<Packet>, now: nat, d: Delivery)
    requires (forall p | p in packets :: p.XMIT? || p.DATA?) && Keyed(rx)
    requires d in HearAll(hash, rx, packets, now).0.delivered && d !in rx.delivered
    ensures Acknowledged(HearAll(hash, rx, packets, now).1, d.id, |d.data|)
    decreases |packets|
  {
    hide Hear, Covers, Keyed;
    var (rx', out) := Hear(hash, rx, packets[0], now);
    KeyedHear(hash, rx, packets[0], now);
    var more := HearAll(hash, rx', packets[1..], now).1;
    if d in rx'.delivered {
      HearAcknowledges(hash, rx, packets[0], now, d);
      AcknowledgedMore(out, [], more, d.id, |d.data|);
    } else {
      HearAllAcknowledges(hash, rx', packets[1..], now, d);
      AcknowledgedMore(more, out, [], d.id, |d.data|);
      assert out + more + [] == out + more;
    }
  }

  lemma AcknowledgedMore(packets: seq<Packet>, before: seq<Packet>, after: seq<Packet>, id: nat, size: nat)
    requires Acknowledged(packets, id, size)
    ensures Acknowledged(before + packets + after, id, size)
    ensures before == [] ==> Acknowledged(packets + after, id, size)
  {
    hide Covers;
    var p :| p in packets && p.ACKS? && p.id == id && Covers(p.mask, size);
    assert p in before + packets + after && p in packets + after;
  }

  lemma HearAcknowledges(hash: Hash, rx: Rx, p: Packet, now: nat, d: Delivery)
    requires (p.XMIT? || p.DATA?) && Keyed(rx)
    requires d in Hear(hash, rx, p, now).0.delivered && d !in rx.delivered
    ensures Acknowledged(Hear(hash, rx, p, now).1, d.id, |d.data|)
  {
    HearDelivers(hash, rx, p, now);
    hide Hear, Covers;
    var out := Hear(hash, rx, p, now).1;
    var size := if p.XMIT? then p.size else |rx.msgs[p.id].data|;
    var data, mask :|
      && Hear(hash, rx, p, now).0.delivered == rx.delivered + [Delivery(p.id, data, now)]
      && |data| == size && Covers(mask, size) && out == [ACKS(p.id, mask)];
    assert ACKS(p.id, mask) in out && d == Delivery(p.id, data, now);
  }

  lemma {:induction false} HearAllIsRunData(hash: Hash, rx: Rx, round: seq<Packet>, now: nat)
    requires forall p | p in round :: p.DATA?
    ensures HearAll(hash, rx, round, now).0 == RunData(hash, rx, round, now)
    decreases |round|
  {
    hide OnData;
    if round != [] {
      HearAllIsRunData(hash, OnData(hash, rx, round[0].offset, round[0].id, round[0].fragment, now).0, round[1..], now);
    }
  }

  /** A message of one fragment is delivered by its announcement. */
  lemma SmallArrives(hash: Hash, rx: Rx, m: OutboundMessage, now: nat)
    requires |m.data| <= FRAGMENT_SIZE && m.digest == hash(m.data) && m.msgId !in rx.msgs && m.msgId !in rx.replay
    ensures Hear(hash, rx, Xmit(m), now).0.delivered == rx.delivered + [Delivery(m.msgId, m.data, now)]
  {
    var entry := NewInbound(m.msgId, |m.data|, m.digest, now);
    var stored := HandleData(entry, 0, m.data, now);
    assert m.data[..Min(|m.data|, FRAGMENT_SIZE)] == m.data;
    assert stored.data == m.data && 0 in stored.acks;
    assert Covers(stored.acks, |m.data|);
  }

  lemma SubmitShape(hash: Hash, tx: Tx, data: seq<byte>, now: nat, priority: nat)
    requires |tx.msgs| < MAX_SEND_QUEUE_SIZE
    ensures
      var (tx', packets) := Submit(hash, tx, data, now, priority);
      var m := NewOutbound(hash, tx.nextId, data, now, priority);
      && tx.nextId in tx'.msgs && tx'.msgs[tx.nextId] == m && tx'.sent == tx.sent + [Submitted(data, now)]
      && packets == (if |data| > FRAGMENT_SIZE then [Xmit(m)] + Unacked(m, 0) else [Xmit(m)])
      && forall p | p in packets :: p.XMIT? || p.DATA?
  {
    var m := NewOutbound(hash, tx.nextId, data, now, priority);
    forall p | p in Unacked(m, 0)
      ensures p.DATA?
    {
      UnackedContents(m, 0, p);
    }
    hide Unacked;
  }

  /** A message of several fragments is delivered by its announcement and its fragments. */
  lemma LargeArrives(hash: Hash, l: Link, id: nat)
    requires Safe(hash, l) && Behind(l) && id in l.tx.msgs && id !in l.rx.openings
    requires |l.tx.msgs[id].data| > FRAGMENT_SIZE
    ensures
      var packets := [Xmit(l.tx.msgs[id])] + Unacked(l.tx.msgs[id], 0);
      && (forall p | p in packets :: p.XMIT? || p.DATA?)
      && id < |l.tx.sent| && HearAll(hash, l.rx, packets, l.now).0.delivered ==
           l.rx.delivered + [Delivery(id, l.tx.sent[id].data, l.now)]
  {
    hide OnXmit, OnData, Unacked, RunData;
    assert OutboundOk(hash, l.tx.sent, id, l.tx.msgs[id]);
    LostXmitIsRepaired(hash, l, id);
    var xmit, flush := Xmit(l.tx.msgs[id]), Unacked(l.tx.msgs[id], 0);
    assert ([xmit] + flush)[1..] == flush;
    var rx' := Hear(hash, l.rx, xmit, l.now).0;
    HearAllIsRunData(hash, rx', flush, l.now);
  }

  /** What the packets of a submission do at a peer that gets them all. */
  lemma SubmittedArrives(hash: Hash, l: Link, data: seq<byte>, priority: nat)
    requires Safe(hash, l) && Behind(l) && |l.tx.msgs| < MAX_SEND_QUEUE_SIZE && |data| <= MAX_LINK_MSG_SIZE
    ensures
      var packets := Submit(hash, l.tx, data, l.now, priority).1;
      && (forall p | p in packets :: p.XMIT? || p.DATA?)
      && HearAll(hash, l.rx, packets, l.now).0.delivered == l.rx.delivered + [Delivery(l.tx.nextId, data, l.now)]
  {
    SubmitShape(hash, l.tx, data, l.now, priority);
    var (tx', packets) := Submit(hash, l.tx, data, l.now, priority);
    var id := l.tx.nextId;
    assert id !in l.rx.openings && id !in l.rx.msgs && id !in l.rx.replay;
    if |data| > FRAGMENT_SIZE {
      SafeSubmit(hash, l, data, priority);
      BehindSubmit(hash, l, data, priority);
      var l' := l.(tx := tx', forward := l.forward + Post(packets, l.now));
      hide Safe, Submit, HearAll;
      assert Behind(l');
      LargeArrives(hash, l', id);
    } else {
      hide Safe, Submit, Behind, Hear;
      SmallArrives(hash, l.rx, NewOutbound(hash, id, data, l.now, priority), l.now);
      assert packets[1..] == [];
    }
  }

  /**
    In every reachable state, if all packets of a new message arrive in order, the peer delivers it once and
    unchanged, and answers with a mask that completes it with success.
  */
  lemma UndisturbedIsDelivered(hash: Hash, s: System, w: Who, data: seq<byte>, priority: nat)
    requires Reachable(hash, s) && |s.Me(w).tx.msgs| < 16384 && |data| <= 8192
    ensures
      var tx, rx := s.Me(w).tx, s.Me(w.Other()).rx;
      var (tx', packets) := Submit(hash, tx, data, s.now, priority);
      && (forall p | p in packets :: p.XMIT? || p.DATA?)
      && (var (rx', answers) := HearAll(hash, rx, packets, s.now);
          && rx'.delivered == rx.delivered + [Delivery(tx.nextId, data, s.now)]
          && Acknowledged(answers, tx.nextId, |data|))
      && (forall mask | Covers(mask, |data|) ::
            OnAcks(tx', tx.nextId, mask, s.now).0.completions[Completion(tx.nextId, Success)] == 1)
  {
    hide Covers;
    ReachableIsGood(hash, s);
    GoodEither(hash, s, w);
    var l := s.From(w);
    var (tx', packets) := Submit(hash, l.tx, data, s.now, priority);
    SubmittedArrives(hash, l, data, priority);
    NewIsNotDelivered(hash, l, data);
    CountedSubmit(hash, l.tx, data, s.now, priority);
    SubmitShape(hash, l.tx, data, s.now, priority);
    hide Safe, Retransmits, Submit, HearAll, Counted;
    HearAllAcknowledges(hash, l.rx, packets, s.now, Delivery(l.tx.nextId, data, s.now));
    forall mask | Covers(mask, |data|)
      ensures OnAcks(tx', l.tx.nextId, mask, s.now).0.completions[Completion(l.tx.nextId, Success)] == 1
    {
      AcksAnswerExactly(tx', l.tx.nextId, mask, s.now);
    }
  }

  lemma NewIsNotDelivered(hash: Hash, l: Link, data: seq<byte>)
    requires Safe(hash, l)
    ensures Keyed(l.rx) && Delivery(l.tx.nextId, data, l.now) !in l.rx.delivered
  {
    forall id | id in l.rx.msgs
      ensures l.rx.msgs[id].msgId == id
    {
      assert InboundOk(hash, l.tx.sent, id, l.rx.msgs[id]);
    }
  }
}
