/**
  An established IWP session: what each handler does to the sending and the receiving side, first
  as functions on values, then as the methods of a class proved against those functions.

  `Tx` and `Rx` carry, besides the source's fields, the history the properties speak about: every
  message accepted so far, every completion handler call, which messages an ACKS mask completed, how
  many refused messages had their handler called at once, every message handed to the upper layer, and
  which receive entries were opened and which timed out.
*/
module IwpSession {
  import opened Bytes
  import opened IwpMessages
  import opened Ordered

  const MAX_SEND_QUEUE_SIZE := 16384
  const MAX_ACKS_IN_MACK := 128

  datatype Status = Success | Dropped
  datatype Completion = Completion(id: nat, status: Status)
  datatype Submitted = Submitted(data: seq<byte>, at: nat)
  datatype Delivery = Delivery(id: nat, data: seq<byte>, at: nat)

  datatype Tx = Tx(
    nextId: nat,
    msgs: map<nat, OutboundMessage>,
    acked: int,
    dropped: int,
    inFlight: int,
    sent: seq<Submitted>,
    completions: multiset<Completion>,
    byMask: multiset<nat>,
    refused: nat)

  datatype Rx = Rx(
    msgs: map<nat, InboundMessage>,
    replay: map<nat, nat>,
    macks: multiset<nat>,
    delivered: seq<Delivery>,
    expired: set<nat>,
    openings: multiset<nat>)

  const EMPTY_TX := Tx(0, map[], 0, 0, 0, [], multiset{}, multiset{}, 0)
  const EMPTY_RX := Rx(map[], map[], multiset{}, [], {}, multiset{})

  /** Records sit under their own ids and are within the size limit. */
  ghost predicate TxKeyed(msgs: map<nat, OutboundMessage>)
  {
    forall id | id in msgs :: msgs[id].msgId == id && |msgs[id].data| <= MAX_LINK_MSG_SIZE
  }

  /** Records sit under their own ids, and set only bits there are. */
  ghost predicate RxKeyed(msgs: map<nat, InboundMessage>)
  {
    forall id | id in msgs :: msgs[id].msgId == id && HasBits(msgs[id].acks)
  }

  predicate HasBits(acks: set<nat>)
  {
    forall k | k in acks :: k < MASK_BITS
  }

  // ------------------------------------------------------------ sending side

  /** `SendMessageBuffer`: refuse, telling the handler, when the queue is full; otherwise queue and transmit. */
  function Submit(hash: Hash, tx: Tx, data: seq<byte>, now: nat, priority: nat): (Tx, seq<Packet>)
  {
    if |tx.msgs| >= MAX_SEND_QUEUE_SIZE then (tx.(refused := tx.refused + 1), [])
    else
      var m := NewOutbound(hash, tx.nextId, data, now, priority);
      (tx.(nextId := tx.nextId + 1,
           msgs := tx.msgs[tx.nextId := m],
           inFlight := tx.inFlight + 1,
           sent := tx.sent + [Submitted(data, now)]),
       [Xmit(m)] + (if |data| > FRAGMENT_SIZE then Unacked(m, 0) else []))
  }

  /** `HandleACKS`: the mask replaces what was known; success does not touch the counters. */
  ghost function OnAcks(tx: Tx, id: nat, mask: set<nat>, now: nat): (Tx, seq<Packet>)
  {
    if id !in tx.msgs then (tx, [])
    else
      var m := tx.msgs[id].(acks := mask);
      if Covers(m.acks, |m.data|) then
        (tx.(msgs := tx.msgs - {id},
             completions := tx.completions + multiset{Completion(id, Success)},
             byMask := tx.byMask + multiset{id}), [])
      else
        (tx.(msgs := tx.msgs[id := m.(lastFlush := now)]), Unacked(m, 0))
  }

  /** `HandleNACK`: transmit the message's head again. */
  function OnNack(tx: Tx, id: nat): seq<Packet>
  {
    if id in tx.msgs then [Xmit(tx.msgs[id])] else []
  }

  function AckOne(tx: Tx, id: nat): Tx
  {
    if id !in tx.msgs then tx
    else tx.(
      msgs := tx.msgs - {id},
      acked := tx.acked + 1,
      inFlight := tx.inFlight - 1,
      completions := tx.completions + multiset{Completion(id, Success)})
  }

  /** `HandleMACK`: complete every listed message that is still queued. */
  function OnMack(tx: Tx, ids: seq<nat>): Tx
    decreases |ids|
  {
    if ids == [] then tx else OnMack(AckOne(tx, ids[0]), ids[1..])
  }

  function Drops(ids: set<nat>): multiset<Completion>
  {
    multiset(set id | id in ids :: Completion(id, Dropped))
  }

  /** Drop the given queued messages and tell their handlers. */
  function DropAll(tx: Tx, ids: set<nat>): Tx
  {
    tx.(
      msgs := tx.msgs - ids,
      dropped := tx.dropped + |ids|,
      inFlight := tx.inFlight - |ids|,
      completions := tx.completions + Drops(ids))
  }

  function TxLate(msgs: map<nat, OutboundMessage>, now: nat): set<nat>
  {
    set id | id in msgs && TxTimedOut(msgs[id], now)
  }

  /** The part of `Tick` that concerns the sending side. */
  function TickTx(tx: Tx, now: nat): Tx
  {
    DropAll(tx, TxLate(tx.msgs, now))
  }

  /** The order on queued messages; a priority queue built on it yields the greatest first. */
  predicate ResendLess(msgs: map<nat, OutboundMessage>, i: nat, j: nat)
    requires i in msgs && j in msgs
  {
    msgs[i].priority > msgs[j].priority || (msgs[i].priority == msgs[j].priority && i < j)
  }

  /** The ids of `due` in the order a priority queue of the messages yields them. */
  ghost function ResendOrder(msgs: map<nat, OutboundMessage>, due: set<nat>): seq<nat>
    requires due <= msgs.Keys
    decreases |due|
  {
    if due == {} then []
    else
      var top := Top(msgs, due);
      [top] + ResendOrder(msgs, due - {top})
  }

  ghost predicate IsTop(msgs: map<nat, OutboundMessage>, due: set<nat>, top: nat)
  {
    top in due && due <= msgs.Keys && forall id | id in due && id != top :: ResendLess(msgs, id, top)
  }

  lemma {:induction false} TopExists(msgs: map<nat, OutboundMessage>, due: set<nat>) returns (top: nat)
    requires {} != due <= msgs.Keys
    ensures IsTop(msgs, due, top)
  {
    var y :| y in due;
    var rest := due - {y};
    top := y;
    if rest != {} {
      var t := TopExists(msgs, rest);
      top := if ResendLess(msgs, t, y) then y else t;
    }
    forall id | id in due && id != top
      ensures ResendLess(msgs, id, top)
    {
      assert id == y || id in rest;
    }
  }

  function Top(msgs: map<nat, OutboundMessage>, due: set<nat>): (top: nat)
    requires {} != due <= msgs.Keys
    ensures IsTop(msgs, due, top)
  {
    assert exists top :: IsTop(msgs, due, top) by {
      var _ := TopExists(msgs, due);
    }
    var top :| top in due && forall id | id in due && id != top :: ResendLess(msgs, id, top);
    top
  }

  ghost function FlushAll(msgs: map<nat, OutboundMessage>, order: seq<nat>): seq<Packet>
    requires forall id | id in order :: id in msgs
  {
    if order == [] then [] else Unacked(msgs[order[0]], 0) + FlushAll(msgs, order[1..])
  }

  function TxDue(msgs: map<nat, OutboundMessage>, now: nat): set<nat>
  {
    set id | id in msgs && ShouldFlush(msgs[id], now)
  }

  function Flushed(msgs: map<nat, OutboundMessage>, due: set<nat>, now: nat): map<nat, OutboundMessage>
  {
    map id | id in msgs :: if id in due then msgs[id].(lastFlush := now) else msgs[id]
  }

  /** The part of `Pump` that retransmits: new state, and the packets in sending order. */
  ghost function PumpTx(tx: Tx, now: nat): (Tx, seq<Packet>)
  {
    var due := TxDue(tx.msgs, now);
    var order := ResendOrder(tx.msgs, due);
    ResendOrderContents(tx.msgs, due);
    (tx.(msgs := Flushed(tx.msgs, due, now)), FlushAll(tx.msgs, order))
  }

  lemma {:induction false} ResendOrderContents(msgs: map<nat, OutboundMessage>, due: set<nat>)
    requires due <= msgs.Keys
    ensures forall id :: id in ResendOrder(msgs, due) <==> id in due
    decreases |due|
  {
    if due != {} {
      ResendOrderContents(msgs, due - {Top(msgs, due)});
    }
  }

  /**
    A message with a higher priority value is flushed after one with a lower value: the heap yields
    the greatest element of an order that sorts high priorities first.
  */
  lemma {:induction false} ResendsLowPriorityFirst(msgs: map<nat, OutboundMessage>, due: set<nat>, i: nat, j: nat)
    requires due <= msgs.Keys
    requires i < j < |ResendOrder(msgs, due)|
    ensures
      var order := ResendOrder(msgs, due);
      order[i] in msgs && order[j] in msgs &&
      (msgs[order[i]].priority < msgs[order[j]].priority ||
       (msgs[order[i]].priority == msgs[order[j]].priority && order[i] > order[j]))
    decreases |due|
  {
    var top := Top(msgs, due);
    var rest := ResendOrder(msgs, due - {top});
    assert ResendOrder(msgs, due) == [top] + rest;
    if i == 0 {
      ResendOrderContents(msgs, due - {top});
      assert rest[j - 1] in due - {top};
    } else {
      ResendsLowPriorityFirst(msgs, due - {top}, i - 1, j - 1);
    }
  }

  // ---------------------------------------------------------- receiving side

  /** `HandleRecvMsgCompleted`: hand the message up unless its id is in the replay filter. */
  function RecvCompleted(rx: Rx, m: InboundMessage, now: nat): (Rx, seq<Packet>)
  {
    var closed := rx.(msgs := rx.msgs - {m.msgId});
    if m.msgId in rx.replay then (closed, [])
    else
      (closed.(replay := rx.replay[m.msgId := now],
               delivered := rx.delivered + [Delivery(m.msgId, m.data, now)]),
       [ACKS(m.msgId, m.acks)])
  }

  /** What both receive handlers do once an entry holds a new fragment. */
  ghost function AfterFragment(hash: Hash, rx: Rx, m: InboundMessage, now: nat): (Rx, seq<Packet>)
  {
    var stored := rx.(msgs := rx.msgs[m.msgId := m]);
    if Covers(m.acks, |m.data|) && Verify(hash, m) then RecvCompleted(stored, m, now) else (stored, [])
  }

  ghost function OnXmit(hash: Hash, rx: Rx, size: nat, id: nat, digest: Digest, head: seq<byte>, now: nat)
    : (Rx, seq<Packet>)
  {
    if id in rx.replay then (rx.(macks := rx.macks + multiset{id}), [])
    else if id in rx.msgs then (rx, [])
    else
      var m := NewInbound(id, size, digest, now);
      var open := rx.(msgs := rx.msgs[id := m], openings := rx.openings + multiset{id});
      if |head| == Min(size, FRAGMENT_SIZE) then AfterFragment(hash, open, HandleData(m, 0, head, now), now)
      else (open, [])
  }

  ghost function OnData(hash: Hash, rx: Rx, offset: nat, id: nat, fragment: seq<byte>, now: nat): (Rx, seq<Packet>)
  {
    if id in rx.msgs then AfterFragment(hash, rx, HandleData(rx.msgs[id], offset, fragment, now), now)
    else if id in rx.replay then (rx.(macks := rx.macks + multiset{id}), [])
    else (rx, [NACK(id)])
  }

  function RxLate(msgs: map<nat, InboundMessage>, now: nat): set<nat>
  {
    set id | id in msgs && RxTimedOut(msgs[id], now)
  }

  function Decay(replay: map<nat, nat>, now: nat): map<nat, nat>
  {
    map id | id in replay && now < replay[id] + REPLAY_WINDOW :: replay[id]
  }

  function Stamped(ids: set<nat>, now: nat): map<nat, nat>
  {
    map id | id in ids :: now
  }

  /** The part of `Tick` that concerns the receiving side. */
  function TickRx(rx: Rx, now: nat): Rx
  {
    var late := RxLate(rx.msgs, now);
    rx.(msgs := rx.msgs - late,
        replay := Decay(Stamped(late, now) + rx.replay, now),
        expired := rx.expired + late)
  }

  function AckPackets(msgs: map<nat, InboundMessage>, ids: seq<nat>, now: nat): seq<Packet>
    requires forall id | id in ids :: id in msgs
  {
    if ids == [] then []
    else
      var m := msgs[ids[0]];
      (if ShouldSendAcks(m, now) then [ACKS(m.msgId, m.acks)] else []) + AckPackets(msgs, ids[1..], now)
  }

  function AcksNoted(msgs: map<nat, InboundMessage>, ids: set<nat>, now: nat): map<nat, InboundMessage>
  {
    map id | id in msgs ::
      if id in ids && ShouldSendAcks(msgs[id], now) then msgs[id].(lastAckSent := now) else msgs[id]
  }

  /** The part of `Pump` that acknowledges fragments. */
  function PumpRx(rx: Rx, now: nat): (Rx, seq<Packet>)
  {
    AscendingContents(rx.msgs.Keys);
    (rx.(msgs := AcksNoted(rx.msgs, rx.msgs.Keys, now)), AckPackets(rx.msgs, Ascending(rx.msgs.Keys), now))
  }

  /** Cut a list of ids into MACK packets. */
  function MackPackets(ids: seq<nat>): seq<Packet>
  {
    if ids == [] then []
    else
      var n := Min(|ids|, MAX_ACKS_IN_MACK);
      [MACK(ids[..n])] + MackPackets(ids[n..])
  }

  /** `SendMACK`. */
  function SendMacks(rx: Rx): (Rx, seq<Packet>)
  {
    (rx.(macks := multiset{}), MackPackets(Drain(rx.macks)))
  }

  /** The ids that a receiver decodes from a run of MACK packets. */
  function MackedIds(packets: seq<Packet>): seq<nat>
  {
    if packets == [] then []
    else (if packets[0].MACK? then packets[0].ids else []) + MackedIds(packets[1..])
  }

  lemma {:induction false} MackPacketsConserve(ids: seq<nat>)
    ensures MackedIds(MackPackets(ids)) == ids
    ensures forall p | p in MackPackets(ids) :: p.MACK? && 1 <= |p.ids| <= MAX_ACKS_IN_MACK
  {
    if ids != [] {
      var n := Min(|ids|, MAX_ACKS_IN_MACK);
      MackPacketsConserve(ids[n..]);
      assert ids == ids[..n] + ids[n..];
    }
  }

  /**
    MACK batching loses, repeats and reorders nothing: from any queue, the packets hold at most 128
    ids each and decode, one after the other, to the queued ids in ascending order.
  */
  lemma MackBatching(rx: Rx)
    ensures var (rest, packets) := SendMacks(rx);
      && rest.macks == multiset{}
      && (forall p | p in packets :: p.MACK? && 1 <= |p.ids| <= 128)
      && multiset(MackedIds(packets)) == rx.macks
      && Sorted(MackedIds(packets))
  {
    DrainSorted(rx.macks);
    DrainContents(rx.macks);
    MackPacketsConserve(Drain(rx.macks));
  }

  /** Pop the `n` smallest ids of a queue. */
  method PopAcks(queue: multiset<nat>, n: nat) returns (acks: seq<nat>, rest: multiset<nat>)
    requires n <= |queue|
    ensures |acks| == n && acks + Drain(rest) == Drain(queue)
    ensures |rest| == |queue| - n
  {
    acks, rest := [], queue;
    while |acks| < n
      invariant |acks| <= n
      invariant acks + Drain(rest) == Drain(queue)
      invariant |rest| == |queue| - |acks|
    {
      var least := LeastOf(rest);
      DrainStep(rest, acks);
      hide Drain;
      rest := rest - multiset{least};
      acks := acks + [least];
    }
  }

  lemma MackPacketsStep(all: seq<nat>, acks: seq<nat>, rest: seq<nat>)
    requires all == acks + rest && all != []
    requires |acks| == Min(|all|, MAX_ACKS_IN_MACK)
    ensures MackPackets(all) == [MACK(acks)] + MackPackets(rest)
  {
    assert all[..|acks|] == acks && all[|acks|..] == rest;
  }

  /** The loop of `SendMACK`: pop up to 128 ids into each packet until the queue is empty. */
  method BuildMacks(queue: multiset<nat>) returns (packets: seq<Packet>)
    ensures packets == MackPackets(Drain(queue))
  {
    packets := [];
    var q := queue;
    while q != multiset{}
      invariant packets + MackPackets(Drain(q)) == MackPackets(Drain(queue))
      decreases |q|
    {
      ghost var all := Drain(q);
      DrainLength(q);
      var acks;
      acks, q := PopAcks(q, Min(|q|, MAX_ACKS_IN_MACK));
      MackPacketsStep(all, acks, Drain(q));
      packets := packets + [MACK(acks)];
    }
  }

  lemma Associative(a: seq<Packet>, b: seq<Packet>, c: seq<Packet>)
    ensures a + (b + c) == (a + b) + c
  {
  }

  lemma AckPacketsStep(msgs: map<nat, InboundMessage>, rest: set<nat>, now: nat)
    requires {} != rest <= msgs.Keys
    ensures forall id | id in Ascending(rest) :: id in msgs
    ensures forall id | id in Ascending(rest - {Least(rest)}) :: id in msgs
    ensures
      var m := msgs[Least(rest)];
      AckPackets(msgs, Ascending(rest), now) ==
        (if ShouldSendAcks(m, now) then [ACKS(m.msgId, m.acks)] else [])
        + AckPackets(msgs, Ascending(rest - {Least(rest)}), now)
  {
    AscendingContents(rest);
    AscendingContents(rest - {Least(rest)});
    assert Ascending(rest)[1..] == Ascending(rest - {Least(rest)});
  }

  lemma AcksNotedStart(msgs: map<nat, InboundMessage>, now: nat)
    ensures AcksNoted(msgs, {}, now) == msgs && AckPackets(msgs, [], now) == []
  {
  }

  lemma AcksNotedStep(msgs: map<nat, InboundMessage>, done: set<nat>, id: nat, now: nat)
    requires id in msgs && id !in done
    ensures AcksNoted(msgs, done + {id}, now) ==
      if ShouldSendAcks(msgs[id], now) then AcksNoted(msgs, done, now)[id := msgs[id].(lastAckSent := now)]
      else AcksNoted(msgs, done, now)
  {
  }

  /** The loop of `Pump` over the inbound messages. */
  method AckRound(msgs: map<nat, InboundMessage>, now: nat)
    returns (noted: map<nat, InboundMessage>, packets: seq<Packet>)
    ensures noted == AcksNoted(msgs, msgs.Keys, now)
    ensures forall id | id in Ascending(msgs.Keys) :: id in msgs
    ensures packets == AckPackets(msgs, Ascending(msgs.Keys), now)
  {
    hide AckPackets, AcksNoted;
    var rest := msgs.Keys;
    AscendingContents(rest);
    noted, packets := msgs, [];
    AcksNotedStart(msgs, now);
    assert msgs.Keys - rest == {};
    while rest != {}
      invariant rest <= msgs.Keys
      invariant forall id | id in Ascending(rest) :: id in msgs
      invariant noted == AcksNoted(msgs, msgs.Keys - rest, now)
      invariant packets + AckPackets(msgs, Ascending(rest), now) == AckPackets(msgs, Ascending(msgs.Keys), now)
    {
      var id := Least(rest);
      AcksNotedStep(msgs, msgs.Keys - rest, id, now);
      AckPacketsStep(msgs, rest, now);
      assert msgs.Keys - (rest - {id}) == (msgs.Keys - rest) + {id};
      rest := rest - {id};
      var acks := if ShouldSendAcks(msgs[id], now) then [ACKS(msgs[id].msgId, msgs[id].acks)] else [];
      Associative(packets, acks, AckPackets(msgs, Ascending(rest), now));
      packets := packets + acks;
      if ShouldSendAcks(msgs[id], now) {
        noted := noted[id := msgs[id].(lastAckSent := now)];
      }
    }
    assert msgs.Keys - rest == msgs.Keys;
  }

  lemma FlushedStart(msgs: map<nat, OutboundMessage>, now: nat)
    ensures Flushed(msgs, {}, now) == msgs
    ensures TxDue(msgs, now) <= msgs.Keys
    ensures ResendOrder(msgs, {}) == [] && FlushAll(msgs, []) == []
  {
  }

  lemma FlushedStep(msgs: map<nat, OutboundMessage>, done: set<nat>, id: nat, now: nat)
    requires id in msgs
    ensures Flushed(msgs, done + {id}, now) == Flushed(msgs, done, now)[id := msgs[id].(lastFlush := now)]
  {
  }

  /** The loops of `Pump` over the outbound messages: collect what is due, then flush from the heap. */
  method ResendRound(msgs: map<nat, OutboundMessage>, now: nat)
    returns (flushed: map<nat, OutboundMessage>, packets: seq<Packet>)
    requires TxKeyed(msgs)
    ensures
      var due := TxDue(msgs, now);
      && flushed == Flushed(msgs, due, now)
      && (forall id | id in ResendOrder(msgs, due) :: id in msgs)
      && packets == FlushAll(msgs, ResendOrder(msgs, due))
  {
    hide Unacked, ShouldFlush, FlushAll, Flushed, ResendOrder, TxDue, ResendLess;
    var due := TxDue(msgs, now);
    FlushedStart(msgs, now);
    ResendOrderContents(msgs, due);
    var heap := due;
    flushed, packets := msgs, [];
    ghost var done := {};
    while heap != {}
      invariant heap + done == due
      invariant forall id | id in ResendOrder(msgs, heap) :: id in msgs
      invariant flushed == Flushed(msgs, done, now)
      invariant packets + FlushAll(msgs, ResendOrder(msgs, heap)) == FlushAll(msgs, ResendOrder(msgs, due))
      decreases |heap|
    {
      var top := Top(msgs, heap);
      var fragments, msg := FlushUnAcked(msgs[top], now);
      FlushAllStep(msgs, heap, top);
      FlushedStep(msgs, done, top, now);
      flushed := flushed[top := msg];
      done := done + {top};
      heap := heap - {top};
      Associative(packets, fragments, FlushAll(msgs, ResendOrder(msgs, heap)));
      packets := packets + fragments;
    }
  }

  /** The first loop of `Tick`: remove the outbound messages that timed out. */
  method RemoveLateOutbound(msgs: map<nat, OutboundMessage>, now: nat)
    returns (kept: map<nat, OutboundMessage>, late: set<nat>)
    ensures late == TxLate(msgs, now)
    ensures kept == msgs - late
  {
    var rest := msgs.Keys;
    kept, late := msgs, {};
    while rest != {}
      invariant rest <= msgs.Keys
      invariant late == set id | id in msgs && id !in rest && TxTimedOut(msgs[id], now)
      invariant kept == msgs - late
    {
      var id := Least(rest);
      rest := rest - {id};
      if TxTimedOut(msgs[id], now) {
        kept := kept - {id};
        late := late + {id};
      }
    }
  }

  /** The second loop of `Tick`: move the inbound messages that timed out to the replay filter. */
  method RemoveLateInbound(msgs: map<nat, InboundMessage>, replay: map<nat, nat>, now: nat)
    returns (kept: map<nat, InboundMessage>, filter: map<nat, nat>, late: set<nat>)
    ensures late == RxLate(msgs, now)
    ensures kept == msgs - late
    ensures filter == Stamped(late, now) + replay
  {
    var rest := msgs.Keys;
    kept, filter, late := msgs, replay, {};
    while rest != {}
      invariant rest <= msgs.Keys
      invariant late == set id | id in msgs && id !in rest && RxTimedOut(msgs[id], now)
      invariant kept == msgs - late
      invariant filter == Stamped(late, now) + replay
    {
      var id := Least(rest);
      rest := rest - {id};
      if RxTimedOut(msgs[id], now) {
        if id !in filter {
          filter := filter[id := now];
        }
        kept := kept - {id};
        late := late + {id};
      }
    }
  }

  /** The third loop of `Tick`. */
  method DecayReplayFilter(replay: map<nat, nat>, now: nat) returns (filter: map<nat, nat>)
    ensures filter == Decay(replay, now)
  {
    var rest := replay.Keys;
    filter := replay;
    while rest != {}
      invariant rest <= filter.Keys <= replay.Keys
      invariant forall id | id in filter :: filter[id] == replay[id]
      invariant forall id | id in replay && id !in rest :: id in filter <==> now < replay[id] + REPLAY_WINDOW
    {
      var id :| id in rest;
      rest := rest - {id};
      if filter[id] + REPLAY_WINDOW <= now {
        filter := filter - {id};
      }
    }
  }

  lemma FlushAllStep(msgs: map<nat, OutboundMessage>, heap: set<nat>, top: nat)
    requires {} != heap <= msgs.Keys && top == Top(msgs, heap)
    ensures (forall id | id in ResendOrder(msgs, heap) :: id in msgs)
    ensures (forall id | id in ResendOrder(msgs, heap - {top}) :: id in msgs)
    ensures FlushAll(msgs, ResendOrder(msgs, heap)) ==
      Unacked(msgs[top], 0) + FlushAll(msgs, ResendOrder(msgs, heap - {top}))
  {
    ResendOrderContents(msgs, heap);
    ResendOrderContents(msgs, heap - {top});
    assert ResendOrder(msgs, heap)[1..] == ResendOrder(msgs, heap - {top});
  }

  // -------------------------------------------------------------- the object

  lemma HandleDataShape(m: InboundMessage, offset: nat, fragment: seq<byte>, now: nat)
    ensures
      var r := HandleData(m, offset, fragment, now);
      && |r.data| == |m.data| && r.msgId == m.msgId && r.digest == m.digest
      && r.acks == (if offset + |fragment| > |m.data| then m.acks else m.acks + {offset / FRAGMENT_SIZE})
  {
  }

  /** A fragment that fits into the message but has no bit. */
  predicate BeyondMask(m: InboundMessage, offset: nat, fragment: seq<byte>)
  {
    offset + |fragment| <= |m.data| && offset / FRAGMENT_SIZE >= MASK_BITS
  }

  /** What is left of a fragment without a bit: its bytes. */
  function Copied(m: InboundMessage, offset: nat, fragment: seq<byte>): InboundMessage
    requires offset + |fragment| <= |m.data|
  {
    m.(data := m.data[..offset] + fragment + m.data[offset + |fragment| ..])
  }

  predicate DataThrows(m: InboundMessage, offset: nat, fragment: seq<byte>, now: nat)
  {
    || BeyondMask(m, offset, fragment)
    || (var stored := HandleData(m, offset, fragment, now); Overflows(stored.acks, |stored.data|))
  }

  lemma NotCovered(acks: set<nat>, size: nat)
    requires HasBits(acks) && size > MAX_LINK_MSG_SIZE
    ensures !Covers(acks, size)
  {
    assert MASK_BITS * FRAGMENT_SIZE < size && MASK_BITS !in acks;
  }

  /**
    Within the size limit exactly one fragment throws: an empty one at the very end of an entry of the
    largest size, which is in bounds but has no bit.
  */
  lemma InLimitThrowsExactly(m: InboundMessage, offset: nat, fragment: seq<byte>, now: nat)
    requires |m.data| <= MAX_LINK_MSG_SIZE
    ensures
      DataThrows(m, offset, fragment, now) <==>
      |m.data| == MAX_LINK_MSG_SIZE && offset == MAX_LINK_MSG_SIZE && fragment == []
  {
    HandleDataShape(m, offset, fragment, now);
  }

  /**
    Above the size limit a fragment throws if and only if it fits and lies beyond the eighth, or the first eight are
    there with it.
  */
  lemma OverLimitThrowsExactly(m: InboundMessage, offset: nat, fragment: seq<byte>, now: nat)
    requires |m.data| > 8192
    ensures
      var fits := offset + |fragment| <= |m.data|;
      DataThrows(m, offset, fragment, now) <==>
      (fits && offset >= 8192) || forall k | 0 <= k < 8 :: k in m.acks || (fits && k == offset / 1024)
  {
    HandleDataShape(m, offset, fragment, now);
    var fits, stored := offset + |fragment| <= |m.data|, HandleData(m, offset, fragment, now);
    hide HandleData;
    assert forall k: nat :: k in stored.acks <==> k in m.acks || (fits && k == offset / 1024);
    assert Overflows(stored.acks, |stored.data|) <==> forall k | 0 <= k < 8 :: k in stored.acks;
  }

  /** Within it, this one does. */
  lemma EmptyFragmentAtEndThrows(m: InboundMessage, now: nat)
    requires |m.data| == MAX_LINK_MSG_SIZE
    ensures DataThrows(m, MAX_LINK_MSG_SIZE, [], now)
  {
  }

  lemma OnMackStep(tx: Tx, ids: seq<nat>, n: nat)
    requires n < |ids|
    ensures OnMack(tx, ids[n..]) == OnMack(AckOne(tx, ids[n]), ids[n + 1..])
  {
    assert ids[n..][1..] == ids[n + 1..];
  }

  class Session {
    const hash: Hash

    var txId: nat
    var txMsgs: map<nat, OutboundMessage>
    var totalAcked: int
    var totalDropped: int
    var totalInFlight: int
    /** calls of completion handlers */
    var completions: multiset<Completion>
    /** calls of the handlers of refused messages */
    var refused: nat

    var rxMsgs: map<nat, InboundMessage>
    var replayFilter: map<nat, nat>
    var sendMacks: multiset<nat>
    /** calls of the link layer's `HandleMessage` */
    var delivered: seq<Delivery>

    /** packets passed to `EncryptAndSend`, oldest first */
    var outbox: seq<Packet>

    ghost var sent: seq<Submitted>
    ghost var byMask: multiset<nat>
    ghost var expired: set<nat>
    ghost var openings: multiset<nat>

    ghost function TxView(): Tx
      reads this
    {
      Tx(txId, txMsgs, totalAcked, totalDropped, totalInFlight, sent, completions, byMask, refused)
    }

    ghost function RxView(): Rx
      reads this
    {
      Rx(rxMsgs, replayFilter, sendMacks, delivered, expired, openings)
    }

    ghost predicate Valid()
      reads this
    {
      TxKeyed(txMsgs) && RxKeyed(rxMsgs)
    }

    constructor (hash: Hash)
      ensures Valid()
      ensures this.hash == hash && TxView() == EMPTY_TX && RxView() == EMPTY_RX && outbox == []
    {
      this.hash := hash;
      txId, txMsgs, totalAcked, totalDropped, totalInFlight := 0, map[], 0, 0, 0;
      completions, byMask, refused := multiset{}, multiset{}, 0;
      rxMsgs, replayFilter, sendMacks, delivered := map[], map[], multiset{}, [];
      outbox := [];
      sent, expired, openings := [], {}, multiset{};
    }

    method SendMessageBuffer(data: seq<byte>, now: nat, priority: nat) returns (accepted: bool)
      requires Valid() && |data| <= MAX_LINK_MSG_SIZE
      modifies this`txId, this`txMsgs, this`totalInFlight, this`sent, this`refused, this`outbox
      ensures Valid()
      ensures accepted <==> |old(txMsgs)| < MAX_SEND_QUEUE_SIZE
      ensures TxView() == Submit(hash, old(TxView()), data, now, priority).0
      ensures outbox == old(outbox) + Submit(hash, old(TxView()), data, now, priority).1
    {
      hide Unacked, Xmit;
      ghost var (after, out) := Submit(hash, TxView(), data, now, priority);
      if |txMsgs| >= MAX_SEND_QUEUE_SIZE {
        refused := refused + 1;
        return false;
      }
      var msg := NewOutbound(hash, txId, data, now, priority);
      var packets := [Xmit(msg)];
      if |data| > FRAGMENT_SIZE {
        var fragments, flushed := FlushUnAcked(msg, now);
        packets := packets + fragments;
        assert flushed == msg;
        msg := flushed;
      }
      assert packets == out;
      txMsgs := txMsgs[txId := msg];
      assert txMsgs == after.msgs;
      txId := txId + 1;
      outbox := outbox + packets;
      totalInFlight := totalInFlight + 1;
      sent := sent + [Submitted(data, now)];
      return true;
    }

    method HandleACKS(txid: nat, mask: set<nat>, now: nat)
      requires Valid()
      modifies this`txMsgs, this`completions, this`byMask, this`outbox
      ensures Valid()
      ensures TxView() == OnAcks(old(TxView()), txid, mask, now).0
      ensures outbox == old(outbox) + OnAcks(old(TxView()), txid, mask, now).1
    {
      if txid !in txMsgs {
        return;
      }
      var msg := txMsgs[txid].(acks := mask);
      var transmitted, _ := AllAcked(msg.acks, |msg.data|);
      if transmitted {
        completions := completions + multiset{Completion(txid, Success)};
        byMask := byMask + multiset{txid};
        txMsgs := txMsgs - {txid};
      } else {
        var packets, flushed := FlushUnAcked(msg, now);
        outbox := outbox + packets;
        txMsgs := txMsgs[txid := flushed];
      }
    }

    method HandleNACK(txid: nat)
      requires Valid()
      modifies this`outbox
      ensures outbox == old(outbox) + OnNack(TxView(), txid)
    {
      if txid in txMsgs {
        outbox := outbox + [Xmit(txMsgs[txid])];
      }
    }

    /** One id of a MACK. */
    method AckMessage(acked: nat)
      requires Valid()
      modifies this`txMsgs, this`totalAcked, this`totalInFlight, this`completions
      ensures Valid() && TxView() == AckOne(old(TxView()), acked)
    {
      if acked in txMsgs {
        totalAcked := totalAcked + 1;
        totalInFlight := totalInFlight - 1;
        completions := completions + multiset{Completion(acked, Success)};
        txMsgs := txMsgs - {acked};
      }
    }

    method HandleMACK(ids: seq<nat>)
      requires Valid()
      modifies this`txMsgs, this`totalAcked, this`totalInFlight, this`completions
      ensures Valid()
      ensures TxView() == OnMack(old(TxView()), ids)
    {
      assert ids[0..] == ids;
      var n := 0;
      while n < |ids|
        invariant 0 <= n <= |ids|
        invariant Valid()
        invariant OnMack(TxView(), ids[n..]) == OnMack(old(TxView()), ids)
      {
        OnMackStep(TxView(), ids, n);
        hide OnMack, AckOne;
        AckMessage(ids[n]);
        n := n + 1;
      }
    }

    method HandleRecvMsgCompleted(msg: InboundMessage, now: nat)
      requires Valid()
      modifies this`rxMsgs, this`replayFilter, this`delivered, this`outbox
      ensures Valid()
      ensures RxView() == RecvCompleted(old(RxView()), msg, now).0
      ensures outbox == old(outbox) + RecvCompleted(old(RxView()), msg, now).1
    {
      if msg.msgId !in replayFilter {
        replayFilter := replayFilter[msg.msgId := now];
        delivered := delivered + [Delivery(msg.msgId, msg.data, now)];
        outbox := outbox + [ACKS(msg.msgId, msg.acks)];
      }
      rxMsgs := rxMsgs - {msg.msgId};
    }

    /** Both receive handlers, once `msg` has taken a fragment: complete it when nothing is missing. */
    method StoreFragment(msg: InboundMessage, now: nat) returns (threw: bool)
      requires Valid() && HasBits(msg.acks)
      modifies this`rxMsgs, this`replayFilter, this`delivered, this`outbox
      ensures Valid() && (threw <==> Overflows(msg.acks, |msg.data|))
      ensures RxView() == AfterFragment(hash, old(RxView()), msg, now).0
      ensures outbox == old(outbox) + AfterFragment(hash, old(RxView()), msg, now).1
    {
      hide Verify, RecvCompleted;
      rxMsgs := rxMsgs[msg.msgId := msg];
      var completed;
      completed, threw := AllAcked(msg.acks, |msg.data|);
      if threw {
        NotCovered(msg.acks, |msg.data|);
        return;
      }
      if completed {
        if Verify(hash, msg) {
          HandleRecvMsgCompleted(msg, now);
        }
      }
    }

    method HandleXMIT(size: nat, rxid: nat, digest: Digest, head: seq<byte>, now: nat)
      requires Valid()
      modifies this`rxMsgs, this`replayFilter, this`sendMacks, this`delivered, this`openings, this`outbox
      ensures Valid()
      ensures RxView() == OnXmit(hash, old(RxView()), size, rxid, digest, head, now).0
      ensures outbox == old(outbox) + OnXmit(hash, old(RxView()), size, rxid, digest, head, now).1
    {
      hide AfterFragment, HandleData;
      if rxid in replayFilter {
        sendMacks := sendMacks + multiset{rxid};
        return;
      }
      if rxid !in rxMsgs {
        var msg := NewInbound(rxid, size, digest, now);
        rxMsgs := rxMsgs[rxid := msg];
        openings := openings + multiset{rxid};
        if |head| == Min(size, FRAGMENT_SIZE) {
          HandleDataShape(msg, 0, head, now);
          // with one bit set the test ends before it can throw
          var _ := StoreFragment(HandleData(msg, 0, head, now), now);
        }
      }
    }

    /**
      Throws on a fragment that fits but lies beyond the eighth, after copying it, and when the first
      eight fragments of a longer message are there.
    */
    method HandleDATA(offset: nat, rxid: nat, fragment: seq<byte>, now: nat) returns (threw: bool)
      requires Valid()
      modifies this`rxMsgs, this`replayFilter, this`sendMacks, this`delivered, this`outbox
      ensures Valid()
      ensures threw <==> rxid in old(rxMsgs) && DataThrows(old(rxMsgs)[rxid], offset, fragment, now)
      ensures
        if rxid in old(rxMsgs) && BeyondMask(old(rxMsgs)[rxid], offset, fragment) then
          && RxView() == old(RxView()).(msgs := old(rxMsgs)[rxid := Copied(old(rxMsgs)[rxid], offset, fragment)])
          && outbox == old(outbox)
        else
          && RxView() == OnData(hash, old(RxView()), offset, rxid, fragment, now).0
          && outbox == old(outbox) + OnData(hash, old(RxView()), offset, rxid, fragment, now).1
    {
      hide AfterFragment, HandleData, Overflows;
      threw := false;
      if rxid !in rxMsgs {
        if rxid !in replayFilter {
          outbox := outbox + [NACK(rxid)];
        } else {
          sendMacks := sendMacks + multiset{rxid};
        }
        return;
      }
      var msg := rxMsgs[rxid];
      if offset + |fragment| <= |msg.data| && offset / FRAGMENT_SIZE >= MASK_BITS {
        rxMsgs := rxMsgs[rxid := Copied(msg, offset, fragment)];
        return true;
      }
      HandleDataShape(msg, offset, fragment, now);
      threw := StoreFragment(HandleData(msg, offset, fragment, now), now);
    }

    method Pump(now: nat)
      requires Valid()
      modifies this`rxMsgs, this`txMsgs, this`outbox
      ensures Valid()
      ensures TxView() == PumpTx(old(TxView()), now).0 && RxView() == PumpRx(old(RxView()), now).0
      ensures outbox == old(outbox) + PumpRx(old(RxView()), now).1 + PumpTx(old(TxView()), now).1
    {
      hide AckPackets, FlushAll, ResendOrder, TxDue;
      var noted, acks := AckRound(rxMsgs, now);
      rxMsgs := noted;
      var flushed, fragments := ResendRound(txMsgs, now);
      txMsgs := flushed;
      outbox := outbox + acks + fragments;
    }

    /** The part of `Tick` on outbound messages. */
    method DropLate(now: nat)
      requires Valid()
      modifies this`txMsgs, this`totalDropped, this`totalInFlight, this`completions
      ensures Valid() && TxView() == TickTx(old(TxView()), now)
    {
      hide Drops, TxLate;
      var kept, late := RemoveLateOutbound(txMsgs, now);
      txMsgs := kept;
      totalDropped := totalDropped + |late|;
      totalInFlight := totalInFlight - |late|;
      completions := completions + Drops(late);
    }

    /** The part of `Tick` on inbound messages and the replay filter. */
    method ExpireInbound(now: nat)
      requires Valid()
      modifies this`rxMsgs, this`replayFilter, this`expired
      ensures Valid() && RxView() == TickRx(old(RxView()), now)
    {
      var kept, filter, late := RemoveLateInbound(rxMsgs, replayFilter, now);
      assert RxKeyed(kept);
      rxMsgs := kept;
      expired := expired + late;
      replayFilter := DecayReplayFilter(filter, now);
    }

    method Tick(now: nat)
      requires Valid()
      modifies this`txMsgs, this`totalDropped, this`totalInFlight, this`completions
      modifies this`rxMsgs, this`replayFilter, this`expired
      ensures Valid()
      ensures TxView() == TickTx(old(TxView()), now) && RxView() == TickRx(old(RxView()), now)
    {
      DropLate(now);
      ExpireInbound(now);
    }

    method SendMACK()
      modifies this`sendMacks, this`outbox
      ensures sendMacks == multiset{}
      ensures outbox == old(outbox) + SendMacks(old(RxView())).1
    {
      var packets := BuildMacks(sendMacks);
      outbox := outbox + packets;
      sendMacks := multiset{};
    }
  }
}
