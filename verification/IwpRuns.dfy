/**
  Two established IWP sessions and the network between them, as a state machine over steps, and the
  guarantees of every run: any interleaving of submissions, timers and deliveries, with every loss,
  repetition, delay and reordering of packets in both directions.
*/
module IwpRuns {
  import opened Bytes
  import opened IwpMessages
  import opened IwpSession
  import opened IwpLink
  import opened IwpProgress
  import opened IwpTiming
  import opened IwpAccounting
  import opened Ordered

  datatype Who = A | B {
    function Other(): Who
    {
      if A? then B else A
    }
  }

  datatype Peer = Peer(tx: Tx, rx: Rx, lastTick: nat)

  /** `toA` and `toB` hold every packet ever sent to that peer, with its sending time. */
  datatype System = System(now: nat, a: Peer, b: Peer, toA: set<Flight>, toB: set<Flight>) {
    function Me(w: Who): Peer
    {
      if w.A? then a else b
    }

    function Inbox(w: Who): set<Flight>
    {
      if w.A? then toA else toB
    }

    /** Peer `w` moves to `p` and sends `packets`. */
    function Move(w: Who, p: Peer, packets: seq<Packet>): System
    {
      if w.A? then this.(a := p, toB := toB + Post(packets, now))
      else this.(b := p, toA := toA + Post(packets, now))
    }

    /** The direction in which `w` sends. */
    function From(w: Who): Link
    {
      Link(Me(w).tx, Me(w.Other()).rx, Inbox(w.Other()), Inbox(w), now)
    }
  }

  datatype Step =
    | Advance(to: nat)
    | Send(who: Who, data: seq<byte>, priority: nat)
    | Deliver(who: Who, flight: Flight)
    | FlushMacks(who: Who)
    | DoPump(who: Who)
    | DoTick(who: Who)

  const START := System(0, Peer(EMPTY_TX, EMPTY_RX, 0), Peer(EMPTY_TX, EMPTY_RX, 0), {}, {})

  /** Messages are within the size limit, clocks go forward, packets are not forged. */
  predicate Enabled(s: System, step: Step)
  {
    match step
    case Advance(to) => s.now <= to
    case Send(_, data, _) => |data| <= MAX_LINK_MSG_SIZE
    case Deliver(who, flight) => flight in s.Inbox(who)
    case _ => true
  }

  /** `HandlePlaintext` on one packet. */
  ghost function Handle(hash: Hash, me: Peer, p: Packet, now: nat): (Peer, seq<Packet>)
  {
    match p
    case XMIT(size, id, digest, head) =>
      var r := OnXmit(hash, me.rx, size, id, digest, head, now);
      (me.(rx := r.0), r.1)
    case DATA(offset, id, fragment) =>
      var r := OnData(hash, me.rx, offset, id, fragment, now);
      (me.(rx := r.0), r.1)
    case ACKS(id, mask) =>
      var r := OnAcks(me.tx, id, mask, now);
      (me.(tx := r.0), r.1)
    case NACK(id) => (me, OnNack(me.tx, id))
    case MACK(ids) => (me.(tx := OnMack(me.tx, ids)), [])
  }

  ghost function Apply(hash: Hash, s: System, step: Step): System
  {
    match step
    case Advance(to) => s.(now := to)
    case Send(who, data, priority) =>
      var r := Submit(hash, s.Me(who).tx, data, s.now, priority);
      s.Move(who, s.Me(who).(tx := r.0), r.1)
    case Deliver(who, flight) =>
      var r := Handle(hash, s.Me(who), flight.packet, s.now);
      s.Move(who, r.0, r.1)
    case FlushMacks(who) =>
      var r := SendMacks(s.Me(who).rx);
      s.Move(who, s.Me(who).(rx := r.0), r.1)
    case DoPump(who) =>
      var acks := PumpRx(s.Me(who).rx, s.now);
      var mid := s.Move(who, s.Me(who).(rx := acks.0), acks.1);
      var resends := PumpTx(mid.Me(who).tx, s.now);
      mid.Move(who, mid.Me(who).(tx := resends.0), resends.1)
    case DoTick(who) =>
      var me := s.Me(who);
      s.Move(who, Peer(TickTx(me.tx, s.now), TickRx(me.rx, s.now), s.now), [])
  }

  /** The steps can be taken one after the other. */
  ghost predicate Legal(hash: Hash, s: System, steps: seq<Step>)
    decreases |steps|
  {
    steps == [] || (Enabled(s, steps[0]) && Legal(hash, Apply(hash, s, steps[0]), steps[1..]))
  }

  ghost function Exec(hash: Hash, s: System, steps: seq<Step>): System
    decreases |steps|
  {
    if steps == [] then s else Exec(hash, Apply(hash, s, steps[0]), steps[1..])
  }

  ghost predicate GoodLink(hash: Hash, l: Link)
  {
    Safe(hash, l) && Retransmits(l)
  }

  // ----------------------------------------------------- one step keeps the invariant

  /** How one peer's move looks in the two directions. */
  lemma MoveViews(s: System, w: Who, p: Peer, packets: seq<Packet>)
    ensures
      var s' := s.Move(w, p, packets);
      && s'.From(w) == s.From(w).(tx := p.tx, forward := s.From(w).forward + Post(packets, s.now))
      && s'.From(w.Other()) == s.From(w.Other()).(rx := p.rx, back := s.From(w.Other()).back + Post(packets, s.now))
      && s'.now == s.now && s'.Me(w) == p && s'.Me(w.Other()) == s.Me(w.Other())
  {
  }

  lemma ForeignForward(hash: Hash, l: Link, packets: seq<Packet>)
    requires GoodLink(hash, l) && forall p | p in packets :: p.ACKS? || p.NACK? || p.MACK?
    ensures GoodLink(hash, l.(forward := l.forward + Post(packets, l.now)))
  {
    var l' := l.(forward := l.forward + Post(packets, l.now));
    SafeForeign(hash, l, Post(packets, l.now), {}, l.now);
    assert l.back + {} == l.back;
  }

  lemma ForeignBack(hash: Hash, l: Link, packets: seq<Packet>)
    requires GoodLink(hash, l) && forall p | p in packets :: p.XMIT? || p.DATA?
    ensures GoodLink(hash, l.(back := l.back + Post(packets, l.now)))
  {
    SafeForeign(hash, l, {}, Post(packets, l.now), l.now);
    assert l.forward + {} == l.forward;
  }

  ghost predicate GoodPeer(p: Peer, now: nat)
  {
    Spaced(p.rx, now) && Counted(p.tx)
  }

  ghost predicate Good(hash: Hash, s: System)
  {
    && GoodLink(hash, s.From(A)) && GoodLink(hash, s.From(B))
    && GoodPeer(s.a, s.now) && GoodPeer(s.b, s.now)
  }

  lemma GoodEither(hash: Hash, s: System, w: Who)
    ensures Good(hash, s) <==>
      (GoodLink(hash, s.From(w)) && GoodLink(hash, s.From(w.Other()))
       && GoodPeer(s.Me(w), s.now) && GoodPeer(s.Me(w.Other()), s.now))
  {
    hide Safe, Retransmits, Spaced, Counted;
  }

  /** The sending side of `w` moves; its packets are foreign to the direction it receives in. */
  lemma SenderMoves(hash: Hash, s: System, w: Who, tx': Tx, packets: seq<Packet>)
    requires Good(hash, s) && Counted(tx')
    requires forall p | p in packets :: p.XMIT? || p.DATA?
    requires GoodLink(hash, s.From(w).(tx := tx', forward := s.From(w).forward + Post(packets, s.now)))
    ensures Good(hash, s.Move(w, s.Me(w).(tx := tx'), packets))
  {
    hide Safe, Retransmits, Spaced, Counted;
    var p := s.Me(w).(tx := tx');
    GoodEither(hash, s, w);
    MoveViews(s, w, p, packets);
    ForeignBack(hash, s.From(w.Other()), packets);
    GoodEither(hash, s.Move(w, p, packets), w);
  }

  /** The receiving side of `w` moves; its packets are foreign to the direction it sends in. */
  lemma ReceiverMoves(hash: Hash, s: System, w: Who, rx': Rx, packets: seq<Packet>)
    requires Good(hash, s) && Spaced(rx', s.now)
    requires forall p | p in packets :: p.ACKS? || p.NACK? || p.MACK?
    requires
      var l := s.From(w.Other());
      GoodLink(hash, l.(rx := rx', back := l.back + Post(packets, s.now)))
    ensures Good(hash, s.Move(w, s.Me(w).(rx := rx'), packets))
  {
    hide Safe, Retransmits, Spaced, Counted;
    var p := s.Me(w).(rx := rx');
    GoodEither(hash, s, w);
    MoveViews(s, w, p, packets);
    ForeignForward(hash, s.From(w), packets);
    GoodEither(hash, s.Move(w, p, packets), w);
  }

  lemma SafeTxOk(hash: Hash, l: Link)
    requires Safe(hash, l)
    ensures TxOk(hash, l.tx, l.now)
  {
  }

  lemma TruthfulFlight(hash: Hash, l: Link, f: Flight)
    requires Safe(hash, l) && f in l.back
    ensures Truthful(l.tx.sent, l.rx, f.packet) && TxOk(hash, l.tx, l.now)
  {
  }

  lemma HonestFlight(hash: Hash, l: Link, f: Flight)
    requires Safe(hash, l) && f in l.forward
    ensures Honest(hash, l.tx.sent, f.packet)
  {
  }

  lemma GoodSend(hash: Hash, s: System, w: Who, data: seq<byte>, priority: nat)
    requires Good(hash, s) && |data| <= MAX_LINK_MSG_SIZE
    ensures Good(hash, Apply(hash, s, Send(w, data, priority)))
  {
    hide Safe, Retransmits, Spaced, Counted;
    GoodEither(hash, s, w);
    var l := s.From(w);
    var r := Submit(hash, l.tx, data, s.now, priority);
    SafeSubmit(hash, l, data, priority);
    RetransmitsSubmit(hash, l, data, priority);
    CountedSubmit(hash, l.tx, data, s.now, priority);
    SafeTxOk(hash, l);
    SubmitIsSenderStep(hash, l.tx, data, s.now, priority);
    SenderMoves(hash, s, w, r.0, r.1);
  }

  lemma GoodOnAcks(hash: Hash, s: System, w: Who, f: Flight)
    requires Good(hash, s) && f in s.Inbox(w) && f.packet.ACKS?
    ensures Good(hash, Apply(hash, s, Deliver(w, f)))
  {
    hide Safe, Retransmits, Spaced, Counted;
    GoodEither(hash, s, w);
    var l := s.From(w);
    var r := OnAcks(l.tx, f.packet.id, f.packet.mask, s.now);
    TruthfulFlight(hash, l, f);
    SafeOnAcks(hash, l, f.packet.id, f.packet.mask);
    RetransmitsOnAcks(hash, l, f);
    CountedOnAcks(l.tx, f.packet.id, f.packet.mask, s.now);
    OnAcksIsSenderStep(hash, l.tx, f.packet.id, f.packet.mask, s.now);
    SenderMoves(hash, s, w, r.0, r.1);
  }

  lemma GoodOnNack(hash: Hash, s: System, w: Who, f: Flight)
    requires Good(hash, s) && f in s.Inbox(w) && f.packet.NACK?
    ensures Good(hash, Apply(hash, s, Deliver(w, f)))
  {
    hide Safe, Retransmits, Spaced, Counted;
    GoodEither(hash, s, w);
    var l := s.From(w);
    SafeOnNack(hash, l, f.packet.id);
    RetransmitsOnNack(hash, l, f);
    assert s.Me(w) == s.Me(w).(tx := l.tx);
    SenderMoves(hash, s, w, l.tx, OnNack(l.tx, f.packet.id));
  }

  lemma GoodOnMack(hash: Hash, s: System, w: Who, f: Flight)
    requires Good(hash, s) && f in s.Inbox(w) && f.packet.MACK?
    ensures Good(hash, Apply(hash, s, Deliver(w, f)))
  {
    hide Safe, Retransmits, Spaced, Counted;
    GoodEither(hash, s, w);
    var l := s.From(w);
    var tx' := OnMack(l.tx, f.packet.ids);
    TruthfulFlight(hash, l, f);
    SafeOnMack(hash, l, f.packet.ids);
    OnMackRemoves(l.tx, f.packet.ids);
    RetransmitsRemoval(l, tx');
    CountedOnMack(l.tx, f.packet.ids);
    assert l.forward + Post([], s.now) == l.forward;
    SenderMoves(hash, s, w, tx', []);
  }

  lemma GoodOnXmit(hash: Hash, s: System, w: Who, f: Flight)
    requires Good(hash, s) && f in s.Inbox(w) && f.packet.XMIT?
    ensures Good(hash, Apply(hash, s, Deliver(w, f)))
  {
    hide Safe, Retransmits, Spaced, Counted;
    GoodEither(hash, s, w);
    var l := s.From(w.Other());
    var p := f.packet;
    assert f in l.forward;
    HonestFlight(hash, l, f);
    var r := OnXmit(hash, l.rx, p.size, p.id, p.digest, p.head, s.now);
    SafeOnXmit(hash, l, p);
    RetransmitsOnXmit(hash, l, p);
    SpacedOnXmit(hash, l.rx, p, s.now);
    ReceiverMoves(hash, s, w, r.0, r.1);
  }

  lemma GoodOnData(hash: Hash, s: System, w: Who, f: Flight)
    requires Good(hash, s) && f in s.Inbox(w) && f.packet.DATA?
    ensures Good(hash, Apply(hash, s, Deliver(w, f)))
  {
    hide Safe, Retransmits, Spaced, Counted;
    GoodEither(hash, s, w);
    var l := s.From(w.Other());
    var p := f.packet;
    assert f in l.forward;
    HonestFlight(hash, l, f);
    var r := OnData(hash, l.rx, p.offset, p.id, p.fragment, s.now);
    SafeOnData(hash, l, p);
    RetransmitsOnData(hash, l, p);
    SpacedOnData(hash, l.rx, p, s.now);
    ReceiverMoves(hash, s, w, r.0, r.1);
  }

  lemma GoodFlushMacks(hash: Hash, s: System, w: Who)
    requires Good(hash, s)
    ensures Good(hash, Apply(hash, s, FlushMacks(w)))
  {
    hide Safe, Retransmits, Spaced, Counted;
    GoodEither(hash, s, w);
    var l := s.From(w.Other());
    var r := SendMacks(l.rx);
    SafeSendMacks(hash, l);
    RetransmitsSendMacks(l);
    SpacedQuiet(l.rx, s.now, s.now);
    MackBatching(l.rx);
    ReceiverMoves(hash, s, w, r.0, r.1);
  }

  lemma GoodPumpRx(hash: Hash, s: System, w: Who)
    requires Good(hash, s)
    ensures var r := PumpRx(s.Me(w).rx, s.now); Good(hash, s.Move(w, s.Me(w).(rx := r.0), r.1))
  {
    hide Safe, Retransmits, Spaced, Counted;
    GoodEither(hash, s, w);
    var l := s.From(w.Other());
    var r := PumpRx(l.rx, s.now);
    SafePumpRx(hash, l);
    RetransmitsPumpRx(hash, l);
    SpacedQuiet(l.rx, s.now, s.now);
    AcksOnly(l.rx, s.now);
    ReceiverMoves(hash, s, w, r.0, r.1);
  }

  lemma AcksOnly(rx: Rx, now: nat)
    ensures forall p | p in PumpRx(rx, now).1 :: p.ACKS?
  {
    AscendingContents(rx.msgs.Keys);
    forall p | p in PumpRx(rx, now).1
      ensures p.ACKS?
    {
      AckPacketsContents(rx.msgs, Ascending(rx.msgs.Keys), now, p);
    }
  }

  lemma GoodPumpTx(hash: Hash, s: System, w: Who)
    requires Good(hash, s)
    ensures var r := PumpTx(s.Me(w).tx, s.now); Good(hash, s.Move(w, s.Me(w).(tx := r.0), r.1))
  {
    hide Safe, Retransmits, Spaced, Counted;
    GoodEither(hash, s, w);
    var l := s.From(w);
    var r := PumpTx(l.tx, s.now);
    SafePumpTx(hash, l);
    RetransmitsPumpTx(hash, l);
    CountedPumpTx(l.tx, s.now);
    SafeTxOk(hash, l);
    PumpTxIsSenderStep(hash, l.tx, s.now);
    SenderMoves(hash, s, w, r.0, r.1);
  }

  lemma GoodPump(hash: Hash, s: System, w: Who)
    requires Good(hash, s)
    ensures Good(hash, Apply(hash, s, DoPump(w)))
  {
    hide Good, PumpRx, PumpTx;
    GoodPumpRx(hash, s, w);
    var acks := PumpRx(s.Me(w).rx, s.now);
    GoodPumpTx(hash, s.Move(w, s.Me(w).(rx := acks.0), acks.1), w);
  }

  lemma TickTxRemoves(tx: Tx, now: nat)
    ensures TickTx(tx, now).sent == tx.sent
    ensures forall id | id in TickTx(tx, now).msgs :: id in tx.msgs && TickTx(tx, now).msgs[id] == tx.msgs[id]
  {
  }

  lemma GoodTickTx(hash: Hash, s: System, w: Who)
    requires Good(hash, s)
    ensures Good(hash, s.Move(w, s.Me(w).(tx := TickTx(s.Me(w).tx, s.now)), []))
  {
    hide Safe, Retransmits, Spaced, Counted, TickTx;
    GoodEither(hash, s, w);
    var l := s.From(w);
    SafeTickTx(hash, l);
    TickTxRemoves(l.tx, s.now);
    RetransmitsRemoval(l, TickTx(l.tx, s.now));
    CountedTickTx(l.tx, s.now);
    assert l.forward + Post([], s.now) == l.forward;
    SenderMoves(hash, s, w, TickTx(l.tx, s.now), []);
  }

  lemma GoodTickRx(hash: Hash, s: System, w: Who)
    requires Good(hash, s)
    ensures Good(hash, s.Move(w, s.Me(w).(rx := TickRx(s.Me(w).rx, s.now)), []))
  {
    hide Safe, Retransmits, Spaced, Counted, TickRx;
    GoodEither(hash, s, w);
    var l := s.From(w.Other());
    SafeTickRx(hash, l);
    RetransmitsTickRx(l);
    SpacedTickRx(l.rx, s.now);
    assert l.back + Post([], s.now) == l.back;
    ReceiverMoves(hash, s, w, TickRx(l.rx, s.now), []);
  }

  lemma GoodTick(hash: Hash, s: System, w: Who)
    requires Good(hash, s)
    ensures Good(hash, Apply(hash, s, DoTick(w)))
  {
    hide Good, TickTx, TickRx;
    GoodTickTx(hash, s, w);
    var mid := s.Move(w, s.Me(w).(tx := TickTx(s.Me(w).tx, s.now)), []);
    GoodTickRx(hash, mid, w);
    var last := mid.Move(w, mid.Me(w).(rx := TickRx(s.Me(w).rx, s.now)), []);
    assert Post([], s.now) == {};
    LastTickIrrelevant(hash, last, Apply(hash, s, DoTick(w)));
  }

  lemma LastTickIrrelevant(hash: Hash, s: System, s': System)
    requires Good(hash, s)
    requires s' == s.(a := s.a.(lastTick := s'.a.lastTick), b := s.b.(lastTick := s'.b.lastTick))
    ensures Good(hash, s')
  {
    hide Safe, Retransmits, Spaced, Counted;
    assert s'.From(A) == s.From(A) && s'.From(B) == s.From(B);
  }

  lemma GoodAdvance(hash: Hash, s: System, to: nat)
    requires Good(hash, s) && s.now <= to
    ensures Good(hash, s.(now := to))
  {
    hide Safe, Retransmits, Spaced, Counted;
    GoodLater(hash, s.From(A), to);
    GoodLater(hash, s.From(B), to);
    SpacedQuiet(s.a.rx, s.now, to);
    SpacedQuiet(s.b.rx, s.now, to);
  }

  lemma GoodLater(hash: Hash, l: Link, to: nat)
    requires GoodLink(hash, l) && l.now <= to
    ensures GoodLink(hash, l.(now := to))
  {
    SafeForeign(hash, l, {}, {}, to);
    assert l.forward + {} == l.forward && l.back + {} == l.back;
  }

  lemma GoodStep(hash: Hash, s: System, step: Step)
    requires Good(hash, s) && Enabled(s, step)
    ensures Good(hash, Apply(hash, s, step))
  {
    hide Good;
    match step
    case Advance(to) => GoodAdvance(hash, s, to);
    case Send(who, data, priority) => GoodSend(hash, s, who, data, priority);
    case FlushMacks(who) => GoodFlushMacks(hash, s, who);
    case DoPump(who) => GoodPump(hash, s, who);
    case DoTick(who) => GoodTick(hash, s, who);
    case Deliver(who, f) =>
      match f.packet
      case XMIT(_, _, _, _) => GoodOnXmit(hash, s, who, f);
      case DATA(_, _, _) => GoodOnData(hash, s, who, f);
      case ACKS(_, _) => GoodOnAcks(hash, s, who, f);
      case NACK(_) => GoodOnNack(hash, s, who, f);
      case MACK(_) => GoodOnMack(hash, s, who, f);
  }

  lemma {:induction false} GoodRun(hash: Hash, s: System, steps: seq<Step>)
    requires Good(hash, s) && Legal(hash, s, steps)
    ensures Good(hash, Exec(hash, s, steps))
    decreases |steps|
  {
    hide Good;
    if steps != [] {
      GoodStep(hash, s, steps[0]);
      GoodRun(hash, Apply(hash, s, steps[0]), steps[1..]);
    }
  }

  // ----------------------------------------------------------- guarantees of every run

  ghost predicate Reachable(hash: Hash, s: System)
  {
    exists steps :: Legal(hash, START, steps) && s == Exec(hash, START, steps)
  }

  lemma EmptyPeer()
    ensures GoodPeer(Peer(EMPTY_TX, EMPTY_RX, 0), 0)
  {
  }

  lemma EmptyLink(hash: Hash)
    ensures GoodLink(hash, Link(EMPTY_TX, EMPTY_RX, {}, {}, 0))
  {
  }

  lemma GoodStart(hash: Hash)
    ensures Good(hash, START)
  {
    hide GoodLink, GoodPeer;
    EmptyLink(hash);
    EmptyPeer();
  }

  lemma ReachableIsGood(hash: Hash, s: System)
    requires Reachable(hash, s)
    ensures Good(hash, s)
  {
    hide Good;
    GoodStart(hash);
    var steps :| Legal(hash, START, steps) && s == Exec(hash, START, steps);
    GoodRun(hash, START, steps);
  }

  /** Whatever a peer hands to its upper layer under an id is what the other peer submitted under that id. */
  lemma ReassemblyIsFaithful(hash: Hash, s: System, w: Who)
    requires Reachable(hash, s)
    ensures forall d | d in s.Me(w).rx.delivered ::
      d.id < |s.Me(w.Other()).tx.sent| && d.data == s.Me(w.Other()).tx.sent[d.id].data
  {
    hide Spaced, Counted;
    ReachableIsGood(hash, s);
    GoodEither(hash, s, w.Other());
  }

  /** A handler reports success only for messages the peer has delivered, or given up on after a time-out. */
  lemma SuccessIsSound(hash: Hash, s: System, w: Who, id: nat)
    requires Reachable(hash, s) && Completion(id, Success) in s.Me(w).tx.completions
    ensures Settled(s.Me(w.Other()).rx, id)
  {
    hide Spaced, Counted;
    ReachableIsGood(hash, s);
    GoodEither(hash, s, w);
  }

  lemma SpacedMeans(rx: Rx, now: nat)
    requires Spaced(rx, now)
    ensures rx.msgs.Keys !! rx.replay.Keys
    ensures forall i, j | 0 <= i < j < |rx.delivered| && rx.delivered[i].id == rx.delivered[j].id ::
      rx.delivered[i].at + 1200 <= rx.delivered[j].at
  {
  }

  /**
    Open entries and the replay filter never share an id, and one id is never delivered twice within a
    replay window.
  */
  lemma DeliveriesAreSpaced(hash: Hash, s: System, w: Who)
    requires Reachable(hash, s)
    ensures var rx := s.Me(w).rx;
      && rx.msgs.Keys !! rx.replay.Keys
      && (forall i, j | 0 <= i < j < |rx.delivered| && rx.delivered[i].id == rx.delivered[j].id ::
            rx.delivered[i].at + 1200 <= rx.delivered[j].at)
  {
    hide Safe, Retransmits, Spaced, Counted;
    ReachableIsGood(hash, s);
    GoodEither(hash, s, w);
    SpacedMeans(s.Me(w).rx, s.now);
  }

  /**
    Every accepted message is queued with no handler call or gone with exactly one; accepted messages are
    acknowledged, dropped or in flight, and in flight counts the queued ones and those a mask completed.
  */
  lemma SendsAreAccounted(hash: Hash, s: System, w: Who)
    requires Reachable(hash, s)
    ensures var tx := s.Me(w).tx;
      && (forall id | 0 <= id < |tx.sent| :: Calls(tx, id) == if id in tx.msgs then 0 else 1)
      && |tx.sent| == tx.acked + tx.dropped + tx.inFlight
      && tx.inFlight == |tx.msgs| + |tx.byMask|
      && (forall id | id in tx.byMask :: id < |tx.sent| && id !in tx.msgs && tx.byMask[id] == 1)
  {
    hide Safe, Retransmits, Spaced;
    ReachableIsGood(hash, s);
    GoodEither(hash, s, w);
    var tx := s.Me(w).tx;
    forall id | id in tx.byMask
      ensures id < |tx.sent| && id !in tx.msgs && tx.byMask[id] == 1
    {
      assert Calls(tx, id) >= tx.byMask[id] > 0;
    }
  }

  /** The submissions of one peer in a run. */
  function Submissions(steps: seq<Step>, w: Who): nat
  {
    if steps == [] then 0
    else (if steps[0].Send? && steps[0].who == w then 1 else 0) + Submissions(steps[1..], w)
  }

  ghost function Answered(s: System, w: Who): nat
  {
    |s.Me(w).tx.sent| + s.Me(w).tx.refused
  }

  lemma {:induction false} MackSends(tx: Tx, ids: seq<nat>)
    ensures OnMack(tx, ids).sent == tx.sent && OnMack(tx, ids).refused == tx.refused
    decreases |ids|
  {
    if ids != [] {
      MackSends(AckOne(tx, ids[0]), ids[1..]);
    }
  }

  lemma StepAnswers(hash: Hash, s: System, step: Step, w: Who)
    ensures
      Answered(Apply(hash, s, step), w) == Answered(s, w) + if step.Send? && step.who == w then 1 else 0
  {
    hide OnXmit, OnData, PumpRx, TickRx, SendMacks, Unacked;
    if step.Deliver? && step.flight.packet.MACK? {
      MackSends(s.Me(step.who).tx, step.flight.packet.ids);
    }
  }

  /** Every submission of a run is accepted or refused, and a refused one has had its handler called. */
  lemma {:induction false} SubmissionsAreAnswered(hash: Hash, s: System, steps: seq<Step>, w: Who)
    ensures Answered(Exec(hash, s, steps), w) == Answered(s, w) + Submissions(steps, w)
    decreases |steps|
  {
    hide Apply, Answered;
    if steps != [] {
      StepAnswers(hash, s, steps[0], w);
      SubmissionsAreAnswered(hash, Apply(hash, s, steps[0]), steps[1..], w);
    }
  }

  /** The first tick past a message's delivery timeout finds or makes its handler called, exactly once. */
  lemma HandlerCalledByTick(hash: Hash, s: System, w: Who, id: nat)
    requires Reachable(hash, s) && id < |s.Me(w).tx.sent| && s.Me(w).tx.sent[id].at + DELIVERY_TIMEOUT < s.now
    ensures Calls(Apply(hash, s, DoTick(w)).Me(w).tx, id) == 1
  {
    hide Safe, Retransmits, Spaced, TickTx, TickRx, Counted;
    ReachableIsGood(hash, s);
    GoodEither(hash, s, w);
    CountedTickTx(s.Me(w).tx, s.now);
  }

  /** While the peer holds its first entry for a message, one flush that arrives completely delivers it. */
  lemma OneFlushCompletes(hash: Hash, s: System, w: Who, id: nat, round: seq<Packet>)
    requires Reachable(hash, s) && id in s.Me(w).tx.msgs && FirstEntry(s.Me(w.Other()).rx, id)
    requires FragmentsOf(s.Me(w).tx.sent, id, round)
    requires forall p | p in Unacked(s.Me(w).tx.msgs[id], 0) :: p in round
    ensures id < |s.Me(w).tx.sent|
    ensures RunData(hash, s.Me(w.Other()).rx, round, s.now).delivered ==
      s.Me(w.Other()).rx.delivered + [Delivery(id, s.Me(w).tx.sent[id].data, s.now)]
  {
    hide Spaced, Counted;
    ReachableIsGood(hash, s);
    GoodEither(hash, s, w);
    assert OutboundOk(hash, s.Me(w).tx.sent, id, s.Me(w).tx.msgs[id]);
    FlushCompletes(hash, s.From(w), id, round);
  }

  /**
    A lost XMIT of a message of several fragments is repaired by the next flush: each of its packets
    draws a NACK, the NACK draws the XMIT again, and the same flush then delivers the message.
  */
  lemma LostXmitsAreRepaired(hash: Hash, s: System, w: Who, id: nat)
    requires Reachable(hash, s) && id in s.Me(w).tx.msgs && id !in s.Me(w.Other()).rx.openings
    requires |s.Me(w).tx.msgs[id].data| > FRAGMENT_SIZE
    ensures id < |s.Me(w).tx.sent|
    ensures
      var tx, rx := s.Me(w).tx, s.Me(w.Other()).rx;
      var flush, xmit := Unacked(tx.msgs[id], 0), Xmit(tx.msgs[id]);
      && flush != []
      && (forall p | p in flush :: p.DATA? && OnData(hash, rx, p.offset, p.id, p.fragment, s.now) == (rx, [NACK(id)]))
      && OnNack(tx, id) == [xmit]
      && (var (rx', _) := OnXmit(hash, rx, xmit.size, xmit.id, xmit.digest, xmit.head, s.now);
          RunData(hash, rx', flush, s.now).delivered == rx.delivered + [Delivery(id, tx.sent[id].data, s.now)])
  {
    hide Spaced, Counted, OnData, OnXmit, Unacked, RunData;
    ReachableIsGood(hash, s);
    GoodEither(hash, s, w);
    assert OutboundOk(hash, s.Me(w).tx.sent, id, s.Me(w).tx.msgs[id]);
    LostXmitIsRepaired(hash, s.From(w), id);
  }

  /** Between two peers that run this code, no fragment makes an entry throw. */
  lemma ReachableNeverThrows(hash: Hash, s: System, w: Who, f: Flight)
    requires Reachable(hash, s) && f in s.Inbox(w) && f.packet.DATA? && f.packet.id in s.Me(w).rx.msgs
    ensures !DataThrows(s.Me(w).rx.msgs[f.packet.id], f.packet.offset, f.packet.fragment, s.now)
  {
    hide Spaced, Counted, DataThrows, Covers;
    ReachableIsGood(hash, s);
    GoodEither(hash, s, w.Other());
    var m := s.Me(w).rx.msgs[f.packet.id];
    HonestFlight(hash, s.From(w.Other()), f);
    assert InboundOk(hash, s.Me(w.Other()).tx.sent, f.packet.id, m);
    InLimitThrowsExactly(m, f.packet.offset, f.packet.fragment, s.now);
  }

  /** A message of one fragment is on the wire once, from its submission: no step ever sends it again. */
  lemma SmallMessagesAreSentOnce(hash: Hash, s: System, w: Who, f: Flight)
    requires Reachable(hash, s) && f in s.Inbox(w.Other()) && (f.packet.XMIT? || f.packet.DATA?)
    ensures f.packet.id < |s.Me(w).tx.sent|
    ensures var m := s.Me(w).tx.sent[f.packet.id];
      |m.data| <= FRAGMENT_SIZE ==> f == Flight(XMIT(|m.data|, f.packet.id, hash(m.data), m.data), m.at)
  {
    hide Spaced, Counted;
    ReachableIsGood(hash, s);
    GoodEither(hash, s, w);
    SmallMessagesAreNeverResent(hash, s.From(w), f);
  }
}
