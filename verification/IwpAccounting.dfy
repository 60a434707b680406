/**
  Accounting on the sending side, for any packets whatsoever: every accepted message has its handler
  called exactly once, and the three counters always add up to the number of accepted messages.
*/
module IwpAccounting {
  import opened Bytes
  import opened IwpMessages
  import opened IwpSession

  /** How often the handler of message `id` was called. */
  ghost function Calls(tx: Tx, id: nat): nat
  {
    tx.completions[Completion(id, Success)] + tx.completions[Completion(id, Dropped)]
  }

  /** Queued messages carry the time of their submission. */
  ghost predicate Stamped(tx: Tx)
  {
    && tx.nextId == |tx.sent|
    && (forall id | id in tx.msgs :: id < tx.nextId && tx.msgs[id].startedAt == tx.sent[id].at)
  }

  /** The handler of every accepted message is called once, when the message leaves the queue. */
  ghost predicate CalledOnce(tx: Tx)
  {
    && (forall id: nat :: Calls(tx, id) == if id < tx.nextId && id !in tx.msgs then 1 else 0)
    && (forall id :: tx.byMask[id] <= tx.completions[Completion(id, Success)])
  }

  ghost predicate Counted(tx: Tx)
  {
    && Stamped(tx) && CalledOnce(tx)
    && tx.nextId == |tx.msgs| + |tx.completions|
    && tx.nextId == tx.acked + tx.dropped + tx.inFlight
    && 0 <= tx.acked && 0 <= tx.dropped && |tx.completions| == tx.acked + tx.dropped + |tx.byMask|
  }

  lemma SameCalls(tx: Tx, tx': Tx, id: nat)
    requires tx'.completions == tx.completions
    ensures Calls(tx', id) == Calls(tx, id)
  {
  }

  lemma CountedRefused(tx: Tx, refused: nat)
    requires Counted(tx)
    ensures Counted(tx.(refused := refused))
  {
    hide Calls;
    forall id: nat {
      SameCalls(tx, tx.(refused := refused), id);
    }
  }

  function Accepted(tx: Tx, m: OutboundMessage, data: seq<byte>): Tx
  {
    tx.(nextId := tx.nextId + 1, msgs := tx.msgs[tx.nextId := m], inFlight := tx.inFlight + 1,
        sent := tx.sent + [Submitted(data, m.startedAt)])
  }

  lemma AcceptedIsCalledOnce(tx: Tx, m: OutboundMessage, data: seq<byte>)
    requires Stamped(tx) && CalledOnce(tx)
    ensures CalledOnce(Accepted(tx, m, data))
  {
    hide Calls;
    var tx' := Accepted(tx, m, data);
    forall id: nat
      ensures Calls(tx', id) == if id < tx'.nextId && id !in tx'.msgs then 1 else 0
    {
      SameCalls(tx, tx', id);
    }
  }

  lemma AcceptedIsStamped(tx: Tx, m: OutboundMessage, data: seq<byte>)
    requires Stamped(tx)
    ensures Stamped(Accepted(tx, m, data)) && tx.nextId !in tx.msgs
  {
  }

  lemma OneMore(msgs: map<nat, OutboundMessage>, id: nat, m: OutboundMessage)
    requires id !in msgs
    ensures |msgs[id := m]| == |msgs| + 1
  {
    assert msgs[id := m].Keys == msgs.Keys + {id};
  }

  lemma CountedAccepted(tx: Tx, m: OutboundMessage, data: seq<byte>)
    requires Counted(tx)
    ensures Counted(Accepted(tx, m, data))
  {
    hide CalledOnce, Stamped;
    AcceptedIsCalledOnce(tx, m, data);
    AcceptedIsStamped(tx, m, data);
    OneMore(tx.msgs, tx.nextId, m);
  }

  lemma CountedSubmit(hash: Hash, tx: Tx, data: seq<byte>, now: nat, priority: nat)
    requires Counted(tx)
    ensures Counted(Submit(hash, tx, data, now, priority).0)
  {
    hide Unacked, Xmit, Counted;
    CountedRefused(tx, tx.refused + 1);
    CountedAccepted(tx, NewOutbound(hash, tx.nextId, data, now, priority), data);
  }

  lemma CompletedOnce(tx: Tx, id: nat, msgs': map<nat, OutboundMessage>, completions': multiset<Completion>)
    requires Counted(tx) && id in tx.msgs
    requires msgs' == tx.msgs - {id} && completions' == tx.completions + multiset{Completion(id, Success)}
    ensures |msgs'| == |tx.msgs| - 1 && |completions'| == |tx.completions| + 1
    ensures forall i: nat :: Calls(tx.(completions := completions'), i) == if i < tx.nextId && i !in msgs' then 1 else 0
  {
    assert msgs'.Keys == tx.msgs.Keys - {id};
    forall i: nat
      ensures Calls(tx.(completions := completions'), i) == if i < tx.nextId && i !in msgs' then 1 else 0
    {
      assert Calls(tx, i) == if i < tx.nextId && i !in tx.msgs then 1 else 0;
    }
  }

  /** A completion by ACKS leaves all three counters alone, so `inFlight` keeps counting the message. */
  lemma CountedOnAcks(tx: Tx, id: nat, mask: set<nat>, now: nat)
    requires Counted(tx)
    ensures var tx' := OnAcks(tx, id, mask, now).0;
      && Counted(tx') && (tx'.acked, tx'.dropped, tx'.inFlight) == (tx.acked, tx.dropped, tx.inFlight)
      && (id in tx.msgs && Covers(mask, |tx.msgs[id].data|) ==> tx'.byMask == tx.byMask + multiset{id})
  {
    var tx' := OnAcks(tx, id, mask, now).0;
    if id in tx.msgs {
      if Covers(mask, |tx.msgs[id].data|) {
        CompletedOnce(tx, id, tx'.msgs, tx'.completions);
        assert forall i: nat :: Calls(tx', i) == Calls(tx.(completions := tx'.completions), i);
      } else {
        assert tx'.msgs.Keys == tx.msgs.Keys;
        forall i: nat
          ensures Calls(tx', i) == if i < tx'.nextId && i !in tx'.msgs then 1 else 0
        {
          assert Calls(tx', i) == Calls(tx, i);
        }
      }
    }
  }

  lemma CountedAckOne(tx: Tx, id: nat)
    requires Counted(tx)
    ensures Counted(AckOne(tx, id))
  {
    var tx' := AckOne(tx, id);
    if id in tx.msgs {
      CompletedOnce(tx, id, tx'.msgs, tx'.completions);
      assert forall i: nat :: Calls(tx', i) == Calls(tx.(completions := tx'.completions), i);
    }
  }

  lemma {:induction false} CountedOnMack(tx: Tx, ids: seq<nat>)
    requires Counted(tx)
    ensures Counted(OnMack(tx, ids))
    decreases |ids|
  {
    if ids != [] {
      CountedAckOne(tx, ids[0]);
      CountedOnMack(AckOne(tx, ids[0]), ids[1..]);
    }
  }

  lemma {:induction false} DropsSize(ids: set<nat>)
    ensures |Drops(ids)| == |ids|
  {
    var dropped := set id | id in ids :: Completion(id, Dropped);
    if ids != {} {
      var id :| id in ids;
      DropsSize(ids - {id});
      assert dropped == (set i | i in ids - {id} :: Completion(i, Dropped)) + {Completion(id, Dropped)};
    } else {
      assert dropped == {};
    }
  }

  lemma CountedDropAll(tx: Tx, ids: set<nat>)
    requires Counted(tx) && ids <= tx.msgs.Keys
    ensures Counted(DropAll(tx, ids))
  {
    var tx' := DropAll(tx, ids);
    DropsSize(ids);
    assert tx'.msgs.Keys == tx.msgs.Keys - ids;
    forall id: nat
      ensures Calls(tx', id) == if id < tx'.nextId && id !in tx'.msgs then 1 else 0
    {
      assert Calls(tx, id) == if id < tx.nextId && id !in tx.msgs then 1 else 0;
      assert Drops(ids)[Completion(id, Success)] == 0;
      assert Drops(ids)[Completion(id, Dropped)] == if id in ids then 1 else 0;
    }
  }

  /** After a tick every message older than the delivery timeout has had its one handler call. */
  lemma CountedTickTx(tx: Tx, now: nat)
    requires Counted(tx)
    ensures Counted(TickTx(tx, now))
    ensures forall id | 0 <= id < |tx.sent| && tx.sent[id].at + DELIVERY_TIMEOUT < now ::
      id !in TickTx(tx, now).msgs && Calls(TickTx(tx, now), id) == 1
  {
    CountedDropAll(tx, TxLate(tx.msgs, now));
  }

  lemma CountedPumpTx(tx: Tx, now: nat)
    requires Counted(tx)
    ensures Counted(PumpTx(tx, now).0)
  {
    var tx' := PumpTx(tx, now).0;
    assert tx'.msgs.Keys == tx.msgs.Keys;
    forall id: nat
      ensures Calls(tx', id) == if id < tx'.nextId && id !in tx'.msgs then 1 else 0
    {
      assert Calls(tx', id) == Calls(tx, id);
    }
  }
}
