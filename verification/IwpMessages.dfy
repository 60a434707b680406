/**
  The records of the reliable message layer of IWP: packets on the wire, an outbound message with
  the fragments its peer acknowledged, and an inbound message being reassembled.

  Records are held by value in the session's maps, as in the source, so an update in place becomes
  a new value stored under the same id. Loops of the source are methods, each proved against the
  function that specifies it.
*/
module IwpMessages {
  import opened Bytes

  type Digest = seq<byte>
  type Hash = seq<byte> -> Digest

  /** Largest payload of a DATA packet, and of the head carried by XMIT. */
  const FRAGMENT_SIZE := 1024
  const MAX_LINK_MSG_SIZE := 8192
  /** the size of the bit set of acknowledged fragments */
  const MASK_BITS := MAX_LINK_MSG_SIZE / FRAGMENT_SIZE

  // Times are in milliseconds.
  const DELIVERY_TIMEOUT := 500
  const RECEIVAL_TIMEOUT := DELIVERY_TIMEOUT * 8 / 5
  const REPLAY_WINDOW := RECEIVAL_TIMEOUT * 3 / 2
  const ACK_RESEND_INTERVAL := DELIVERY_TIMEOUT / 2
  const TX_FLUSH_INTERVAL := DELIVERY_TIMEOUT / 5 * 4

  datatype Packet =
    | XMIT(size: nat, id: nat, digest: Digest, head: seq<byte>)
    | DATA(offset: nat, id: nat, fragment: seq<byte>)
    | ACKS(id: nat, mask: set<nat>)
    | NACK(id: nat)
    | MACK(ids: seq<nat>)

  function Min(a: int, b: int): int
  {
    if a < b then a else b
  }

  /** Fragment `k` of a message. */
  function Slice(data: seq<byte>, k: nat): seq<byte>
    requires k * FRAGMENT_SIZE <= |data|
  {
    data[k * FRAGMENT_SIZE .. Min((k + 1) * FRAGMENT_SIZE, |data|)]
  }

  /** Every fragment of a message of `size` bytes is in `acks`. */
  ghost predicate Covers(acks: set<nat>, size: nat)
  {
    forall k: nat :: k * FRAGMENT_SIZE < size ==> k in acks
  }

  // ---------------------------------------------------------------- outbound

  datatype OutboundMessage = OutboundMessage(
    data: seq<byte>,
    msgId: nat,
    acks: set<nat>,
    lastFlush: nat,
    digest: Digest,
    startedAt: nat,
    priority: nat)

  /** A new message counts its first fragment as acknowledged: XMIT carries it. */
  function NewOutbound(hash: Hash, id: nat, data: seq<byte>, now: nat, priority: nat): OutboundMessage
  {
    OutboundMessage(data, id, {0}, now, hash(data), now, priority)
  }

  function Xmit(m: OutboundMessage): Packet
  {
    XMIT(|m.data|, m.msgId, m.digest, m.data[.. Min(|m.data|, FRAGMENT_SIZE)])
  }

  predicate ShouldFlush(m: OutboundMessage, now: nat)
  {
    now - m.lastFlush >= TX_FLUSH_INTERVAL
  }

  predicate TxTimedOut(m: OutboundMessage, now: nat)
  {
    now > m.startedAt && now - m.startedAt > DELIVERY_TIMEOUT
  }

  /** The DATA packets for the fragments from `k` on that are not acknowledged. */
  function Unacked(m: OutboundMessage, k: nat): seq<Packet>
    decreases |m.data| - k * FRAGMENT_SIZE
  {
    if k * FRAGMENT_SIZE >= |m.data| then []
    else (if k in m.acks then [] else [DATA(k * FRAGMENT_SIZE, m.msgId, Slice(m.data, k))]) + Unacked(m, k + 1)
  }

  /** A packet is in the flush exactly when it carries a fragment that is not acknowledged. */
  lemma {:induction false} UnackedContents(m: OutboundMessage, k: nat, p: Packet)
    ensures p in Unacked(m, k) <==>
      (exists j: nat :: j >= k && j * FRAGMENT_SIZE < |m.data| && j !in m.acks
        && p == DATA(j * FRAGMENT_SIZE, m.msgId, Slice(m.data, j)))
    decreases |m.data| - k * FRAGMENT_SIZE
  {
    if k * FRAGMENT_SIZE < |m.data| {
      UnackedContents(m, k + 1, p);
    }
  }

  method FlushUnAcked(m: OutboundMessage, now: nat) returns (packets: seq<Packet>, flushed: OutboundMessage)
    requires |m.data| <= MAX_LINK_MSG_SIZE
    ensures packets == Unacked(m, 0)
    ensures flushed == m.(lastFlush := now)
  {
    packets := [];
    var idx := 0;
    ghost var k := 0;
    while idx < |m.data|
      invariant idx == k * FRAGMENT_SIZE
      invariant packets + Unacked(m, k) == Unacked(m, 0)
    {
      assert idx / FRAGMENT_SIZE == k;
      if idx / FRAGMENT_SIZE !in m.acks {
        var size := if idx + FRAGMENT_SIZE < |m.data| then FRAGMENT_SIZE else |m.data| - idx;
        packets := packets + [DATA(idx, m.msgId, m.data[idx .. idx + size])];
      }
      idx := idx + FRAGMENT_SIZE;
      k := k + 1;
    }
    flushed := m.(lastFlush := now);
  }

  /** The eight bits there are do not decide: asking for the ninth throws. */
  predicate Overflows(acks: set<nat>, size: nat)
  {
    size > MAX_LINK_MSG_SIZE && forall k | 0 <= k < MASK_BITS :: k in acks
  }

  /** The test loop shared by `IsTransmitted` and `IsCompleted`. */
  method AllAcked(acks: set<nat>, size: nat) returns (all: bool, threw: bool)
    ensures threw <==> Overflows(acks, size)
    ensures !threw ==> (all <==> Covers(acks, size))
  {
    var idx := 0;
    var n := 0;
    while idx < size
      invariant idx == n * FRAGMENT_SIZE && n <= MASK_BITS
      invariant forall k: nat :: k < n ==> k in acks
    {
      if n >= MASK_BITS {
        return false, true;
      }
      if n !in acks {
        assert n * FRAGMENT_SIZE < size;
        return false, false;
      }
      idx := idx + FRAGMENT_SIZE;
      n := n + 1;
    }
    return true, false;
  }

  // ----------------------------------------------------------------- inbound

  datatype InboundMessage = InboundMessage(
    data: seq<byte>,
    digest: Digest,
    msgId: nat,
    lastAckSent: nat,
    lastActiveAt: nat,
    acks: set<nat>)

  function NewInbound(id: nat, size: nat, digest: Digest, now: nat): InboundMessage
  {
    InboundMessage(seq(size, _ => 0), digest, id, 0, now, {})
  }

  /** Store one fragment; a fragment that does not fit is ignored. */
  function HandleData(m: InboundMessage, offset: nat, fragment: seq<byte>, now: nat): InboundMessage
  {
    if offset + |fragment| > |m.data| then m
    else m.(
      data := m.data[..offset] + fragment + m.data[offset + |fragment| ..],
      acks := m.acks + {offset / FRAGMENT_SIZE},
      lastActiveAt := now)
  }

  predicate ShouldSendAcks(m: InboundMessage, now: nat)
  {
    now > m.lastAckSent + ACK_RESEND_INTERVAL
  }

  predicate RxTimedOut(m: InboundMessage, now: nat)
  {
    now > m.lastActiveAt && now - m.lastActiveAt > DELIVERY_TIMEOUT
  }

  predicate Verify(hash: Hash, m: InboundMessage)
  {
    hash(m.data) == m.digest
  }

  /** Every fragment marked as received already holds the bytes of the original. */
  ghost predicate Faithful(m: InboundMessage, original: seq<byte>)
  {
    && |m.data| == |original|
    && forall k: nat :: k in m.acks && k * FRAGMENT_SIZE < |original| ==> Slice(m.data, k) == Slice(original, k)
  }

  /** Storing a fragment of the original keeps reassembly faithful, whatever arrived before. */
  lemma HandleDataKeepsFaithful(m: InboundMessage, original: seq<byte>, j: nat, now: nat)
    requires Faithful(m, original)
    requires j * FRAGMENT_SIZE <= |original|
    ensures Faithful(HandleData(m, j * FRAGMENT_SIZE, Slice(original, j), now), original)
    ensures HandleData(m, j * FRAGMENT_SIZE, Slice(original, j), now).acks == m.acks + {j}
  {
    var offset := j * FRAGMENT_SIZE;
    var fragment := Slice(original, j);
    var r := HandleData(m, offset, fragment, now);
    assert offset / FRAGMENT_SIZE == j;
    forall k: nat | k in r.acks && k * FRAGMENT_SIZE < |original|
      ensures Slice(r.data, k) == Slice(original, k)
    {
      if k != j {
        assert Slice(r.data, k) == Slice(m.data, k);
      }
    }
  }

  /** A faithful message whose fragments have all been received is the original. */
  lemma FaithfulAndCovered(m: InboundMessage, original: seq<byte>)
    requires Faithful(m, original)
    requires Covers(m.acks, |m.data|)
    ensures m.data == original
  {
    forall i | 0 <= i < |original|
      ensures m.data[i] == original[i]
    {
      var k := i / FRAGMENT_SIZE;
      assert Slice(m.data, k) == Slice(original, k);
      assert m.data[i] == Slice(m.data, k)[i - k * FRAGMENT_SIZE];
      assert original[i] == Slice(original, k)[i - k * FRAGMENT_SIZE];
    }
  }
}
