/** The layers together: packets of the message protocol, their plaintext, and their encryption. */
module IwpStack {
  import opened Bytes
  import opened Wrappers
  import opened IwpLink
  import opened IwpProgress
  import opened IwpRuns
  import opened IwpWire
  import opened IwpCrypto

  /** Every packet that a run puts on the wire has fields that fit their places. */
  lemma FlightsAreEncodable(c: Crypto, s: System, w: Who, f: Flight)
    requires Lawful(c) && Reachable(c.shortHash, s) && f in s.Inbox(w)
    requires |s.a.tx.sent| <= U64_SIZE && |s.b.tx.sent| <= U64_SIZE
    ensures Encodable(f.packet)
  {
    hide GoodPeer, Retransmits;
    ReachableIsGood(c.shortHash, s);
    GoodEither(c.shortHash, s, w);
    var incoming, outgoing := s.From(w.Other()), s.From(w);
    assert f in incoming.forward && f in outgoing.back;
    HonestFlight(c.shortHash, incoming, f);
    TruthfulFlight(c.shortHash, outgoing, f);
  }

  /**
    A packet in flight in any run, written out, sealed, opened with the same key and parsed, is the
    packet that the handlers of the run are given.
  */
  lemma PacketsSurviveTheWire(c: Crypto, key: Key, s: System, w: Who, f: Flight, nonce: seq<byte>, pad: seq<byte>)
    requires Lawful(c) && Reachable(c.shortHash, s) && f in s.Inbox(w)
    requires |s.a.tx.sent| <= U64_SIZE && |s.b.tx.sent| <= U64_SIZE
    requires |nonce| == NONCE_SIZE && (f.packet.XMIT? || f.packet.DATA? ==> pad == [])
    ensures f.packet.MACK? ==> |f.packet.ids| < 256
    ensures
      var received := Open(c, key, Seal(c, key, nonce, Plaintext(f.packet, pad)));
      received.Some? && Parse(received.value) == Some(f.packet)
  {
    hide Reachable, Lawful, Parse;
    FlightsAreEncodable(c, s, w, f);
    PacketRoundTrip(f.packet, pad);
    SealedOpens(c, key, nonce, Plaintext(f.packet, pad));
  }
}
