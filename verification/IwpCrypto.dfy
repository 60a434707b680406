/**
  Packet protection of IWP over abstract primitives. A packet is a 32-byte keyed hash, a 32-byte
  nonce and a payload xored with a keystream; the hash covers nonce and payload. The primitives are
  functions held in a record; `Lawful` is all that is assumed of them.
*/
module IwpCrypto {
  import opened Bytes
  import opened Wrappers

  type Key = seq<byte>

  datatype Crypto = Crypto(
    shortHash: seq<byte> -> seq<byte>,
    keyedHash: (Key, seq<byte>) -> seq<byte>,
    keystream: (Key, seq<byte>, nat) -> seq<byte>,
    toPublic: seq<byte> -> seq<byte>,
    scalarMult: (seq<byte>, seq<byte>) -> Option<seq<byte>>,
    identity: seq<byte> -> seq<byte>,
    sign: (seq<byte>, seq<byte>) -> seq<byte>,
    verify: (seq<byte>, seq<byte>, seq<byte>) -> bool)

  const HASH_SIZE := 32
  const HMAC_SIZE := 32
  const NONCE_SIZE := 32
  const PACKET_OVERHEAD := HMAC_SIZE + NONCE_SIZE
  const SIGNATURE_SIZE := 64
  const KEY_SIZE := 32

  /** Output sizes, the symmetry of the key exchange, and that signatures verify. */
  ghost predicate Lawful(c: Crypto)
  {
    && (forall d :: |c.shortHash(d)| == HASH_SIZE)
    && (forall k, d :: |c.keyedHash(k, d)| == HMAC_SIZE)
    && (forall k, n, len: nat :: |c.keystream(k, n, len)| == len)
    && (forall s :: |c.toPublic(s)| == KEY_SIZE && |c.identity(s)| == KEY_SIZE)
    && (forall s, t :: c.scalarMult(s, c.toPublic(t)) == c.scalarMult(t, c.toPublic(s)))
    && (forall s, d :: |c.sign(s, d)| == SIGNATURE_SIZE && c.verify(c.identity(s), d, c.sign(s, d)))
  }

  /** XOR with the keystream. */
  function Stream(c: Crypto, key: Key, nonce: seq<byte>, data: seq<byte>): (r: seq<byte>)
    ensures |r| == |data|
  {
    var pad := c.keystream(key, nonce, |data|);
    if |pad| == |data| then Xor(data, pad) else data
  }

  function Seal(c: Crypto, key: Key, nonce: seq<byte>, payload: seq<byte>): seq<byte>
  {
    var body := nonce + Stream(c, key, nonce, payload);
    c.keyedHash(key, body) + body
  }

  function Open(c: Crypto, key: Key, pkt: seq<byte>): Option<seq<byte>>
  {
    if |pkt| <= PACKET_OVERHEAD then None
    else if c.keyedHash(key, pkt[HMAC_SIZE..]) != pkt[..HMAC_SIZE] then None
    else Some(Stream(c, key, pkt[HMAC_SIZE..PACKET_OVERHEAD], pkt[PACKET_OVERHEAD..]))
  }

  lemma StreamInvolution(c: Crypto, key: Key, nonce: seq<byte>, data: seq<byte>)
    ensures Stream(c, key, nonce, Stream(c, key, nonce, data)) == data
  {
    var pad := c.keystream(key, nonce, |data|);
    if |pad| == |data| {
      XorLaws(data, pad);
    }
  }

  /** A sealed packet opens under the same key to its payload. */
  lemma SealedOpens(c: Crypto, key: Key, nonce: seq<byte>, payload: seq<byte>)
    requires Lawful(c) && |nonce| == NONCE_SIZE && payload != []
    ensures Open(c, key, Seal(c, key, nonce, payload)) == Some(payload)
  {
    var body := nonce + Stream(c, key, nonce, payload);
    var pkt := Seal(c, key, nonce, payload);
    assert pkt[HMAC_SIZE..] == body && pkt[..HMAC_SIZE] == c.keyedHash(key, body);
    assert pkt[HMAC_SIZE..PACKET_OVERHEAD] == nonce;
    assert pkt[PACKET_OVERHEAD..] == Stream(c, key, nonce, payload);
    StreamInvolution(c, key, nonce, payload);
  }

  /** Only sealed packets open: what is accepted is exactly the sealing of what comes out. */
  lemma OpenedWasSealed(c: Crypto, key: Key, pkt: seq<byte>)
    requires Open(c, key, pkt).Some?
    ensures pkt == Seal(c, key, pkt[HMAC_SIZE..PACKET_OVERHEAD], Open(c, key, pkt).value)
  {
    var nonce, rest := pkt[HMAC_SIZE..PACKET_OVERHEAD], pkt[PACKET_OVERHEAD..];
    StreamInvolution(c, key, nonce, rest);
    assert pkt[HMAC_SIZE..] == nonce + rest;
    assert pkt == pkt[..HMAC_SIZE] + pkt[HMAC_SIZE..];
  }

  /** The two inputs do not collide. */
  ghost predicate HashesApart(c: Crypto, a: seq<byte>, b: seq<byte>)
  {
    c.shortHash(a) == c.shortHash(b) ==> a == b
  }

  ghost predicate KeyedApart(c: Crypto, k: Key, a: seq<byte>, k': Key, b: seq<byte>)
  {
    c.keyedHash(k, a) == c.keyedHash(k', b) ==> k == k' && a == b
  }

  /** Short of a collision, the keyed hash of a packet settles the key it opens under and all the rest of it. */
  lemma HashBindsPacket(c: Crypto, key: Key, pkt: seq<byte>, key': Key, pkt': seq<byte>)
    requires Open(c, key, pkt).Some? && Open(c, key', pkt').Some? && pkt[..HMAC_SIZE] == pkt'[..HMAC_SIZE]
    requires KeyedApart(c, key, pkt[HMAC_SIZE..], key', pkt'[HMAC_SIZE..])
    ensures key == key' && pkt == pkt' && Open(c, key, pkt).value != []
  {
    assert pkt == pkt[..HMAC_SIZE] + pkt[HMAC_SIZE..] && pkt' == pkt'[..HMAC_SIZE] + pkt'[HMAC_SIZE..];
  }

  /** A sealed payload can be told from the keystream only: equal packets of one payload had the same keystream. */
  lemma SealHides(c: Crypto, key: Key, key': Key, nonce: seq<byte>, payload: seq<byte>)
    requires Lawful(c) && Seal(c, key, nonce, payload) == Seal(c, key', nonce, payload)
    ensures c.keystream(key, nonce, |payload|) == c.keystream(key', nonce, |payload|)
  {
    var body, body' := nonce + Stream(c, key, nonce, payload), nonce + Stream(c, key', nonce, payload);
    var pad, pad' := c.keystream(key, nonce, |payload|), c.keystream(key', nonce, |payload|);
    assert Seal(c, key, nonce, payload)[HMAC_SIZE..] == body && Seal(c, key', nonce, payload)[HMAC_SIZE..] == body';
    assert body[|nonce|..] == Xor(payload, pad) && body'[|nonce|..] == Xor(payload, pad');
    XorLaws(payload, pad);
    XorLaws(payload, pad');
    XorLaws(pad, payload);
    XorLaws(pad', payload);
  }

  /** The loop body of `EncryptWorker`, on a packet whose nonce is in place. */
  method EncryptInPlace(c: Crypto, key: Key, pkt: array<byte>)
    requires Lawful(c) && pkt.Length >= PACKET_OVERHEAD
    modifies pkt
    ensures pkt[..] == Seal(c, key, old(pkt[HMAC_SIZE..PACKET_OVERHEAD]), old(pkt[PACKET_OVERHEAD..]))
  {
    var nonce := pkt[HMAC_SIZE..PACKET_OVERHEAD];
    var payload := pkt[PACKET_OVERHEAD..];
    var cipher := Stream(c, key, nonce, payload);
    forall i | PACKET_OVERHEAD <= i < pkt.Length {
      pkt[i] := cipher[i - PACKET_OVERHEAD];
    }
    assert pkt[HMAC_SIZE..] == nonce + cipher;
    var mac := c.keyedHash(key, pkt[HMAC_SIZE..]);
    forall i | 0 <= i < HMAC_SIZE {
      pkt[i] := mac[i];
    }
    assert pkt[..] == mac + (nonce + cipher);
  }

  method DecryptMessageInPlace(c: Crypto, key: Key, pkt: array<byte>) returns (ok: bool)
    modifies pkt
    ensures ok <==> Open(c, key, old(pkt[..])).Some?
    ensures ok ==> pkt.Length > PACKET_OVERHEAD && pkt[PACKET_OVERHEAD..] == Open(c, key, old(pkt[..])).value
    ensures ok ==> pkt[..PACKET_OVERHEAD] == old(pkt[..])[..PACKET_OVERHEAD]
    ensures !ok ==> pkt[..] == old(pkt[..])
  {
    if pkt.Length <= PACKET_OVERHEAD {
      return false;
    }
    ghost var before := pkt[..];
    assert pkt[HMAC_SIZE..] == before[HMAC_SIZE..] && pkt[..HMAC_SIZE] == before[..HMAC_SIZE];
    if c.keyedHash(key, pkt[HMAC_SIZE..]) != pkt[..HMAC_SIZE] {
      return false;
    }
    assert pkt[HMAC_SIZE..PACKET_OVERHEAD] == before[HMAC_SIZE..PACKET_OVERHEAD];
    assert pkt[PACKET_OVERHEAD..] == before[PACKET_OVERHEAD..];
    var plain := Stream(c, key, pkt[HMAC_SIZE..PACKET_OVERHEAD], pkt[PACKET_OVERHEAD..]);
    forall i | PACKET_OVERHEAD <= i < pkt.Length {
      pkt[i] := plain[i - PACKET_OVERHEAD];
    }
    return true;
  }

  // ----------------------------------------------------------------- key exchange

  function Dh(c: Crypto, clientPub: Key, serverPub: Key, themPub: Key, ourSecret: Key): Option<Key>
  {
    match c.scalarMult(ourSecret, themPub)
    case None => None
    case Some(shared) => Some(c.shortHash(clientPub + serverPub + shared))
  }

  function TransportDhClient(c: Crypto, serverPub: Key, secret: Key, nonce: seq<byte>): Option<Key>
  {
    match Dh(c, c.toPublic(secret), serverPub, serverPub, secret)
    case None => None
    case Some(d) => Some(c.keyedHash(d, nonce))
  }

  function TransportDhServer(c: Crypto, clientPub: Key, secret: Key, nonce: seq<byte>): Option<Key>
  {
    match Dh(c, clientPub, c.toPublic(secret), clientPub, secret)
    case None => None
    case Some(d) => Some(c.keyedHash(d, nonce))
  }

  /** Both ends derive the same session key, or both fail. */
  lemma DhAgrees(c: Crypto, client: Key, server: Key, nonce: seq<byte>)
    requires Lawful(c)
    ensures
      TransportDhClient(c, c.toPublic(server), client, nonce) ==
      TransportDhServer(c, c.toPublic(client), server, nonce)
  {
    assert c.scalarMult(client, c.toPublic(server)) == c.scalarMult(server, c.toPublic(client));
  }

  /** What an exchange hashes. */
  function Transcript(clientPub: Key, serverPub: Key, shared: Key): seq<byte>
  {
    clientPub + serverPub + shared
  }

  /** Two exchanges with nonces, whose hashes do not collide. */
  ghost predicate ExchangesApart(c: Crypto, t: seq<byte>, nonce: seq<byte>, t': seq<byte>, nonce': seq<byte>)
  {
    HashesApart(c, t, t') && KeyedApart(c, c.shortHash(t), nonce, c.shortHash(t'), nonce')
  }

  lemma TranscriptBinds(clientPub: Key, serverPub: Key, shared: Key, clientPub': Key, serverPub': Key, shared': Key)
    requires |clientPub| == |clientPub'| == |serverPub| == |serverPub'| == KEY_SIZE
    requires Transcript(clientPub, serverPub, shared) == Transcript(clientPub', serverPub', shared')
    ensures clientPub == clientPub' && serverPub == serverPub' && shared == shared'
  {
    var a, b := Transcript(clientPub, serverPub, shared), Transcript(clientPub', serverPub', shared');
    assert a[..KEY_SIZE] == clientPub && b[..KEY_SIZE] == clientPub';
    assert a[KEY_SIZE..2 * KEY_SIZE] == serverPub && b[KEY_SIZE..2 * KEY_SIZE] == serverPub';
    assert a[2 * KEY_SIZE..] == shared && b[2 * KEY_SIZE..] == shared';
  }

  /** Short of a collision, a client's session key settles the nonce, both public keys and the shared secret. */
  lemma ClientKeyBinds(c: Crypto, serverPub: Key, secret: Key, nonce: seq<byte>, shared: Key,
        serverPub': Key, secret': Key, nonce': seq<byte>, shared': Key)
    requires |serverPub| == |serverPub'| == |c.toPublic(secret)| == |c.toPublic(secret')| == KEY_SIZE
    requires c.scalarMult(secret, serverPub) == Some(shared) && c.scalarMult(secret', serverPub') == Some(shared')
    requires ExchangesApart(c, Transcript(c.toPublic(secret), serverPub, shared), nonce,
               Transcript(c.toPublic(secret'), serverPub', shared'), nonce')
    requires TransportDhClient(c, serverPub, secret, nonce) == TransportDhClient(c, serverPub', secret', nonce')
    ensures nonce == nonce' && serverPub == serverPub' && c.toPublic(secret) == c.toPublic(secret') && shared == shared'
  {
    TranscriptBinds(c.toPublic(secret), serverPub, shared, c.toPublic(secret'), serverPub', shared');
  }

  /** So does a server's. */
  lemma ServerKeyBinds(c: Crypto, clientPub: Key, secret: Key, nonce: seq<byte>, shared: Key,
        clientPub': Key, secret': Key, nonce': seq<byte>, shared': Key)
    requires |clientPub| == |clientPub'| == |c.toPublic(secret)| == |c.toPublic(secret')| == KEY_SIZE
    requires c.scalarMult(secret, clientPub) == Some(shared) && c.scalarMult(secret', clientPub') == Some(shared')
    requires ExchangesApart(c, Transcript(clientPub, c.toPublic(secret), shared), nonce,
               Transcript(clientPub', c.toPublic(secret'), shared'), nonce')
    requires TransportDhServer(c, clientPub, secret, nonce) == TransportDhServer(c, clientPub', secret', nonce')
    ensures nonce == nonce' && clientPub == clientPub' && c.toPublic(secret) == c.toPublic(secret') && shared == shared'
  {
    TranscriptBinds(clientPub, c.toPublic(secret), shared, clientPub', c.toPublic(secret'), shared');
  }

  /** A client and a server hold the same key only if each used the other's public key and they shared a secret. */
  lemma EndsShareSecret(c: Crypto, serverPub: Key, client: Key, nonce: seq<byte>, shared: Key,
        clientPub: Key, server: Key, nonce': seq<byte>, shared': Key)
    requires |serverPub| == |clientPub| == |c.toPublic(client)| == |c.toPublic(server)| == KEY_SIZE
    requires c.scalarMult(client, serverPub) == Some(shared) && c.scalarMult(server, clientPub) == Some(shared')
    requires ExchangesApart(c, Transcript(c.toPublic(client), serverPub, shared), nonce,
               Transcript(clientPub, c.toPublic(server), shared'), nonce')
    requires TransportDhClient(c, serverPub, client, nonce) == TransportDhServer(c, clientPub, server, nonce')
    ensures nonce == nonce' && clientPub == c.toPublic(client) && serverPub == c.toPublic(server) && shared == shared'
  {
    TranscriptBinds(c.toPublic(client), serverPub, shared, clientPub, c.toPublic(server), shared');
  }

  /** There is a session key exactly when the exchange gives a secret. */
  lemma KeyExactly(c: Crypto, themPub: Key, secret: Key, nonce: seq<byte>)
    ensures TransportDhClient(c, themPub, secret, nonce).Some? <==> c.scalarMult(secret, themPub).Some?
    ensures TransportDhServer(c, themPub, secret, nonce).Some? <==> c.scalarMult(secret, themPub).Some?
  {
  }
}
