/**
  The IWP handshake. A client sends a signed introduction, the server answers with a random token
  under the new session key, the client returns the token, and both exchange link introductions
  (LIMs) inside the session. `Recv` handles any packet in any state, so the invariants hold against
  arbitrary traffic.
*/
module IwpHandshake {
  import opened Bytes
  import opened Wrappers
  import opened IwpCrypto

  datatype State = Initial | Introduction | LinkIntro | Ready

  /** Which of the three handlers the next LIM goes to. */
  datatype LimHandler = GotInboundLIM | GotOutboundLIM | GotRenegLIM

  const TOKEN_SIZE := 24
  const INTRO_SIZE := KEY_SIZE + KEY_SIZE + NONCE_SIZE + SIGNATURE_SIZE

  /** The signed part of an introduction, and its signature. */
  datatype Intro = Intro(signed: seq<byte>, signature: seq<byte>) {
    function Ident(): Key
      requires |signed| >= KEY_SIZE
    {
      signed[..KEY_SIZE]
    }

    function OnionKey(): Key
      requires |signed| >= 2 * KEY_SIZE
    {
      signed[KEY_SIZE..2 * KEY_SIZE]
    }

    function Nonce(): seq<byte>
      requires |signed| == INTRO_SIZE - SIGNATURE_SIZE
    {
      signed[2 * KEY_SIZE..]
    }
  }

  /** Keys a router brings to the handshake. */
  datatype Keys = Keys(identSecret: Key, encryptionSecret: Key, transportSecret: Key)

  /**
    Session state. `accepted` and `returned` are history: the introduction that was verified, and
    the packet that brought the token back.
  */
  datatype Handshake = Handshake(
    inbound: bool,
    state: State,
    sessionKey: Key,
    token: seq<byte>,
    expectedIdent: Key,
    remoteKey: Key,
    limHandler: LimHandler,
    accepted: Option<Intro>,
    returned: Option<seq<byte>>)

  /** An outbound session knows whom it calls; an inbound one draws a token. */
  function NewOutbound(c: Crypto, remote: Key): Handshake
  {
    Handshake(false, Initial, c.shortHash(remote), seq(TOKEN_SIZE, _ => 0), [], remote, GotOutboundLIM, None, None)
  }

  function NewInbound(c: Crypto, ourIdent: Key, token: seq<byte>): Handshake
  {
    Handshake(true, Initial, c.shortHash(ourIdent), token, [], [], GotInboundLIM, None, None)
  }

  // ------------------------------------------------------------------- the handlers

  function IntroBytes(c: Crypto, keys: Keys, nonce: seq<byte>): seq<byte>
  {
    var signed := c.identity(keys.identSecret) + c.toPublic(keys.encryptionSecret) + nonce;
    signed + c.sign(keys.identSecret, signed)
  }

  /** `GenerateAndSendIntro`: the introduction goes out under the key made from the remote's identity. */
  function Start(c: Crypto, hs: Handshake, keys: Keys, remoteTransport: Key, nonce: seq<byte>, padNonce: seq<byte>)
    : (Handshake, seq<seq<byte>>)
  {
    if hs.inbound then (hs, [])
    else
      var sent := [Seal(c, hs.sessionKey, padNonce, IntroBytes(c, keys, nonce))];
      match TransportDhClient(c, remoteTransport, keys.encryptionSecret, nonce)
      case None => (hs.(state := Introduction), sent)
      case Some(k) => (hs.(state := Introduction, sessionKey := k), sent)
  }

  /** `HandleGotIntro` on a decrypted packet: the claimed identity is stored before it is verified. */
  function GotIntro(c: Crypto, hs: Handshake, keys: Keys, payload: seq<byte>, padNonce: seq<byte>)
    : (Handshake, seq<seq<byte>>)
  {
    if |payload| < INTRO_SIZE then (hs, [])
    else
      var intro := Intro(payload[..INTRO_SIZE - SIGNATURE_SIZE], payload[INTRO_SIZE - SIGNATURE_SIZE..INTRO_SIZE]);
      var named := hs.(expectedIdent := intro.Ident());
      if !c.verify(intro.Ident(), intro.signed, intro.signature) then (named, [])
      else match TransportDhServer(c, intro.OnionKey(), keys.transportSecret, intro.Nonce())
        case None => (named, [])
        case Some(k) =>
          (named.(state := Introduction, sessionKey := k, accepted := Some(intro)), [Seal(c, k, padNonce, hs.token)])
  }

  /** `HandleGotIntroAck`. */
  function GotIntroAck(c: Crypto, hs: Handshake, pkt: seq<byte>, padNonce: seq<byte>): (Handshake, seq<seq<byte>>)
  {
    if |pkt| < TOKEN_SIZE + PACKET_OVERHEAD then (hs, [])
    else match Open(c, hs.sessionKey, pkt)
      case None => (hs, [])
      case Some(payload) =>
        var token := payload[..TOKEN_SIZE];
        (hs.(state := LinkIntro, token := token), [Seal(c, hs.sessionKey, padNonce, token)])
  }

  /** `HandleCreateSessionRequest`: the token has to come back under the session key. */
  function GotSessionRequest(c: Crypto, hs: Handshake, pkt: seq<byte>): Handshake
  {
    match Open(c, hs.sessionKey, pkt)
    case None => hs
    case Some(payload) =>
      if |payload| < TOKEN_SIZE || payload[..TOKEN_SIZE] != hs.token then hs
      else hs.(state := LinkIntro, returned := Some(pkt))
  }

  /** `Recv_LL`; from `LinkIntro` on packets are session data. */
  function Recv(c: Crypto, hs: Handshake, keys: Keys, pkt: seq<byte>, padNonce: seq<byte>): (Handshake, seq<seq<byte>>)
  {
    match hs.state
    case Initial =>
      if !hs.inbound then (hs, [])
      else (match Open(c, hs.sessionKey, pkt)
        case None => (hs, [])
        case Some(payload) => GotIntro(c, hs, keys, payload, padNonce))
    case Introduction =>
      if hs.inbound then (GotSessionRequest(c, hs, pkt), []) else GotIntroAck(c, hs, pkt, padNonce)
    case _ => (hs, [])
  }

  /** A link introduction with a valid signature, naming `ident`, arrived as session data. */
  function Lim(hs: Handshake, ident: Key): Handshake
  {
    if hs.state != LinkIntro && hs.state != Ready then hs
    else match hs.limHandler
      case GotInboundLIM =>
        if ident != hs.expectedIdent then hs else hs.(state := Ready, limHandler := GotRenegLIM, remoteKey := ident)
      case GotOutboundLIM =>
        if ident != hs.remoteKey then hs else hs.(limHandler := GotRenegLIM)
      case GotRenegLIM => hs
  }

  /** Our own link introduction, sent in answer to the server's, was delivered. */
  function LimDelivered(hs: Handshake): Handshake
  {
    if !hs.inbound && hs.limHandler == GotRenegLIM then hs.(state := Ready) else hs
  }

  datatype Input =
    | Packet(bytes: seq<byte>, padNonce: seq<byte>)
    | GotLim(ident: Key)
    | OurLimDelivered

  function Step(c: Crypto, hs: Handshake, keys: Keys, input: Input): Handshake
  {
    match input
    case Packet(bytes, padNonce) => Recv(c, hs, keys, bytes, padNonce).0
    case GotLim(ident) => Lim(hs, ident)
    case OurLimDelivered => LimDelivered(hs)
  }

  function Run(c: Crypto, hs: Handshake, keys: Keys, inputs: seq<Input>): Handshake
    decreases |inputs|
  {
    if inputs == [] then hs else Run(c, Step(c, hs, keys, inputs[0]), keys, inputs[1..])
  }

  // ------------------------------------------------- what an inbound session has checked

  /** The stored introduction verified, named the stored identity, and gave the session key. */
  ghost predicate AcceptedIntro(c: Crypto, hs: Handshake, keys: Keys)
  {
    && hs.accepted.Some?
    && var intro := hs.accepted.value;
       && |intro.signed| == INTRO_SIZE - SIGNATURE_SIZE
       && c.verify(intro.Ident(), intro.signed, intro.signature)
       && hs.expectedIdent == intro.Ident()
       && TransportDhServer(c, intro.OnionKey(), keys.transportSecret, intro.Nonce()) == Some(hs.sessionKey)
  }

  /** The stored packet carried this session's token under its session key. */
  ghost predicate TokenReturned(c: Crypto, hs: Handshake)
  {
    && hs.returned.Some?
    && var plain := Open(c, hs.sessionKey, hs.returned.value);
       plain.Some? && |plain.value| >= TOKEN_SIZE && plain.value[..TOKEN_SIZE] == hs.token
  }

  ghost predicate InboundOk(c: Crypto, hs: Handshake, keys: Keys)
  {
    && hs.inbound
    && (hs.state != Initial ==> AcceptedIntro(c, hs, keys))
    && (hs.state == LinkIntro || hs.state == Ready ==> TokenReturned(c, hs))
    && (hs.state == Ready <==> hs.limHandler == GotRenegLIM)
    && (hs.state != Ready ==> hs.limHandler == GotInboundLIM)
    && (hs.state == Ready ==> hs.remoteKey == hs.expectedIdent)
  }

  lemma InboundStep(c: Crypto, hs: Handshake, keys: Keys, input: Input)
    requires InboundOk(c, hs, keys)
    ensures InboundOk(c, Step(c, hs, keys, input), keys) && Step(c, hs, keys, input).token == hs.token
  {
  }

  lemma {:induction false} InboundRun(c: Crypto, hs: Handshake, keys: Keys, inputs: seq<Input>)
    requires InboundOk(c, hs, keys)
    ensures InboundOk(c, Run(c, hs, keys, inputs), keys) && Run(c, hs, keys, inputs).token == hs.token
    decreases |inputs|
  {
    if inputs != [] {
      InboundStep(c, hs, keys, inputs[0]);
      InboundRun(c, Step(c, hs, keys, inputs[0]), keys, inputs[1..]);
    }
  }

  /**
    Whatever packets and link introductions arrive, an inbound session that is ready has a remote key
    whose introduction signature verified, and has seen its own token come back under the key that
    this introduction agreed on.
  */
  lemma InboundReadyIsAuthentic(c: Crypto, keys: Keys, token: seq<byte>, inputs: seq<Input>)
    ensures
      var hs := Run(c, NewInbound(c, c.identity(keys.identSecret), token), keys, inputs);
      hs.state == Ready ==>
        && AcceptedIntro(c, hs, keys) && hs.remoteKey == hs.accepted.value.Ident()
        && TokenReturned(c, hs) && hs.token == token
  {
    InboundRun(c, NewInbound(c, c.identity(keys.identSecret), token), keys, inputs);
  }

  /** An outbound session is ready only after a link introduction named exactly the router it called. */
  lemma {:induction false} OutboundReadyIsAuthentic(c: Crypto, hs: Handshake, keys: Keys, inputs: seq<Input>)
    requires !hs.inbound && hs.state != Ready && hs.limHandler == GotOutboundLIM
    ensures Run(c, hs, keys, inputs).remoteKey == hs.remoteKey
    ensures Run(c, hs, keys, inputs).state == Ready ==> GotLim(hs.remoteKey) in inputs
    decreases |inputs|
  {
    if inputs != [] {
      var next := Step(c, hs, keys, inputs[0]);
      if next.limHandler == GotOutboundLIM {
        OutboundReadyIsAuthentic(c, next, keys, inputs[1..]);
      } else {
        assert inputs[0] == GotLim(hs.remoteKey);
        OutboundRemoteIsFixed(c, next, keys, inputs[1..]);
      }
    }
  }

  lemma {:induction false} OutboundRemoteIsFixed(c: Crypto, hs: Handshake, keys: Keys, inputs: seq<Input>)
    requires !hs.inbound && hs.limHandler == GotRenegLIM
    ensures Run(c, hs, keys, inputs).remoteKey == hs.remoteKey
    decreases |inputs|
  {
    if inputs != [] {
      OutboundRemoteIsFixed(c, Step(c, hs, keys, inputs[0]), keys, inputs[1..]);
    }
  }

  // ---------------------------------------------------------------- honest delivery

  /**
    With every packet delivered, both ends reach `LinkIntro` with the same session key and the
    server's token, whenever the key exchange itself succeeds.
  */
  lemma HonestHandshake(c: Crypto, client: Keys, server: Keys, token: seq<byte>,
                        nonce: seq<byte>, pad1: seq<byte>, pad2: seq<byte>, pad3: seq<byte>)
    requires Lawful(c) && |token| == TOKEN_SIZE && |nonce| == NONCE_SIZE
    requires |pad1| == |pad2| == |pad3| == NONCE_SIZE
    requires TransportDhClient(c, c.toPublic(server.transportSecret), client.encryptionSecret, nonce).Some?
    ensures
      var a0 := NewOutbound(c, c.identity(server.identSecret));
      var b0 := NewInbound(c, c.identity(server.identSecret), token);
      var (a1, intro) := Start(c, a0, client, c.toPublic(server.transportSecret), nonce, pad1);
      |intro| == 1 &&
      var (b1, ack) := Recv(c, b0, server, intro[0], pad2);
      |ack| == 1 &&
      var (a2, request) := Recv(c, a1, client, ack[0], pad3);
      |request| == 1 &&
      var (b2, _) := Recv(c, b1, server, request[0], pad3);
      && a2.state == LinkIntro && b2.state == LinkIntro
      && a2.sessionKey == b2.sessionKey && a2.token == b2.token == token
      && b2.expectedIdent == c.identity(client.identSecret)
      && var a3, b3 := LimDelivered(Lim(a2, c.identity(server.identSecret))), Lim(b2, c.identity(client.identSecret));
         && a3.state == b3.state == Ready && a3.sessionKey == b3.sessionKey
         && a3.remoteKey == c.identity(server.identSecret) && b3.remoteKey == c.identity(client.identSecret)
  {
    var a0 := NewOutbound(c, c.identity(server.identSecret));
    var b0 := NewInbound(c, c.identity(server.identSecret), token);
    var (a1, intro) := Start(c, a0, client, c.toPublic(server.transportSecret), nonce, pad1);
    IntroIsAccepted(c, client, server, b0, nonce, pad1, pad2);
    SealedOpens(c, a0.sessionKey, pad1, IntroBytes(c, client, nonce));
    var k := a1.sessionKey;
    SealedOpens(c, k, pad2, token);
    SealedOpens(c, k, pad3, token);
    assert token[..TOKEN_SIZE] == token;
  }

  /** The server verifies an honest introduction and answers with its token under the agreed key. */
  lemma IntroIsAccepted(c: Crypto, client: Keys, server: Keys, b0: Handshake, nonce: seq<byte>, pad1: seq<byte>,
        pad2: seq<byte>)
    requires Lawful(c) && |nonce| == NONCE_SIZE && b0.inbound && b0.state == Initial
    requires TransportDhClient(c, c.toPublic(server.transportSecret), client.encryptionSecret, nonce).Some?
    ensures
      var k := TransportDhClient(c, c.toPublic(server.transportSecret), client.encryptionSecret, nonce).value;
      var (b1, ack) := GotIntro(c, b0, server, IntroBytes(c, client, nonce), pad2);
      && b1.state == Introduction && b1.sessionKey == k && b1.token == b0.token && b1.inbound
      && b1.expectedIdent == c.identity(client.identSecret)
      && ack == [Seal(c, k, pad2, b0.token)]
  {
    var payload := IntroBytes(c, client, nonce);
    var signed := c.identity(client.identSecret) + c.toPublic(client.encryptionSecret) + nonce;
    assert payload[..INTRO_SIZE - SIGNATURE_SIZE] == signed;
    assert payload[INTRO_SIZE - SIGNATURE_SIZE..INTRO_SIZE] == c.sign(client.identSecret, signed);
    assert signed[..KEY_SIZE] == c.identity(client.identSecret);
    assert signed[KEY_SIZE..2 * KEY_SIZE] == c.toPublic(client.encryptionSecret);
    assert signed[2 * KEY_SIZE..] == nonce;
    DhAgrees(c, client.encryptionSecret, server.transportSecret, nonce);
  }

  // ------------------------------------------------------------- what changes nothing

  /** A packet that does not open, or comes after the handshake, changes nothing here and draws nothing. */
  lemma UnopenedIsIgnored(c: Crypto, hs: Handshake, keys: Keys, pkt: seq<byte>, padNonce: seq<byte>)
    requires Open(c, hs.sessionKey, pkt).None? || hs.state == LinkIntro || hs.state == Ready
    ensures Recv(c, hs, keys, pkt, padNonce) == (hs, [])
  {
  }

  /** An introduction that is too short changes nothing; one that does not verify leaves only the identity it claims. */
  lemma BadIntroIsRefused(c: Crypto, hs: Handshake, keys: Keys, payload: seq<byte>, padNonce: seq<byte>)
    requires |payload| >= 160 ==> !c.verify(payload[..32], payload[..96], payload[96..160])
    ensures GotIntro(c, hs, keys, payload, padNonce) ==
      (if |payload| < 160 then hs else hs.(expectedIdent := payload[..32]), [])
  {
    if |payload| >= 160 {
      assert payload[..96][..32] == payload[..32];
    }
  }

  /** A caller sends one introduction and waits for its answer, whether or not it could make a session key. */
  lemma IntroIsSent(c: Crypto, hs: Handshake, keys: Keys, remoteTransport: Key, nonce: seq<byte>, padNonce: seq<byte>)
    requires !hs.inbound
    ensures
      var (next, sent) := Start(c, hs, keys, remoteTransport, nonce, padNonce);
      var key := TransportDhClient(c, remoteTransport, keys.encryptionSecret, nonce);
      && |sent| == 1 && next.state == Introduction && next.remoteKey == hs.remoteKey
      && next.sessionKey == if key.Some? then key.value else hs.sessionKey
  {
  }

  /** An answer too short for a token is ignored, and so is a request that does not bring the token back. */
  lemma NoTokenIsIgnored(c: Crypto, hs: Handshake, keys: Keys, pkt: seq<byte>, padNonce: seq<byte>)
    requires hs.state == Introduction
    requires hs.inbound && Open(c, hs.sessionKey, pkt).Some? ==>
      var payload := Open(c, hs.sessionKey, pkt).value;
      |payload| < 24 || payload[..24] != hs.token
    requires !hs.inbound ==> |pkt| < 88
    ensures Recv(c, hs, keys, pkt, padNonce) == (hs, [])
  {
  }

  /** A link introduction before the handshake is over changes nothing. */
  lemma EarlyLimIsIgnored(hs: Handshake, ident: Key)
    requires hs.state == Initial || hs.state == Introduction
    ensures Lim(hs, ident) == hs
  {
  }

  /** A session that is ready stays as it is, whatever arrives. */
  lemma {:induction false} ReadyStays(c: Crypto, hs: Handshake, keys: Keys, inputs: seq<Input>)
    requires hs.state == Ready && hs.limHandler == GotRenegLIM
    ensures Run(c, hs, keys, inputs) == hs
    decreases |inputs|
  {
    if inputs != [] {
      ReadyStays(c, hs, keys, inputs[1..]);
    }
  }

  // -------------------------------------------------------- what equal session keys mean

  /** An introduction opens at the router it was sent to and nowhere else, short of a collision. */
  lemma IntroOpensOnlyAtCallee(c: Crypto, client: Keys, callee: Key, other: Keys, remoteTransport: Key,
        token: seq<byte>, nonce: seq<byte>, pad1: seq<byte>, pad2: seq<byte>)
    requires Lawful(c)
    requires
      var key, key' := c.shortHash(callee), c.shortHash(c.identity(other.identSecret));
      forall d :: c.keyedHash(key, d) != c.keyedHash(key', d)
    ensures
      var sent := Start(c, NewOutbound(c, callee), client, remoteTransport, nonce, pad1).1;
      var b := NewInbound(c, c.identity(other.identSecret), token);
      |sent| == 1 && Recv(c, b, other, sent[0], pad2) == (b, [])
  {
    var key := c.shortHash(callee);
    var pkt := Seal(c, key, pad1, IntroBytes(c, client, nonce));
    var body := pad1 + Stream(c, key, pad1, IntroBytes(c, client, nonce));
    assert pkt[HMAC_SIZE..] == body && pkt[..HMAC_SIZE] == c.keyedHash(key, body);
  }

  // ------------------------------------------------------------------- the object

  class Session {
    const crypto: Crypto
    const keys: Keys
    const inbound: bool
    var state: State
    var sessionKey: Key
    var token: seq<byte>
    var expectedIdent: Key
    var remoteKey: Key
    var limHandler: LimHandler
    /** packets handed to the socket, oldest first */
    var outbox: seq<seq<byte>>
    ghost var accepted: Option<Intro>
    ghost var returned: Option<seq<byte>>

    ghost function View(): Handshake
      reads this
    {
      Handshake(inbound, state, sessionKey, token, expectedIdent, remoteKey, limHandler, accepted, returned)
    }

    constructor Outbound(crypto: Crypto, keys: Keys, remote: Key)
      ensures this.crypto == crypto && this.keys == keys && View() == NewOutbound(crypto, remote) && outbox == []
    {
      this.crypto, this.keys, inbound := crypto, keys, false;
      state, sessionKey, token := Initial, crypto.shortHash(remote), seq(TOKEN_SIZE, _ => 0);
      expectedIdent, remoteKey, limHandler, outbox := [], remote, GotOutboundLIM, [];
      accepted, returned := None, None;
    }

    constructor Inbound(crypto: Crypto, keys: Keys, token: seq<byte>)
      ensures this.crypto == crypto && this.keys == keys && outbox == []
      ensures View() == NewInbound(crypto, crypto.identity(keys.identSecret), token)
    {
      this.crypto, this.keys, inbound := crypto, keys, true;
      state, sessionKey, this.token := Initial, crypto.shortHash(crypto.identity(keys.identSecret)), token;
      expectedIdent, remoteKey, limHandler, outbox := [], [], GotInboundLIM, [];
      accepted, returned := None, None;
    }

    method GenerateAndSendIntro(remoteTransport: Key, nonce: seq<byte>, padNonce: seq<byte>)
      requires !inbound
      modifies this`state, this`sessionKey, this`outbox
      ensures View() == Start(crypto, old(View()), keys, remoteTransport, nonce, padNonce).0
      ensures outbox == old(outbox) + Start(crypto, old(View()), keys, remoteTransport, nonce, padNonce).1
    {
      outbox := outbox + [Seal(crypto, sessionKey, padNonce, IntroBytes(crypto, keys, nonce))];
      state := Introduction;
      var k := TransportDhClient(crypto, remoteTransport, keys.encryptionSecret, nonce);
      if k.Some? {
        sessionKey := k.value;
      }
    }

    method HandleGotIntro(payload: seq<byte>, padNonce: seq<byte>)
      modifies this`state, this`sessionKey, this`expectedIdent, this`accepted, this`outbox
      ensures View() == GotIntro(crypto, old(View()), keys, payload, padNonce).0
      ensures outbox == old(outbox) + GotIntro(crypto, old(View()), keys, payload, padNonce).1
    {
      if |payload| < INTRO_SIZE {
        return;
      }
      var intro := Intro(payload[..INTRO_SIZE - SIGNATURE_SIZE], payload[INTRO_SIZE - SIGNATURE_SIZE..INTRO_SIZE]);
      expectedIdent := intro.Ident();
      if !crypto.verify(expectedIdent, intro.signed, intro.signature) {
        return;
      }
      var k := TransportDhServer(crypto, intro.OnionKey(), keys.transportSecret, intro.Nonce());
      if k.None? {
        return;
      }
      sessionKey := k.value;
      outbox := outbox + [Seal(crypto, sessionKey, padNonce, token)];
      state := Introduction;
      accepted := Some(intro);
    }

    method HandleGotIntroAck(pkt: array<byte>, padNonce: seq<byte>)
      modifies this`state, this`token, this`outbox, pkt
      ensures View() == GotIntroAck(crypto, old(View()), old(pkt[..]), padNonce).0
      ensures outbox == old(outbox) + GotIntroAck(crypto, old(View()), old(pkt[..]), padNonce).1
    {
      hide Seal, Open;
      if pkt.Length < TOKEN_SIZE + PACKET_OVERHEAD {
        return;
      }
      var ok := DecryptMessageInPlace(crypto, sessionKey, pkt);
      if !ok {
        return;
      }
      ghost var payload := Open(crypto, sessionKey, old(pkt[..])).value;
      assert pkt[PACKET_OVERHEAD..PACKET_OVERHEAD + TOKEN_SIZE] == pkt[PACKET_OVERHEAD..][..TOKEN_SIZE];
      token := pkt[PACKET_OVERHEAD..PACKET_OVERHEAD + TOKEN_SIZE];
      outbox := outbox + [Seal(crypto, sessionKey, padNonce, token)];
      state := LinkIntro;
    }

    method HandleCreateSessionRequest(pkt: array<byte>)
      modifies this`state, this`returned, pkt
      ensures View() == GotSessionRequest(crypto, old(View()), old(pkt[..]))
    {
      hide Open;
      ghost var received := pkt[..];
      var ok := DecryptMessageInPlace(crypto, sessionKey, pkt);
      if !ok {
        return;
      }
      if pkt.Length < TOKEN_SIZE + PACKET_OVERHEAD {
        return;
      }
      assert pkt[PACKET_OVERHEAD..PACKET_OVERHEAD + TOKEN_SIZE] == pkt[PACKET_OVERHEAD..][..TOKEN_SIZE];
      if pkt[PACKET_OVERHEAD..PACKET_OVERHEAD + TOKEN_SIZE] != token {
        return;
      }
      state := LinkIntro;
      returned := Some(received);
    }

    method RecvLL(pkt: array<byte>, padNonce: seq<byte>)
      modifies this, pkt
      ensures View() == Recv(crypto, old(View()), keys, old(pkt[..]), padNonce).0
      ensures outbox == old(outbox) + Recv(crypto, old(View()), keys, old(pkt[..]), padNonce).1
    {
      hide Open, GotIntro, GotIntroAck, GotSessionRequest;
      match state
      case Initial =>
        if inbound {
          var ok := DecryptMessageInPlace(crypto, sessionKey, pkt);
          if ok {
            HandleGotIntro(pkt[PACKET_OVERHEAD..], padNonce);
          }
        }
      case Introduction =>
        if inbound {
          HandleCreateSessionRequest(pkt);
        } else {
          HandleGotIntroAck(pkt, padNonce);
        }
      case LinkIntro =>
      case Ready =>
    }

    method GotLIM(ident: Key)
      requires state == LinkIntro || state == Ready
      modifies this`state, this`limHandler, this`remoteKey
      ensures View() == Lim(old(View()), ident)
    {
      match limHandler
      case GotInboundLIM =>
        if ident == expectedIdent {
          state, limHandler, remoteKey := Ready, GotRenegLIM, ident;
        }
      case GotOutboundLIM =>
        if ident == remoteKey {
          limHandler := GotRenegLIM;
        }
      case GotRenegLIM =>
    }
  }
}
