/**
  The plaintext of an IWP packet: protocol version, command byte, big-endian fields, and random
  padding behind the acknowledgements. `Plaintext` is what the sender builds, `Parse` what the
  handlers read, with their length checks.
*/
module IwpWire {
  import opened Bytes
  import opened Wrappers
  import opened IwpMessages

  const PROTO_VERSION: byte := 0
  const DIGEST_SIZE := 32
  const COMMAND_OVERHEAD := 2
  const XMIT_OVERHEAD := COMMAND_OVERHEAD + 2 + 8 + DIGEST_SIZE
  const DATA_OVERHEAD := COMMAND_OVERHEAD + 2 + 8

  function CommandOf(p: Packet): byte
  {
    match p
    case XMIT(_, _, _, _) => 1
    case DATA(_, _, _) => 2
    case ACKS(_, _) => 3
    case NACK(_) => 4
    case MACK(_) => 5
  }

  // ------------------------------------------------------------- ack bitmask

  /** The fragment numbers from `j` up to 7 as a number, fragment `j` in its lowest bit. */
  function MaskBits(mask: set<nat>, j: nat): (r: nat)
    requires j <= 8
    ensures r < Pow2(8 - j)
    decreases 8 - j
  {
    if j == 8 then 0 else (if j in mask then 1 else 0) + 2 * MaskBits(mask, j + 1)
  }

  function MaskByte(mask: set<nat>): byte
  {
    Pow8();
    MaskBits(mask, 0)
  }

  /** Bit `k` of a number. */
  predicate TestBit(b: nat, k: nat)
    decreases k
  {
    if k == 0 then b % 2 == 1 else TestBit(b / 2, k - 1)
  }

  function ByteMask(b: byte): set<nat>
  {
    set k: nat | k < 8 && TestBit(b, k)
  }

  lemma {:induction false} MaskBit(mask: set<nat>, j: nat, k: nat)
    requires j + k < 8
    ensures TestBit(MaskBits(mask, j), k) <==> j + k in mask
    decreases k
  {
    if k > 0 {
      assert MaskBits(mask, j) / 2 == MaskBits(mask, j + 1);
      MaskBit(mask, j + 1, k - 1);
    }
  }

  lemma MaskRoundTrip(mask: set<nat>)
    requires forall k | k in mask :: k < 8
    ensures ByteMask(MaskByte(mask)) == mask
  {
    forall k: nat
      ensures k in ByteMask(MaskByte(mask)) <==> k in mask
    {
      if k < 8 {
        MaskBit(mask, 0, k);
      }
    }
  }

  // ------------------------------------------------------------------ layout

  function EncodeIds(ids: seq<nat>): seq<byte>
  {
    if ids == [] then [] else BigEndian(ids[0], 8) + EncodeIds(ids[1..])
  }

  function DecodeIds(b: seq<byte>, n: nat): seq<nat>
    requires 8 * n <= |b|
    decreases n
  {
    if n == 0 then [] else [FromBigEndian(b[..8])] + DecodeIds(b[8..], n - 1)
  }

  /** Packets whose fields fit their places. */
  ghost predicate Encodable(p: Packet)
  {
    match p
    case XMIT(size, id, digest, _) => size < U16_SIZE && id < U64_SIZE && |digest| == DIGEST_SIZE
    case DATA(offset, id, _) => offset < U16_SIZE && id < U64_SIZE
    case ACKS(id, mask) => id < U64_SIZE && forall k | k in mask :: k < 8
    case NACK(id) => id < U64_SIZE
    case MACK(ids) => |ids| < 256 && forall id | id in ids :: id < U64_SIZE
  }

  function Body(p: Packet): seq<byte>
    requires p.MACK? ==> |p.ids| < 256
  {
    match p
    case XMIT(size, id, digest, head) => BigEndian(size, 2) + BigEndian(id, 8) + digest + head
    case DATA(offset, id, fragment) => BigEndian(offset, 2) + BigEndian(id, 8) + fragment
    case ACKS(id, mask) => BigEndian(id, 8) + [MaskByte(mask)]
    case NACK(id) => BigEndian(id, 8)
    case MACK(ids) => [|ids|] + EncodeIds(ids)
  }

  /** XMIT and DATA carry no padding: their payload runs to the end. */
  function Plaintext(p: Packet, pad: seq<byte>): seq<byte>
    requires p.MACK? ==> |p.ids| < 256
    requires p.XMIT? || p.DATA? ==> pad == []
  {
    [PROTO_VERSION, CommandOf(p)] + Body(p) + pad
  }

  function Parse(b: seq<byte>): Option<Packet>
  {
    if |b| < COMMAND_OVERHEAD || b[0] != PROTO_VERSION then None
    else match b[1]
      case 1 =>
        if |b| < XMIT_OVERHEAD then None
        else Some(XMIT(FromBigEndian(b[2..4]), FromBigEndian(b[4..12]), b[12..44], b[44..]))
      case 2 =>
        if |b| < DATA_OVERHEAD then None
        else Some(DATA(FromBigEndian(b[2..4]), FromBigEndian(b[4..12]), b[12..]))
      case 3 =>
        if |b| < 11 then None else Some(ACKS(FromBigEndian(b[2..10]), ByteMask(b[10])))
      case 4 =>
        if |b| < COMMAND_OVERHEAD + 8 then None else Some(NACK(FromBigEndian(b[2..10])))
      case 5 =>
        if |b| < 3 then None
        else
          var n: nat := b[2];
          if |b| < 3 + 8 * n then None else Some(MACK(DecodeIds(b[3..], n)))
      case _ => None
  }

  lemma {:induction false} IdsRoundTrip(ids: seq<nat>, pad: seq<byte>)
    requires forall id | id in ids :: id < U64_SIZE
    ensures |EncodeIds(ids)| == 8 * |ids|
    ensures DecodeIds(EncodeIds(ids) + pad, |ids|) == ids
  {
    hide BigEndian, FromBigEndian;
    if ids != [] {
      assert ids[0] in ids && forall id | id in ids[1..] :: id in ids;
      IdsRoundTrip(ids[1..], pad);
      U64RoundTrip(ids[0]);
      var b := EncodeIds(ids) + pad;
      assert b == BigEndian(ids[0], 8) + (EncodeIds(ids[1..]) + pad);
      assert b[..8] == BigEndian(ids[0], 8) && b[8..] == EncodeIds(ids[1..]) + pad;
    }
  }

  lemma XmitRoundTrip(p: Packet)
    requires p.XMIT? && Encodable(p)
    ensures Parse(Plaintext(p, [])) == Some(p)
  {
    hide BigEndian, FromBigEndian;
    var b := Plaintext(p, []);
    U16RoundTrip(p.size);
    U64RoundTrip(p.id);
    assert b[2..4] == BigEndian(p.size, 2) && b[4..12] == BigEndian(p.id, 8);
    assert b[12..44] == p.digest && b[44..] == p.head;
  }

  lemma DataRoundTrip(p: Packet)
    requires p.DATA? && Encodable(p)
    ensures Parse(Plaintext(p, [])) == Some(p)
  {
    hide BigEndian, FromBigEndian;
    var b := Plaintext(p, []);
    U16RoundTrip(p.offset);
    U64RoundTrip(p.id);
    assert b[2..4] == BigEndian(p.offset, 2) && b[4..12] == BigEndian(p.id, 8) && b[12..] == p.fragment;
  }

  lemma AckRoundTrip(p: Packet, pad: seq<byte>)
    requires (p.ACKS? || p.NACK?) && Encodable(p)
    ensures Parse(Plaintext(p, pad)) == Some(p)
  {
    hide BigEndian, FromBigEndian, MaskByte, ByteMask;
    var b := Plaintext(p, pad);
    U64RoundTrip(p.id);
    assert b[2..10] == BigEndian(p.id, 8);
    if p.ACKS? {
      assert b[10] == MaskByte(p.mask);
      MaskRoundTrip(p.mask);
    }
  }

  lemma MackRoundTrip(p: Packet, pad: seq<byte>)
    requires p.MACK? && Encodable(p)
    ensures Parse(Plaintext(p, pad)) == Some(p)
  {
    hide BigEndian, FromBigEndian, EncodeIds, DecodeIds;
    var b := Plaintext(p, pad);
    IdsRoundTrip(p.ids, pad);
    assert b[2] == |p.ids| && b[3..] == EncodeIds(p.ids) + pad;
  }

  /** What a handler reads is what the sender wrote, whatever the padding. */
  lemma PacketRoundTrip(p: Packet, pad: seq<byte>)
    requires Encodable(p) && (p.XMIT? || p.DATA? ==> pad == [])
    ensures Parse(Plaintext(p, pad)) == Some(p)
  {
    match p
    case XMIT(_, _, _, _) => XmitRoundTrip(p);
    case DATA(_, _, _) => DataRoundTrip(p);
    case ACKS(_, _) => AckRoundTrip(p, pad);
    case NACK(_) => AckRoundTrip(p, pad);
    case MACK(_) => MackRoundTrip(p, pad);
  }

  // ---------------------------------------------------------- only what was written is read

  lemma {:induction false} BitsOfMask(b: nat, mask: set<nat>, j: nat)
    requires j <= 8 && b < Pow2(8 - j) && forall k: nat | j + k < 8 :: j + k in mask <==> TestBit(b, k)
    ensures MaskBits(mask, j) == b
    decreases 8 - j
  {
    if j < 8 {
      assert j + 0 in mask <==> TestBit(b, 0);
      forall k: nat | j + 1 + k < 8
        ensures j + 1 + k in mask <==> TestBit(b / 2, k)
      {
        assert j + (k + 1) in mask <==> TestBit(b, k + 1);
      }
      BitsOfMask(b / 2, mask, j + 1);
    }
  }

  lemma MaskOfByte(b: byte)
    ensures MaskByte(ByteMask(b)) == b
  {
    Pow8();
    BitsOfMask(b, ByteMask(b), 0);
  }

  lemma {:induction false} IdsOfBytes(b: seq<byte>, n: nat)
    requires 8 * n <= |b|
    ensures |DecodeIds(b, n)| == n && EncodeIds(DecodeIds(b, n)) == b[..8 * n]
    ensures forall id | id in DecodeIds(b, n) :: id < U64_SIZE
    decreases n
  {
    hide BigEndian, FromBigEndian;
    if n > 0 {
      U64OfBytes(b[..8]);
      IdsOfBytes(b[8..], n - 1);
      assert DecodeIds(b, n)[1..] == DecodeIds(b[8..], n - 1);
      assert b[..8 * n] == b[..8] + b[8..][..8 * (n - 1)];
    }
  }

  lemma XmitWasWritten(b: seq<byte>)
    requires Parse(b).Some? && Parse(b).value.XMIT?
    ensures Encodable(Parse(b).value) && b == Plaintext(Parse(b).value, [])
  {
    hide BigEndian, FromBigEndian;
    U16OfBytes(b[2..4]);
    U64OfBytes(b[4..12]);
    var size, id, digest, head := b[2..4], b[4..12], b[12..44], b[44..];
    assert b == b[..2] + (size + id + digest + head) + [];
  }

  lemma DataWasWritten(b: seq<byte>)
    requires Parse(b).Some? && Parse(b).value.DATA?
    ensures Encodable(Parse(b).value) && b == Plaintext(Parse(b).value, [])
  {
    hide BigEndian, FromBigEndian;
    U16OfBytes(b[2..4]);
    U64OfBytes(b[4..12]);
    var offset, id, fragment := b[2..4], b[4..12], b[12..];
    assert b == b[..2] + (offset + id + fragment) + [];
  }

  lemma AckWasWritten(b: seq<byte>) returns (pad: seq<byte>)
    requires Parse(b).Some? && (Parse(b).value.ACKS? || Parse(b).value.NACK?)
    ensures Encodable(Parse(b).value) && b == Plaintext(Parse(b).value, pad)
  {
    hide BigEndian, FromBigEndian, MaskByte;
    U64OfBytes(b[2..10]);
    if Parse(b).value.ACKS? {
      MaskOfByte(b[10]);
      pad := b[11..];
      assert b == b[..2] + (b[2..10] + [b[10]]) + b[11..];
    } else {
      pad := b[10..];
      assert b == b[..2] + b[2..10] + b[10..];
    }
  }

  lemma MackWasWritten(b: seq<byte>) returns (pad: seq<byte>)
    requires Parse(b).Some? && Parse(b).value.MACK?
    ensures Encodable(Parse(b).value) && b == Plaintext(Parse(b).value, pad)
  {
    hide EncodeIds, DecodeIds;
    var n: nat := b[2];
    pad := b[3 + 8 * n..];
    IdsOfBytes(b[3..], n);
    assert b == b[..2] + ([b[2]] + b[3..][..8 * n]) + b[3 + 8 * n..];
  }

  ghost predicate Writes(p: Packet, pad: seq<byte>, b: seq<byte>)
    requires Encodable(p)
  {
    (p.XMIT? || p.DATA? ==> pad == []) && b == Plaintext(p, pad)
  }

  /** A plaintext is read as a packet if and only if it is what a sender writes for it, with some padding. */
  lemma ParsesExactly(b: seq<byte>, p: Packet)
    ensures Parse(b) == Some(p) <==> Encodable(p) && exists pad :: Writes(p, pad, b)
  {
    hide Parse, Plaintext;
    if Encodable(p) {
      forall pad | Writes(p, pad, b)
        ensures Parse(b) == Some(p)
      {
        PacketRoundTrip(p, pad);
      }
    }
    if Parse(b) == Some(p) {
      var pad := [];
      if p.XMIT? {
        XmitWasWritten(b);
      } else if p.DATA? {
        DataWasWritten(b);
      } else if p.MACK? {
        pad := MackWasWritten(b);
      } else {
        pad := AckWasWritten(b);
      }
      assert Writes(p, pad, b);
    }
  }
}
