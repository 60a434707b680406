/** DHT keys: 32 bytes, XOR distance, and the order on distances. */
module DhtKeys {
  import opened Bytes

  const KEY_SIZE := 32

  type Key = k: seq<byte> | |k| == 32 witness seq(32, _ => 0)

  function Repeat(b: byte, n: nat): (r: seq<byte>)
    ensures |r| == n
  {
    seq(n, _ => b)
  }

  const ZERO: Key := Repeat(0, KEY_SIZE)
  const FARTHEST: Key := Repeat(255, KEY_SIZE)

  function Distance(a: Key, b: Key): Key
  {
    Xor(a, b)
  }

  /** Bytewise lexicographic order. */
  predicate Less(a: seq<byte>, b: seq<byte>)
  {
    if a == [] then b != []
    else b != [] && (a[0] < b[0] || (a[0] == b[0] && Less(a[1..], b[1..])))
  }

  /** `XorMetric`: `a` is nearer to `us` than `b`. */
  predicate Nearer(us: Key, a: Key, b: Key)
  {
    Less(Distance(us, a), Distance(us, b))
  }

  lemma {:induction false} LessIrreflexive(a: seq<byte>)
    ensures !Less(a, a)
  {
    if a != [] {
      LessIrreflexive(a[1..]);
    }
  }

  lemma {:induction false} LessTransitive(a: seq<byte>, b: seq<byte>, c: seq<byte>)
    requires Less(a, b) && Less(b, c)
    ensures Less(a, c)
  {
    if a != [] && a[0] == b[0] == c[0] {
      LessTransitive(a[1..], b[1..], c[1..]);
    }
  }

  lemma {:induction false} LessTotal(a: seq<byte>, b: seq<byte>)
    requires |a| == |b| && a != b
    ensures Less(a, b) || Less(b, a)
  {
    if a != [] && a[0] == b[0] {
      assert a == [a[0]] + a[1..] && b == [b[0]] + b[1..];
      LessTotal(a[1..], b[1..]);
    }
  }

  /** Only equal keys are equally far from a third. */
  lemma DistanceInjective(us: Key, a: Key, b: Key)
    requires Distance(us, a) == Distance(us, b)
    ensures a == b
  {
    XorLaws(a, us);
    XorLaws(b, us);
    XorLaws(us, a);
    XorLaws(us, b);
  }

  /** For every centre the metric is a strict total order on keys. */
  lemma NearerIsStrictTotalOrder(us: Key, a: Key, b: Key, c: Key)
    ensures !Nearer(us, a, a)
    ensures Nearer(us, a, b) && Nearer(us, b, c) ==> Nearer(us, a, c)
    ensures a != b ==> (Nearer(us, a, b) <==> !Nearer(us, b, a))
  {
    LessIrreflexive(Distance(us, a));
    if Nearer(us, a, b) && Nearer(us, b, c) {
      LessTransitive(Distance(us, a), Distance(us, b), Distance(us, c));
    }
    if a != b {
      if Distance(us, a) == Distance(us, b) {
        DistanceInjective(us, a, b);
      }
      LessTotal(Distance(us, a), Distance(us, b));
      if Nearer(us, a, b) && Nearer(us, b, a) {
        LessTransitive(Distance(us, a), Distance(us, b), Distance(us, a));
      }
    }
  }

  lemma {:induction false} LessThanAllOnes(a: seq<byte>, n: nat)
    requires |a| == n
    ensures Less(a, Repeat(255, n)) <==> a != Repeat(255, n)
  {
    var ones := Repeat(255, n);
    if n > 0 {
      assert ones[1..] == Repeat(255, n - 1);
      assert a == [a[0]] + a[1..] && ones == [255] + ones[1..];
      LessThanAllOnes(a[1..], n - 1);
    }
  }

  /** The initial distance of the searches is beaten by every key but the target's complement. */
  lemma BeatsFarthest(target: Key, a: Key)
    ensures Less(Distance(a, target), FARTHEST) <==> Distance(a, target) != FARTHEST
  {
    LessThanAllOnes(Distance(a, target), KEY_SIZE);
  }

  /** The order on equally long keys is the order of the numbers they spell. */
  lemma {:induction false} LessIsNumeric(a: seq<byte>, b: seq<byte>)
    requires |a| == |b|
    ensures Less(a, b) <==> Number(a) < Number(b)
  {
    hide Pow256;
    if a != [] {
      LessIsNumeric(a[1..], b[1..]);
      NumberBound(a[1..]);
      NumberBound(b[1..]);
      var p := Pow256(|a| - 1);
      if a[0] < b[0] {
        DigitOrder(a[0], b[0], p, Number(a[1..]), Number(b[1..]));
      } else if b[0] < a[0] {
        DigitOrder(b[0], a[0], p, Number(b[1..]), Number(a[1..]));
      }
    }
  }

  /** A byte string read as a number, first byte most significant. */
  function Number(a: seq<byte>): nat
  {
    if a == [] then 0 else a[0] * Pow256(|a| - 1) + Number(a[1..])
  }

  lemma {:induction false} NumberBound(a: seq<byte>)
    ensures Number(a) < Pow256(|a|)
  {
    if a != [] {
      NumberBound(a[1..]);
      DigitBound(a[0], Pow256(|a| - 1), Number(a[1..]));
    }
  }

  lemma {:induction false} MulMonotone(x: nat, y: nat, p: nat)
    requires x <= y
    ensures x * p <= y * p
    decreases y - x
  {
    if x < y {
      MulMonotone(x, y - 1, p);
      assert y * p == (y - 1) * p + p;
    }
  }

  lemma DigitOrder(x: byte, y: byte, p: nat, r: nat, q: nat)
    requires x < y && r < p
    ensures x * p + r < y * p + q
  {
    MulMonotone(x + 1, y, p);
    assert (x + 1) * p == x * p + p;
  }

  lemma DigitBound(x: byte, p: nat, rest: nat)
    requires rest < p
    ensures x * p + rest < 256 * p
  {
    MulMonotone(x, 255, p);
  }
}
