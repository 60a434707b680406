/**
  base32z addresses of master nodes: the streaming encoder and the decoder of the address tool, against
  the number a key spells.
*/
module Base32z {
  import opened Bytes
  import opened Wrappers

  function Alphabet(): (s: string)
    ensures |s| == 32
  {
    "ybndrfg8ejkmcpqxot1uwisza345h769"
  }

  /** The place of a character in a text, or the length if it is not there. */
  function IndexOf(text: string, c: char): (n: nat)
    ensures n <= |text| && (n < |text| ==> text[n] == c)
  {
    if text == [] || text[0] == c then 0 else 1 + IndexOf(text[1..], c)
  }

  predicate IsSymbol(c: char)
  {
    IndexOf(Alphabet(), c) < |Alphabet()|
  }

  lemma {:induction false} IndexOfDistinct(text: string, n: nat)
    requires n < |text| && text[n] !in text[..n]
    ensures IndexOf(text, text[n]) == n
  {
    if n > 0 {
      assert text[..n][0] == text[0] && text[1..][..n - 1] == text[..n][1..];
      IndexOfDistinct(text[1..], n - 1);
    }
  }

  lemma AlphabetDistinct()
    ensures forall i, j | 0 <= i < j < 32 :: Alphabet()[i] != Alphabet()[j]
  {
  }

  /** No symbol occurs twice, so reading a symbol gives the value it was written for. */
  lemma SymbolRoundTrip(v: nat)
    requires v < 32
    ensures IndexOf(Alphabet(), Alphabet()[v]) == v
  {
    AlphabetDistinct();
    hide Alphabet;
    IndexOfDistinct(Alphabet(), v);
  }

  // ------------------------------------------------------------------------- numbers

  predicate IsHex(c: char)
  {
    '0' <= c <= '9' || 'a' <= c <= 'f' || 'A' <= c <= 'F'
  }

  function HexValue(c: char): (v: nat)
    requires IsHex(c)
    ensures v < 16
  {
    if '0' <= c <= '9' then c as int - '0' as int
    else if 'a' <= c <= 'f' then c as int - 'a' as int + 10
    else c as int - 'A' as int + 10
  }

  predicate AllHex(s: string)
  {
    forall i | 0 <= i < |s| :: IsHex(s[i])
  }

  predicate AllSymbols(s: string)
  {
    forall i | 0 <= i < |s| :: IsSymbol(s[i])
  }

  /** The number some hexadecimal digits spell, most significant first. */
  function HexNumber(s: string): nat
    requires AllHex(s)
  {
    if s == [] then 0 else 16 * HexNumber(s[..|s| - 1]) + HexValue(s[|s| - 1])
  }

  function LowerCase(c: char): char
    requires IsHex(c)
  {
    if 'A' <= c <= 'F' then (c as int + 32) as char else c
  }

  /** Upper-case digits spell the same number as lower-case ones. */
  lemma {:induction false} CaseIsIgnored(s: string, lower: string)
    requires AllHex(s) && |lower| == |s| && forall i | 0 <= i < |s| :: lower[i] == LowerCase(s[i])
    ensures AllHex(lower) && HexNumber(lower) == HexNumber(s)
  {
    if s != [] {
      CaseIsIgnored(s[..|s| - 1], lower[..|s| - 1]);
    }
  }

  /** The number some base32z symbols spell. */
  function Number32(s: string): nat
  {
    if s == [] then 0 else 32 * Number32(s[..|s| - 1]) + IndexOf(Alphabet(), s[|s| - 1])
  }

  /** The last `w` base32z symbols of a number. */
  function Symbols32(n: nat, w: nat): (s: string)
    ensures |s| == w
  {
    if w == 0 then [] else Symbols32(n / 32, w - 1) + [Alphabet()[n % 32]]
  }

  lemma {:induction false} SymbolsOfNumber(s: string)
    requires AllSymbols(s)
    ensures Symbols32(Number32(s), |s|) == s
  {
    hide Alphabet, IndexOf;
    if s != [] {
      var rest, last := s[..|s| - 1], s[|s| - 1];
      assert IsSymbol(last);
      SymbolsOfNumber(rest);
      assert Number32(s) / 32 == Number32(rest) && Number32(s) % 32 == IndexOf(Alphabet(), last);
    }
  }

  lemma {:induction false} NumberOfSymbols(n: nat, w: nat)
    requires n < Pow2(5 * w)
    ensures AllSymbols(Symbols32(n, w)) && Number32(Symbols32(n, w)) == n
  {
    hide Alphabet, IndexOf;
    if w > 0 {
      Pow2Times32(5 * (w - 1));
      NumberOfSymbols(n / 32, w - 1);
      SymbolRoundTrip(n % 32);
      var s := Symbols32(n, w);
      assert s[..w - 1] == Symbols32(n / 32, w - 1);
    }
  }

  lemma Pow2Times32(n: nat)
    ensures Pow2(n + 5) == 32 * Pow2(n)
  {
    assert Pow2(n + 3) == 2 * Pow2(n + 2);
    assert Pow2(n + 5) == 2 * Pow2(n + 4);
  }

  lemma {:induction false} HexBound(s: string)
    requires AllHex(s)
    ensures HexNumber(s) < Pow2(4 * |s|)
  {
    if s != [] {
      HexBound(s[..|s| - 1]);
      assert Pow2(4 * |s| - 2) == 2 * Pow2(4 * |s| - 3);
      assert Pow2(4 * |s|) == 2 * Pow2(4 * |s| - 1);
    }
  }

  lemma {:induction false} NumberBound(s: string)
    requires AllSymbols(s)
    ensures Number32(s) < Pow2(5 * |s|)
  {
    hide Alphabet, IndexOf;
    if s != [] {
      assert IsSymbol(s[|s| - 1]);
      NumberBound(s[..|s| - 1]);
      Pow2Times32(5 * (|s| - 1));
    }
  }

  // ----------------------------------------------------------------------- addresses

  const KEY_BITS := 256
  const ADDRESS_LENGTH := 52
  const TLD: string := ".mnode"

  /** 52 symbols, of which the last carries one bit only. */
  predicate IsAddress(a: string)
  {
    |a| == ADDRESS_LENGTH && AllSymbols(a) && (a[|a| - 1] == 'y' || a[|a| - 1] == 'o')
  }

  /** The address of a key: its 256 bits and four zero bits, five bits to a symbol. */
  function Address(key: nat): (a: string)
    ensures |a| == ADDRESS_LENGTH
  {
    Symbols32(16 * key, ADDRESS_LENGTH)
  }

  function KeyOf(a: string): nat
  {
    Number32(a) / 16
  }

  lemma YO()
    ensures Alphabet()[0] == 'y' && Alphabet()[16] == 'o'
    ensures IndexOf(Alphabet(), 'y') == 0 && IndexOf(Alphabet(), 'o') == 16
  {
    hide IndexOf;
    SymbolRoundTrip(0);
    SymbolRoundTrip(16);
  }

  lemma Pow2Times16(n: nat)
    ensures Pow2(n + 4) == 16 * Pow2(n)
  {
    assert Pow2(n + 2) == 2 * Pow2(n + 1);
    assert Pow2(n + 4) == 2 * Pow2(n + 3);
  }

  /**
    Every key of 256 bits has an address of 52 symbols ending in `y` or `o`, from which the decoder
    recovers the key.
  */
  lemma AddressRoundTrip(key: nat)
    requires key < Pow2(KEY_BITS)
    ensures IsAddress(Address(key)) && KeyOf(Address(key)) == key
  {
    hide Pow2, Symbols32, Number32, Alphabet, IndexOf;
    Pow2Times16(KEY_BITS);
    NumberOfSymbols(16 * key, ADDRESS_LENGTH);
    YO();
    LastSymbol(16 * key, ADDRESS_LENGTH);
    SixteenTimes(key);
  }

  /** So does every key of 64 hexadecimal digits. */
  lemma HexRoundTrip(pkHex: string)
    requires |pkHex| == 64 && AllHex(pkHex)
    ensures IsAddress(Address(HexNumber(pkHex))) && KeyOf(Address(HexNumber(pkHex))) == HexNumber(pkHex)
  {
    hide Pow2, HexNumber, Address, KeyOf;
    HexBound(pkHex);
    AddressRoundTrip(HexNumber(pkHex));
  }

  lemma LastSymbol(n: nat, w: nat)
    requires w > 0
    ensures Symbols32(n, w)[w - 1] == Alphabet()[n % 32]
  {
  }

  lemma SixteenTimes(key: nat)
    ensures (16 * key) % 32 == (if key % 2 == 0 then 0 else 16) && (16 * key) / 16 == key
  {
    assert 16 * key == 32 * (key / 2) + 16 * (key % 2);
  }

  lemma LastDigit(a: string)
    requires a != []
    ensures Number32(a) == 32 * Number32(a[..|a| - 1]) + IndexOf(Alphabet(), a[|a| - 1])
  {
  }

  lemma FourZeroBits(high: nat, last: nat)
    requires last == 0 || last == 16
    ensures 16 * ((32 * high + last) / 16) == 32 * high + last
  {
    var q := if last == 0 then 2 * high else 2 * high + 1;
    assert 32 * high + last == 16 * q;
  }

  /** Every address is the address of its key, and the key has 256 bits. */
  lemma KeyRoundTrip(a: string)
    requires IsAddress(a)
    ensures KeyOf(a) < Pow2(KEY_BITS) && Address(KeyOf(a)) == a
  {
    hide Pow2, Symbols32, Number32, Alphabet, IndexOf;
    YO();
    LastDigit(a);
    FourZeroBits(Number32(a[..|a| - 1]), IndexOf(Alphabet(), a[|a| - 1]));
    NumberBound(a);
    Pow2Times16(KEY_BITS);
    SymbolsOfNumber(a);
  }

  // ---------------------------------------------------------------- the address tool

  lemma SmallPowers()
    ensures Pow2(0) == 1 && Pow2(1) == 2 && Pow2(2) == 4 && Pow2(3) == 8 && Pow2(4) == 16
  {
    assert Pow2(2) == 4;
  }

  /** The number that written symbols of value `n` and `bits` more bits `val` make up. */
  function Held(n: nat, bits: nat, val: nat): nat
  {
    n * Pow2(bits) + val
  }

  /** Four bits enter the store and, if there were some, five leave it: the number read so far is kept. */
  lemma DigitKeepsNumber(n: nat, bits: nat, val: nat, d: nat)
    requires bits <= 4 && d < 16 && val < Pow2(bits)
    ensures
      var x := 16 * val + d;
      if bits == 0 then x < Pow2(4) && Held(n, 4, x) == 16 * Held(n, bits, val) + d
      else
        var p := Pow2(bits - 1);
        p > 0 && x / p < 32 && x % p < p && Held(32 * n + x / p, bits - 1, x % p) == 16 * Held(n, bits, val) + d
  {
    SmallPowers();
    hide Pow2;
    match bits
    case 0 =>
    case 1 =>
    case 2 =>
    case 3 =>
    case 4 =>
  }

  /** The bit store of the encoder: symbols written, and the bits not yet written. */
  ghost predicate Streams(hex: string, result: string, bits: nat, val: nat)
  {
    && AllHex(hex) && AllSymbols(result)
    && bits <= 4 && 4 * |hex| == 5 * |result| + bits && val < Pow2(bits)
    && Held(Number32(result), bits, val) == HexNumber(hex)
  }

  /** A symbol `v` leaves the store. */
  lemma StreamOut(hex: string, result: string, bits: nat, val: nat, c: char, v: nat, rest: nat)
    requires Streams(hex, result, bits, val) && IsHex(c) && bits > 0
    requires v < 32 && rest < Pow2(bits - 1)
    requires Held(32 * Number32(result) + v, bits - 1, rest) == 16 * Held(Number32(result), bits, val) + HexValue(c)
    ensures Streams(hex + [c], result + [Alphabet()[v]], bits - 1, rest)
  {
    hide Held, Pow2, Alphabet, IndexOf, HexValue, Number32;
    AppendDigit(hex, c);
    hide HexNumber;
    AppendSymbol(result, v);
  }

  lemma StreamIn(hex: string, result: string, val: nat, c: char, rest: nat)
    requires Streams(hex, result, 0, val) && IsHex(c)
    requires rest < Pow2(4) && Held(Number32(result), 4, rest) == 16 * Held(Number32(result), 0, val) + HexValue(c)
    ensures Streams(hex + [c], result, 4, rest)
  {
    hide Held, Pow2, Alphabet, IndexOf, HexValue, Number32;
    AppendDigit(hex, c);
    hide HexNumber;
  }

  lemma AppendDigit(hex: string, c: char)
    requires AllHex(hex) && IsHex(c)
    ensures AllHex(hex + [c]) && HexNumber(hex + [c]) == 16 * HexNumber(hex) + HexValue(c)
  {
    assert (hex + [c])[..|hex|] == hex;
  }

  lemma StreamEnd(hex: string, result: string, bits: nat, val: nat)
    requires |hex| == 64 && Streams(hex, result, bits, val)
    ensures bits == 1 && val < 2 && result + [Alphabet()[16 * val]] == Address(HexNumber(hex))
  {
    hide Alphabet, IndexOf, HexNumber, Symbols32, Number32;
    SmallPowers();
    AppendSymbol(result, 16 * val);
    SymbolsOfNumber(result + [Alphabet()[16 * val]]);
  }

  /** `belnet_mnode_addr`: four bits in, five bits out. */
  method MnodeAddr(pkHex: string) returns (r: Option<string>)
    ensures r == if |pkHex| == 64 && AllHex(pkHex) then Some(Address(HexNumber(pkHex)) + TLD) else None
  {
    hide Alphabet, HexNumber, Address, Held, Number32, HexValue, AllSymbols;
    if |pkHex| != 64 {
      return None;
    }
    var bits: nat, val: nat, result, i := 0, 0, "", 0;
    StreamStart();
    while i < |pkHex|
      invariant 0 <= i <= |pkHex| && Streams(pkHex[..i], result, bits, val)
    {
      if !IsHex(pkHex[i]) {
        return None;
      }
      var d := HexValue(pkHex[i]);
      ghost var bits', val' := bits, val;
      DigitKeepsNumber(Number32(result), bits, val, d);
      assert pkHex[..i + 1] == pkHex[..i] + [pkHex[i]];
      hide Streams;
      bits := bits + 4;
      val := 16 * val + d;
      if bits < 5 {
        StreamIn(pkHex[..i], result, val', pkHex[i], val);
      } else {
        bits := bits - 5;
        var v := val / Pow2(bits);
        val := val % Pow2(bits);
        StreamOut(pkHex[..i], result, bits', val', pkHex[i], v, val);
        result := result + [Alphabet()[v]];
      }
      i := i + 1;
    }
    assert pkHex[..i] == pkHex;
    StreamEnd(pkHex, result, bits, val);
    result := result + [Alphabet()[16 * val]];
    return Some(result + TLD);
  }

  lemma StreamStart()
    ensures Streams("", "", 0, 0)
  {
  }

  lemma AppendSymbol(s: string, v: nat)
    requires AllSymbols(s) && v < 32
    ensures AllSymbols(s + [Alphabet()[v]]) && Number32(s + [Alphabet()[v]]) == 32 * Number32(s) + v
  {
    hide Alphabet, IndexOf;
    SymbolRoundTrip(v);
    assert (s + [Alphabet()[v]])[..|s|] == s;
  }

  // ------------------------------------------------------------- the spelling of a key

  function LowerDigit(v: nat): (c: char)
    requires v < 16
    ensures IsHex(c) && !IsUpper(c) && HexValue(c) == v
  {
    "0123456789abcdef"[v]
  }

  predicate IsUpper(c: char)
  {
    'A' <= c <= 'Z'
  }

  predicate NoUpper(s: string)
  {
    forall i | 0 <= i < |s| :: !IsUpper(s[i])
  }

  /** Python's `x` format: lower-case digits without leading zeros. */
  function HexDigits(n: nat): (s: string)
    ensures |s| > 0
  {
    if n < 16 then [LowerDigit(n)] else HexDigits(n / 16) + [LowerDigit(n % 16)]
  }

  /** Python's `64x` format: padded with spaces on the left. */
  function Spelled(n: nat): string
  {
    var digits := HexDigits(n);
    seq(if |digits| < 64 then 64 - |digits| else 0, _ => ' ') + digits
  }

  lemma {:induction false} HexDigitsShape(n: nat)
    ensures NoUpper(HexDigits(n)) && (HexDigits(n)[0] == '0' <==> n == 0) && (n == 0 ==> |HexDigits(n)| == 1)
  {
    if n >= 16 {
      HexDigitsShape(n / 16);
    }
  }

  lemma DigitIsLower(c: char)
    requires IsHex(c) && !IsUpper(c)
    ensures LowerDigit(HexValue(c)) == c && (HexValue(c) == 0 <==> c == '0')
  {
  }

  /** Digits in lower case that do not start with a zero are those of their number. */
  lemma {:induction false} HexDigitsOfNumber(s: string)
    requires AllHex(s) && NoUpper(s) && s != [] && s[0] != '0'
    ensures HexDigits(HexNumber(s)) == s && HexNumber(s) > 0
  {
    hide LowerDigit, HexValue, IsUpper;
    var rest, last := s[..|s| - 1], s[|s| - 1];
    DigitIsLower(last);
    if rest != [] {
      HexDigitsOfNumber(rest);
      assert HexNumber(s) / 16 == HexNumber(rest) && HexNumber(s) % 16 == HexValue(last);
    }
  }

  /**
    Decoding the address of a key of 64 hexadecimal digits gives those digits back if and only if none is
    in upper case and the first is not a zero.
  */
  lemma HexRoundTripExactly(pkHex: string)
    requires |pkHex| == 64 && AllHex(pkHex)
    ensures Spelled(KeyOf(Address(HexNumber(pkHex)))) == pkHex <==> NoUpper(pkHex) && pkHex[0] != '0'
  {
    hide Address, KeyOf, HexNumber, HexDigits, IsUpper;
    var n := HexNumber(pkHex);
    HexRoundTrip(pkHex);
    HexDigitsShape(n);
    if NoUpper(pkHex) && pkHex[0] != '0' {
      HexDigitsOfNumber(pkHex);
      assert Spelled(n) == [] + pkHex;
    }
    if Spelled(n) == pkHex {
      assert IsHex(Spelled(n)[0]);
      assert Spelled(n) == [] + HexDigits(n);
    }
  }

  /** `hex_from_mnode`. */
  method HexFromMnode(b32z: string) returns (r: Option<string>)
    ensures r == if IsAddress(b32z) then Some(Spelled(KeyOf(b32z))) else None
  {
    hide Alphabet, IndexOf, Spelled;
    if |b32z| != 52 {
      return None;
    }
    var val, i := 0, 0;
    while i < |b32z|
      invariant 0 <= i <= |b32z| && AllSymbols(b32z[..i]) && val == Number32(b32z[..i])
    {
      if !IsSymbol(b32z[i]) {
        return None;
      }
      assert b32z[..i + 1][..i] == b32z[..i];
      val := 32 * val + IndexOf(Alphabet(), b32z[i]);
      i := i + 1;
    }
    assert b32z[..i] == b32z;
    if b32z[|b32z| - 1] !in "yo" {
      return None;
    }
    return Some(Spelled(val / 16));
  }
}
