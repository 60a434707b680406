/**
  `RouterID::FromString`: which texts are master node addresses. Lengths are those of `size_t`, so a
  difference below zero wraps around. The base32z alphabet belongs to a library; which characters it
  has is a parameter, and a dot is not one of them.
*/
module RouterId {
  import Bytes
  import B = Base32z

  const SIZE_T := 0x1_0000_0000_0000_0000
  const NPOS := SIZE_T - 1

  predicate StartsWith(s: string, pattern: string)
  {
    |pattern| <= |s| && s[..|pattern|] == pattern
  }

  /** `find`: where the pattern occurs first. */
  function Find(s: string, pattern: string): (pos: nat)
    ensures pos == NPOS || pos + |pattern| <= |s|
  {
    if StartsWith(s, pattern) then 0
    else if s == [] then NPOS
    else
      var rest := Find(s[1..], pattern);
      if rest == NPOS then NPOS else 1 + rest
  }

  /** A difference of two lengths. */
  function Minus(a: nat, b: nat): nat
    requires a < SIZE_T && b < SIZE_T
  {
    (a + SIZE_T - b) % SIZE_T
  }

  predicate AllIn(s: string, symbols: set<char>)
  {
    forall i | 0 <= i < |s| :: s[i] in symbols
  }

  /** The checks of `FromString`, in its order. */
  predicate Accepts(s: string, symbols: set<char>)
    requires |s| < SIZE_T
  {
    && Find(s, B.TLD) == Minus(|s|, |B.TLD|)
    && Minus(|s|, |B.TLD|) == 52
    && AllIn(s[..52], symbols)
    && (s[51] == 'o' || s[51] == 'y')
  }

  /** A `.mnode` after 52 symbols of which the last is `o` or `y`. */
  predicate IsMnodeName(s: string, symbols: set<char>)
  {
    |s| == 58 && s[52..] == ".mnode" && AllIn(s[..52], symbols) && (s[51] == 'o' || s[51] == 'y')
  }

  lemma {:induction false} FoundThere(s: string, pattern: string)
    requires Find(s, pattern) != NPOS
    ensures s[Find(s, pattern)..Find(s, pattern) + |pattern|] == pattern
  {
    if !StartsWith(s, pattern) {
      FoundThere(s[1..], pattern);
      var n := Find(s[1..], pattern);
      assert s[1..][n..n + |pattern|] == s[1 + n..1 + n + |pattern|];
    }
  }

  /** A pattern is not found earlier than its first character occurs. */
  lemma {:induction false} FindSkips(s: string, pattern: string, n: nat)
    requires pattern != [] && n + |pattern| <= |s| < NPOS && s[n..n + |pattern|] == pattern
    requires forall i | 0 <= i < n :: s[i] != pattern[0]
    ensures Find(s, pattern) == n
  {
    if n > 0 {
      assert s[..|pattern|][0] == s[0];
      assert s[1..][n - 1..n - 1 + |pattern|] == s[n..n + |pattern|];
      FindSkips(s[1..], pattern, n - 1);
    } else {
      assert s[..|pattern|] == s[0..|pattern|];
    }
  }

  /**
    For every text: accepted if and only if it is a `.mnode` name; in particular a text shorter than the
    suffix is refused.
  */
  lemma AcceptsExactly(s: string, symbols: set<char>)
    requires |s| < NPOS && '.' !in symbols
    ensures Accepts(s, symbols) <==> IsMnodeName(s, symbols)
  {
    hide Find;
    if IsMnodeName(s, symbols) {
      forall i | 0 <= i < 52
        ensures s[i] != '.'
      {
        assert s[..52][i] in symbols;
      }
      assert s[52..58] == s[52..];
      FindSkips(s, B.TLD, 52);
    }
    if Accepts(s, symbols) {
      assert |s| == 58;
      FoundThere(s, B.TLD);
      assert s[52..58] == s[52..];
    }
  }

  /** Every address the tool prints is accepted, if the library's alphabet has the tool's symbols. */
  lemma PrintedIsAccepted(key: nat, symbols: set<char>)
    requires key < Bytes.Pow2(B.KEY_BITS) && '.' !in symbols && forall c | B.IsSymbol(c) :: c in symbols
    ensures Accepts(B.Address(key) + B.TLD, symbols)
  {
    hide Accepts, B.IsSymbol, B.Address, B.KeyOf, Bytes.Pow2;
    B.AddressRoundTrip(key);
    var a := B.Address(key);
    assert AllIn(a, symbols);
    var s := a + B.TLD;
    assert s[..52] == a && s[52..] == B.TLD;
    AcceptsExactly(s, symbols);
  }
}
