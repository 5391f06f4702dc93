/** Octets, 16-bit words and their little-endian form, as the MT serial protocol uses them. */
module Bytes {

  type byte = bv8
  type word = bv16

  /** The octet of value `n`, counted up from zero. */
  function Octet(n: nat): (b: byte)
    requires n < 256
    ensures b as nat == n
  {
    if n == 0 then 0
    else
      var m := Octet(n - 1);
      assert m < 255;
      m + 1
  }

  /** The low and the high octet of a word. */
  function Lo(w: word): byte { (w & 0xFF) as byte }
  function Hi(w: word): byte { ((w >> 8) & 0xFF) as byte }

  /** The macro that puts a word back together from two octets. */
  function BuildWord(lo: byte, hi: byte): word { (lo as word) + ((hi as word) << 8) }

  /** Which octet is the low one: the first of the two, bits 0 to 7 of the word. */
  lemma WordBits(w: word, lo: byte, hi: byte)
    ensures BuildWord(lo, hi) & 0x00FF == lo as word && BuildWord(lo, hi) >> 8 == hi as word
    ensures Lo(w) as word == w & 0x00FF && Hi(w) as word == w >> 8
  {}

  lemma WordRoundTrip(w: word)
    ensures BuildWord(Lo(w), Hi(w)) == w
  {}

  /** XOR of the first `n` octets of `s`. */
  function XorTo(s: seq<byte>, n: nat): byte
    requires n <= |s|
  {
    if n == 0 then 0 else XorTo(s, n - 1) ^ s[n - 1]
  }

  function Xor(s: seq<byte>): byte { XorTo(s, |s|) }

  lemma {:induction false} XorToPrefix(s: seq<byte>, t: seq<byte>, n: nat)
    requires n <= |s| && n <= |t|
    requires forall i :: 0 <= i < n ==> s[i] == t[i]
    ensures XorTo(s, n) == XorTo(t, n)
  {
    if n > 0 { XorToPrefix(s, t, n - 1); }
  }

  lemma {:induction false} XorConcat(s: seq<byte>, t: seq<byte>, n: nat)
    requires n <= |t|
    ensures XorTo(s + t, |s| + n) == Xor(s) ^ XorTo(t, n)
  {
    if n == 0 {
      XorToPrefix(s + t, s, |s|);
    } else {
      XorConcat(s, t, n - 1);
    }
  }

  /** The bitwise differences between two sequences of the same length. */
  function Difference(s: seq<byte>, t: seq<byte>): (d: seq<byte>)
    requires |s| == |t|
    ensures |d| == |s|
  {
    seq(|s|, i requires 0 <= i < |s| => s[i] ^ t[i])
  }

  lemma {:induction false} XorDifference(s: seq<byte>, t: seq<byte>, n: nat)
    requires |s| == |t| && n <= |s|
    ensures XorTo(Difference(s, t), n) == XorTo(s, n) ^ XorTo(t, n)
  {
    if n > 0 { XorDifference(s, t, n - 1); }
  }

  /** A sequence that is zero except at one place has that octet as its XOR. */
  lemma {:induction false} XorSingle(s: seq<byte>, k: nat, n: nat)
    requires k < |s| && n <= |s|
    requires forall i :: 0 <= i < |s| && i != k ==> s[i] == 0
    ensures XorTo(s, n) == if k < n then s[k] else 0
  {
    if n > 0 { XorSingle(s, k, n - 1); }
  }

  // ---------- Stretches of sequences ----------

  lemma TakeTwice<T>(s: seq<T>, n: nat, m: nat)
    requires n <= m <= |s|
    ensures s[..n] + s[n..][..m - n] == s[..m]
    ensures s[n..][m - n..] == s[m..]
  {}

  lemma TakeOneMore<T>(s: seq<T>, n: nat)
    requires 0 < n <= |s|
    ensures s[..n] == s[..n - 1] + [s[n - 1]]
  {}

  /** A stretch that consists of two parts. */
  lemma TwoParts<T>(s: seq<T>, at: nat, x: seq<T>, y: seq<T>)
    requires at + |x| + |y| <= |s|
    requires s[at..at + |x| + |y|] == x + y
    ensures s[at..at + |x|] == x
    ensures s[at + |x|..at + |x| + |y|] == y
  {
    var part := s[at..at + |x| + |y|];
    assert s[at..at + |x|] == part[..|x|];
    assert s[at + |x|..at + |x| + |y|] == part[|x|..];
  }
}
