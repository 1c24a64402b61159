/** Octets and big-endian unsigned integers built from them. */
module Bytes {

  /** An octet of the advertising buffer, as its unsigned value (Kotlin's `toInt() and 0xff`). */
  type byte = x: int | 0 <= x < 256

  /** A 64-bit pattern (a Kotlin `Long`), read as an unsigned value. */
  type u64 = x: int | 0 <= x < 0x1_0000_0000_0000_0000

  function Pow256(k: nat): (p: nat)
    ensures p >= 1
  {
    if k == 0 then 1 else 256 * Pow256(k - 1)
  }

  /** The unsigned value of `s` with its first byte most significant. */
  function BigEndian(s: seq<byte>): (n: nat)
    ensures n < Pow256(|s|)
  {
    if s == [] then 0 else BigEndian(s[..|s| - 1]) * 256 + s[|s| - 1]
  }

  /** The `k` low-order bytes of `n`, most significant first. */
  function Encode(n: nat, k: nat): (s: seq<byte>)
    ensures |s| == k
  {
    if k == 0 then [] else Encode(n / 256, k - 1) + [n % 256]
  }

  lemma EightBytesAreSixtyFourBits()
    ensures Pow256(8) == 0x1_0000_0000_0000_0000
  {
  }

  lemma BigEndianPair(s: seq<byte>)
    requires |s| == 2
    ensures BigEndian(s) == s[0] as int * 256 + s[1]
  {
    assert s[..1][..0] == [];
  }

  /** Decoding the `k`-byte big-endian encoding of a value below 256^k gives the value back. */
  lemma {:induction false} BigEndianOfEncode(n: nat, k: nat)
    requires n < Pow256(k)
    ensures BigEndian(Encode(n, k)) == n
  {
    if k > 0 {
      assert n / 256 < Pow256(k - 1);
      BigEndianOfEncode(n / 256, k - 1);
      var s := Encode(n, k);
      assert s[..|s| - 1] == Encode(n / 256, k - 1);
    }
  }

  /** Encoding the big-endian value of a byte string at its own width gives the string back. */
  lemma {:induction false} EncodeOfBigEndian(s: seq<byte>)
    ensures Encode(BigEndian(s), |s|) == s
  {
    if s != [] {
      var p := s[..|s| - 1];
      EncodeOfBigEndian(p);
      var n := BigEndian(s);
      assert n / 256 == BigEndian(p) && n % 256 == s[|s| - 1];
      assert s == p + [s[|s| - 1]];
    }
  }

  /** Two byte strings of the same length with the same big-endian value are equal. */
  lemma BigEndianInjective(s: seq<byte>, t: seq<byte>)
    requires |s| == |t| && BigEndian(s) == BigEndian(t)
    ensures s == t
  {
    EncodeOfBigEndian(s);
    EncodeOfBigEndian(t);
  }
}
