/** Octets and the big-endian layout that Python's `struct` uses under the `!` prefix. */
module Bytes {

  type byte = x: int | 0 <= x < 256

  /** A 64-bit pattern: the opaque content of a `d` (IEEE-754 binary64) field. */
  type u64 = x: int | 0 <= x < 0x1_0000_0000_0000_0000

  function Pow256(n: nat): (p: nat)
    ensures p > 0
  {
    if n == 0 then 1 else 256 * Pow256(n - 1)
  }

  lemma Pow256Of8()
    ensures Pow256(8) == 0x1_0000_0000_0000_0000
  {
    assert Pow256(0) == 1;
    assert Pow256(4) == 256 * 256 * 256 * 256;
  }

  function Zeros(n: nat): (r: seq<byte>)
    ensures |r| == n
    ensures forall i :: 0 <= i < n ==> r[i] == 0
  {
    if n == 0 then [] else Zeros(n - 1) + [0]
  }

  /** The `n` low-order octets of `x`, most significant first. */
  function ToBigEndian(x: nat, n: nat): (r: seq<byte>)
    ensures |r| == n
  {
    if n == 0 then [] else ToBigEndian(x / 256, n - 1) + [x % 256]
  }

  /** The number whose big-endian octets are `s`. */
  function FromBigEndian(s: seq<byte>): (x: nat)
    ensures x < Pow256(|s|)
  {
    if s == [] then 0 else FromBigEndian(s[..|s| - 1]) * 256 + s[|s| - 1]
  }

  lemma {:induction false} FromToBigEndian(x: nat, n: nat)
    requires x < Pow256(n)
    ensures FromBigEndian(ToBigEndian(x, n)) == x
  {
    if n > 0 {
      var hi, lo := x / 256, x % 256;
      assert hi < Pow256(n - 1) by {
        assert x < 256 * Pow256(n - 1);
      }
      FromToBigEndian(hi, n - 1);
      var s := ToBigEndian(x, n);
      assert s[..n - 1] == ToBigEndian(hi, n - 1) && s[n - 1] == lo;
      assert FromBigEndian(s) == hi * 256 + lo;
    }
  }

  lemma {:induction false} ToFromBigEndian(s: seq<byte>)
    ensures ToBigEndian(FromBigEndian(s), |s|) == s
  {
    if s != [] {
      var n := |s|;
      var x := FromBigEndian(s);
      assert x / 256 == FromBigEndian(s[..n - 1]) && x % 256 == s[n - 1];
      ToFromBigEndian(s[..n - 1]);
    }
  }

  /** `struct.pack('!d', …)` on the bit pattern of the value. */
  function PackDouble(bits: u64): (r: seq<byte>)
    ensures |r| == 8
  {
    ToBigEndian(bits, 8)
  }

  /** `struct.unpack('!d', …)` giving back the bit pattern. */
  function UnpackDouble(s: seq<byte>): (bits: u64)
    requires |s| == 8
  {
    Pow256Of8();
    FromBigEndian(s)
  }

  lemma UnpackPackDouble(bits: u64)
    ensures UnpackDouble(PackDouble(bits)) == bits
  {
    Pow256Of8();
    FromToBigEndian(bits, 8);
  }

  lemma PackUnpackDouble(s: seq<byte>)
    requires |s| == 8
    ensures PackDouble(UnpackDouble(s)) == s
  {
    ToFromBigEndian(s);
  }
}
