/**
 * Strict UTF-8, as Python's `str.encode()` and `bytes.decode()` apply it with the default
 * codec and error handler: overlong forms, surrogates and code points above U+10FFFF are
 * rejected on decode.
 */
module Utf8 {
  import opened Bytes
  import opened Wrappers

  predicate IsContinuation(b: byte) {
    0x80 <= b < 0xC0
  }

  /** Octets of one Unicode scalar value. */
  function EncodeChar(c: char): (r: seq<byte>)
    ensures 1 <= |r| <= 4
  {
    var n := c as int;
    if n < 0x80 then [n]
    else if n < 0x800 then [0xC0 + n / 64, 0x80 + n % 64]
    else if n < 0x1_0000 then [0xE0 + n / 4096, 0x80 + (n / 64) % 64, 0x80 + n % 64]
    else [0xF0 + n / 262144, 0x80 + (n / 4096) % 64, 0x80 + (n / 64) % 64, 0x80 + n % 64]
  }

  /** `str.encode()`: one to four octets per character. */
  function Encode(s: string): (r: seq<byte>)
    ensures |s| <= |r| <= 4 * |s|
  {
    if s == [] then [] else EncodeChar(s[0]) + Encode(s[1..])
  }

  /** The scalar value at the start of `b` and the number of octets it occupies, or None
      when `b` does not start with a well-formed sequence. */
  function DecodeFirst(b: seq<byte>): (r: Option<(char, nat)>)
    requires |b| > 0
    ensures r.Some? ==> 1 <= r.value.1 <= |b| && r.value.1 <= 4
  {
    var b0: int := b[0];
    if b0 < 0x80 then
      Some((b0 as char, 1))
    else if 0xC2 <= b0 < 0xE0 then
      if |b| >= 2 && IsContinuation(b[1]) then
        Some((((b0 - 0xC0) * 64 + (b[1] as int - 0x80)) as char, 2))
      else None
    else if 0xE0 <= b0 < 0xF0 then
      var lo := if b0 == 0xE0 then 0xA0 else 0x80;
      var hi := if b0 == 0xED then 0xA0 else 0xC0;
      if |b| >= 3 && lo <= b[1] < hi && IsContinuation(b[2]) then
        Some((((b0 - 0xE0) * 4096 + (b[1] as int - 0x80) * 64 + (b[2] as int - 0x80)) as char, 3))
      else None
    else if 0xF0 <= b0 < 0xF5 then
      var lo := if b0 == 0xF0 then 0x90 else 0x80;
      var hi := if b0 == 0xF4 then 0x90 else 0xC0;
      if |b| >= 4 && lo <= b[1] < hi && IsContinuation(b[2]) && IsContinuation(b[3]) then
        Some((((b0 - 0xF0) * 262144 + (b[1] as int - 0x80) * 4096 + (b[2] as int - 0x80) * 64 + (b[3] as int - 0x80)) as char, 4))
      else None
    else None
  }

  /** `bytes.decode()`: None stands for the UnicodeDecodeError it raises. */
  function Decode(b: seq<byte>): (r: Option<string>)
    ensures r.Some? ==> |r.value| <= |b|
    decreases |b|
  {
    if b == [] then Some([])
    else match DecodeFirst(b)
      case None => None
      case Some((c, k)) =>
        match Decode(b[k..])
        case None => None
        case Some(rest) => Some([c] + rest)
  }

  lemma DecodeFirstOfEncodeChar(c: char, rest: seq<byte>)
    ensures DecodeFirst(EncodeChar(c) + rest) == Some((c, |EncodeChar(c)|))
  {
    var n := c as int;
    if n < 0x80 {
    } else if n < 0x800 {
      DecodeFirstOfTwo(c, rest);
    } else if n < 0x1_0000 {
      DecodeFirstOfThree(c, rest);
    } else {
      DecodeFirstOfFour(c, rest);
    }
  }

  lemma DecodeFirstOfTwo(c: char, rest: seq<byte>)
    requires 0x80 <= c as int < 0x800
    ensures DecodeFirst(EncodeChar(c) + rest) == Some((c, 2))
  {
    var n := c as int;
    var b0, b1 := n / 64, n % 64;
    assert b0 * 64 + b1 == n;
    assert EncodeChar(c) == [0xC0 + b0, 0x80 + b1];
  }

  lemma DecodeFirstOfThree(c: char, rest: seq<byte>)
    requires 0x800 <= c as int < 0x1_0000
    ensures DecodeFirst(EncodeChar(c) + rest) == Some((c, 3))
  {
    var n := c as int;
    var q := n / 64;
    var b0, b1, b2 := n / 4096, q % 64, n % 64;
    assert q == b0 * 64 + b1;
    assert n == q * 64 + b2;
    assert b0 * 4096 + b1 * 64 + b2 == n;
    assert b0 == 0 ==> b1 >= 0x20;
    assert b0 == 0xD ==> b1 < 0x20;
    var b := EncodeChar(c) + rest;
    assert b[..3] == [0xE0 + b0, 0x80 + b1, 0x80 + b2];
  }

  lemma DecodeFirstOfFour(c: char, rest: seq<byte>)
    requires 0x1_0000 <= c as int
    ensures DecodeFirst(EncodeChar(c) + rest) == Some((c, 4))
  {
    var n := c as int;
    FourOctetDigits(n);
    var b := EncodeChar(c) + rest;
    assert b[..4] == [0xF0 + n / 262144, 0x80 + (n / 4096) % 64, 0x80 + (n / 64) % 64, 0x80 + n % 64];
  }

  /** The four base-64 digits of a supplementary code point recombine to it, and the second
      one lies in the range the leading digit allows. */
  lemma FourOctetDigits(n: int)
    requires 0x1_0000 <= n < 0x11_0000
    ensures var b0, b1, b2, b3 := n / 262144, (n / 4096) % 64, (n / 64) % 64, n % 64;
            && b0 * 262144 + b1 * 4096 + b2 * 64 + b3 == n
            && b0 <= 4
            && (b0 == 0 ==> b1 >= 0x10)
            && (b0 == 4 ==> b1 < 0x10)
  {
    var q := n / 64;
    var q2 := n / 4096;
    var b0, b1, b2, b3 := n / 262144, q2 % 64, q % 64, n % 64;
    assert n == q * 64 + b3;
    assert q == q2 * 64 + b2;
    assert q2 == b0 * 64 + b1;
  }

  lemma {:induction false} DecodeEncode(s: string)
    ensures Decode(Encode(s)) == Some(s)
  {
    if s != [] {
      var e := EncodeChar(s[0]);
      var rest := Encode(s[1..]);
      DecodeFirstOfEncodeChar(s[0], rest);
      assert (e + rest)[|e|..] == rest;
      DecodeEncode(s[1..]);
      assert [s[0]] + s[1..] == s;
    }
  }

  lemma {:induction false} EncodeAppend(s: string, t: string)
    ensures Encode(s + t) == Encode(s) + Encode(t)
  {
    if s == [] {
      assert s + t == t;
    } else {
      assert (s + t)[0] == s[0] && (s + t)[1..] == s[1..] + t;
      EncodeAppend(s[1..], t);
    }
  }

  /** Only the NUL character encodes to a zero octet: lead octets of longer forms are at
      least 0xC0 and continuation octets at least 0x80. */
  lemma {:induction false} EncodeHasNoZero(s: string)
    requires forall i :: 0 <= i < |s| ==> s[i] != '\0'
    ensures forall i :: 0 <= i < |Encode(s)| ==> Encode(s)[i] != 0
  {
    if s != [] {
      EncodeHasNoZero(s[1..]);
      var e := EncodeChar(s[0]);
      var r := Encode(s[1..]);
      assert forall i :: 0 <= i < |e| ==> e[i] != 0;
      assert forall i :: |e| <= i < |e + r| ==> (e + r)[i] == r[i - |e|];
    }
  }

  /** A run of NUL characters encodes to the same number of zero octets. */
  lemma {:induction false} EncodeNuls(n: nat)
    ensures Encode(seq(n, _ => '\0')) == Zeros(n)
  {
    if n > 0 {
      var s := seq(n, _ => '\0');
      assert s[1..] == seq(n - 1, _ => '\0');
      EncodeNuls(n - 1);
      assert Encode(s) == [0] + Zeros(n - 1);
      ZerosCons(n);
    }
  }

  lemma {:induction false} ZerosCons(n: nat)
    requires n > 0
    ensures Zeros(n) == [0] + Zeros(n - 1)
  {
    assert Zeros(n) == seq(n, _ => 0);
    assert Zeros(n - 1) == seq(n - 1, _ => 0);
  }

  /** ASCII text encodes octet for octet. */
  lemma {:induction false} EncodeAscii(s: string)
    requires forall i :: 0 <= i < |s| ==> s[i] as int < 0x80
    ensures |Encode(s)| == |s|
    ensures forall i :: 0 <= i < |s| ==> Encode(s)[i] == s[i] as int
  {
    if s != [] {
      EncodeAscii(s[1..]);
    }
  }

  /** An octet sequence that goes wrong after an ASCII prefix does not decode. */
  lemma {:induction false} DecodeFailsAfterAscii(b: seq<byte>, n: nat)
    requires n < |b| && forall i :: 0 <= i < n ==> b[i] < 0x80
    requires Decode(b[n..]) == None
    ensures Decode(b) == None
  {
    if n > 0 {
      assert b[1..][n - 1..] == b[n..];
      DecodeFailsAfterAscii(b[1..], n - 1);
    }
  }
}
