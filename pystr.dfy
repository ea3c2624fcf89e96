/** The few Python `str` and `bytes` operations the quote decoders apply to the symbol field. */
module PyStr {
  import opened Bytes

  /** `str.isspace()` for one character: the characters Python 3 treats as whitespace. */
  predicate IsSpace(c: char) {
    ('\U{9}' <= c <= '\U{D}') || ('\U{1C}' <= c <= ' ') || c == '\U{85}' || c == '\U{A0}'
    || c == '\U{1680}' || ('\U{2000}' <= c <= '\U{200A}') || c == '\U{2028}' || c == '\U{2029}'
    || c == '\U{202F}' || c == '\U{205F}' || c == '\U{3000}'
  }

  /** `str.lstrip()` with no argument. */
  function LStrip(s: string): (r: string)
    ensures |r| <= |s| && r == s[|s| - |r|..]
    ensures forall i :: 0 <= i < |s| - |r| ==> IsSpace(s[i])
    ensures r != [] ==> !IsSpace(r[0])
  {
    if s != [] && IsSpace(s[0]) then LStrip(s[1..]) else s
  }

  /** `str.rstrip()` with no argument. */
  function RStrip(s: string): (r: string)
    ensures |r| <= |s| && r == s[..|r|]
    ensures forall i :: |r| <= i < |s| ==> IsSpace(s[i])
    ensures r != [] ==> !IsSpace(r[|r| - 1])
  {
    if s != [] && IsSpace(s[|s| - 1]) then RStrip(s[..|s| - 1]) else s
  }

  /** `str.strip()` with no argument. */
  function Strip(s: string): (r: string)
    ensures |r| <= |s|
    ensures r != [] ==> !IsSpace(r[0]) && !IsSpace(r[|r| - 1])
  {
    RStrip(LStrip(s))
  }

  /** `str.rstrip('\0')`. */
  function RStripNul(s: string): (r: string)
    ensures |r| <= |s| && r == s[..|r|]
    ensures forall i :: |r| <= i < |s| ==> s[i] == '\0'
    ensures r != [] ==> r[|r| - 1] != '\0'
  {
    if s != [] && s[|s| - 1] == '\0' then RStripNul(s[..|s| - 1]) else s
  }

  /** `b.split(b'\0', 1)[0]`: the octets before the first NUL, or all of `b` if it has none. */
  function BeforeFirstNul(b: seq<byte>): (r: seq<byte>)
    ensures |r| <= |b| && r == b[..|r|]
    ensures forall i :: 0 <= i < |r| ==> r[i] != 0
    ensures |r| < |b| ==> b[|r|] == 0
  {
    if b == [] || b[0] == 0 then [] else [b[0]] + BeforeFirstNul(b[1..])
  }

  /** A string that neither starts nor ends with whitespace is its own `strip()`. */
  lemma StripUnpadded(s: string)
    requires s == [] || (!IsSpace(s[0]) && !IsSpace(s[|s| - 1]))
    ensures Strip(s) == s
  {
  }

  /** `r` is the infix of `s` starting at `i`, with nothing but whitespace before and after it. */
  predicate TrimmedAt(s: string, i: nat, r: string) {
    && i + |r| <= |s| && r == s[i..i + |r|]
    && (forall k :: 0 <= k < i ==> IsSpace(s[k]))
    && (forall k :: i + |r| <= k < |s| ==> IsSpace(s[k]))
  }

  /** `strip()` removes exactly the leading and trailing whitespace: what it returns is the
      infix of its argument between a run of leading and a run of trailing whitespace. */
  lemma StripIsTrimmedInfix(s: string)
    ensures TrimmedAt(s, |s| - |LStrip(s)|, Strip(s))
  {
    var l := LStrip(s);
    var r := RStrip(l);
    assert SuffixAfterSpace(s, l);
    assert PrefixBeforeSpace(l, r);
    TrimmedInfix(s, l, r);
  }

  /** `l` is what is left of `s` after a run of leading whitespace. */
  predicate SuffixAfterSpace(s: string, l: string) {
    && |l| <= |s| && l == s[|s| - |l|..]
    && forall k :: 0 <= k < |s| - |l| ==> IsSpace(s[k])
  }

  /** `r` is what is left of `l` before a run of trailing whitespace. */
  predicate PrefixBeforeSpace(l: string, r: string) {
    && |r| <= |l| && r == l[..|r|]
    && forall k :: |r| <= k < |l| ==> IsSpace(l[k])
  }

  /** A suffix `l` of `s` after leading whitespace, and a prefix `r` of `l` before trailing
      whitespace, sit in `s` between those two runs. */
  lemma TrimmedInfix(s: string, l: string, r: string)
    requires SuffixAfterSpace(s, l) && PrefixBeforeSpace(l, r)
    ensures TrimmedAt(s, |s| - |l|, r)
  {
    var i := |s| - |l|;
    assert forall k :: i + |r| <= k < |s| ==> s[k] == l[k - i];
  }

  /** NUL characters appended to a string without a trailing NUL are exactly what
      `rstrip('\0')` takes away again. */
  lemma {:induction false} RStripNulOfPadded(s: string, n: nat)
    requires s == [] || s[|s| - 1] != '\0'
    ensures RStripNul(s + seq(n, _ => '\0')) == s
  {
    if n > 0 {
      var t := s + seq(n, _ => '\0');
      assert t[..|t| - 1] == s + seq(n - 1, _ => '\0');
      RStripNulOfPadded(s, n - 1);
    } else {
      assert s + seq(n, _ => '\0') == s;
    }
  }
}
