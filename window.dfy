/** Bounded price histories: a `deque` that keeps only its most recent items. */
module Window {
  function Min(a: nat, b: nat): nat {
    if a < b then a else b
  }

  /** `list(q)[-n:]` for a positive `n`: the last `n` items, or all of them when there are
      fewer. (Python's `[-0:]` would be the whole list; every window size here is positive.) */
  function Last<T>(q: seq<T>, n: nat): (r: seq<T>)
    requires 0 < n
    ensures |r| == Min(|q|, n)
    ensures r == q[|q| - |r|..]
  {
    if |q| <= n then q else q[|q| - n..]
  }

  /** Appending to a deque of at most `maxLen` items: the new item goes at the right end and,
      when the deque was full, the leftmost item is evicted. */
  function Append<T>(q: seq<T>, x: T, maxLen: nat): (r: seq<T>)
    requires 0 < maxLen && |q| <= maxLen
    ensures |r| == Min(|q| + 1, maxLen)
    ensures r[|r| - 1] == x
  {
    if |q| < maxLen then q + [x] else q[1..] + [x]
  }

  /** Appending keeps the last `maxLen` items of the history extended by the new one. */
  lemma AppendIsLast<T>(q: seq<T>, x: T, maxLen: nat)
    requires 0 < maxLen && |q| <= maxLen
    ensures Append(q, x, maxLen) == Last(q + [x], maxLen)
  {
    if |q| == maxLen {
      assert (q + [x])[|q| + 1 - maxLen..] == q[1..] + [x];
    }
  }

  lemma {:induction false} LastOfLast<T>(q: seq<T>, xs: seq<T>, n: nat)
    requires 0 < n
    ensures Last(Last(q, n) + xs, n) == Last(q + xs, n)
  {
    var a := Last(q, n);
    var p := q[..|q| - |a|];
    assert q == p + a;
    assert q + xs == p + (a + xs);
    LastOfSuffix(p, a + xs, n);
  }

  /** Keeping the last `n` items looks past any prefix, when what follows it has `n` items or
      more, or when the prefix is empty. */
  lemma LastOfSuffix<T>(p: seq<T>, s: seq<T>, n: nat)
    requires 0 < n && (p == [] || n <= |s|)
    ensures Last(p + s, n) == Last(s, n)
  {
    if p != [] {
      assert (p + s)[|p + s| - n..] == s[|s| - n..];
    }
  }
}
