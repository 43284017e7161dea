/** Byte strings as Python's `bytes` sees them: slicing that clamps to the
    bounds, `int.from_bytes(.., "big")` and `int.to_bytes(n, "big")`. */
module Bytes {

  type byte = b: int | 0 <= b < 256

  /** 256 to the power n: the number of values an n-byte field can hold. */
  function Pow256(n: nat): (r: nat)
    ensures r >= 1
  {
    if n == 0 then 1 else 256 * Pow256(n - 1)
  }

  /** `int.from_bytes(s, byteorder="big")`. */
  function BigEndian(s: seq<byte>): nat
  {
    if s == [] then 0 else BigEndian(s[..|s| - 1]) * 256 + s[|s| - 1]
  }

  /** The n low-order bytes of v, most significant first: `v.to_bytes(n, "big")`
      when v fits in n bytes (callers check that first, as Python raises
      OverflowError otherwise). */
  function ToBigEndian(v: nat, n: nat): (r: seq<byte>)
    ensures |r| == n
  {
    if n == 0 then [] else ToBigEndian(v / 256, n - 1) + [v % 256]
  }

  /** `bytes(n)`: n zero bytes. */
  function Zeros(n: nat): (r: seq<byte>)
    ensures |r| == n && forall i :: 0 <= i < n ==> r[i] == 0
  {
    seq(n, _ => 0)
  }

  function Min(a: nat, b: nat): nat { if a <= b then a else b }

  /** Python's `s[i:j]` for non-negative bounds: both bounds are clamped to
      `len(s)` and a slice whose end is before its start is empty. */
  function Slice(s: seq<byte>, i: nat, j: nat): (r: seq<byte>)
    ensures i <= j <= |s| ==> r == s[i..j]
    ensures |r| == if i <= j && i <= |s| then Min(j, |s|) - i else 0
    ensures i < j && |r| == j - i ==> j <= |s| && r == s[i..j]
  {
    if j <= i || |s| <= i then [] else s[i..Min(j, |s|)]
  }

  /** Decoding what `to_bytes` wrote gives the value back. */
  lemma {:induction false} BigEndianRoundTrip(v: nat, n: nat)
    requires v < Pow256(n)
    ensures BigEndian(ToBigEndian(v, n)) == v
  {
    if n > 0 {
      var r, q := ToBigEndian(v, n), v / 256;
      DivMod256(v, n);
      assert r[..n - 1] == ToBigEndian(q, n - 1);
      BigEndianRoundTrip(q, n - 1);
    }
  }

  /** Splitting off the low byte of a value that fits in n bytes leaves a
      value that fits in n - 1. */
  lemma DivMod256(v: nat, n: nat)
    requires n > 0 && v < Pow256(n)
    ensures v / 256 * 256 + v % 256 == v && v / 256 < Pow256(n - 1)
  {
  }

  /** An n-byte big-endian field holds a value below 256^n. */
  lemma {:induction false} BigEndianBound(s: seq<byte>)
    ensures BigEndian(s) < Pow256(|s|)
  {
    if s != [] {
      BigEndianBound(s[..|s| - 1]);
    }
  }

  /** All-zero bytes read as the value 0. */
  lemma {:induction false} BigEndianZeros(s: seq<byte>)
    requires forall i :: 0 <= i < |s| ==> s[i] == 0
    ensures BigEndian(s) == 0
  {
    if s != [] {
      BigEndianZeros(s[..|s| - 1]);
    }
  }

  // Generic facts about sequence windows (slices), kept generic because
  // they are proved on the element type alone.

  /** A window inside a prefix of c is the same window of c. */
  lemma PrefixWindow<T>(c: seq<T>, q: seq<T>, i: nat, n: nat)
    requires |q| <= |c| && c[..|q|] == q && i + n <= |q|
    ensures c[i..i + n] == q[i..i + n]
  {
    forall j | i <= j < i + n
      ensures c[j] == q[j]
    {
      assert c[j] == c[..|q|][j];
    }
    assert c[i..i + n] == q[i..i + n];
  }

  /** A window inside a prefix of the first part of a concatenation. */
  lemma WindowOfPrefix<T>(h: seq<T>, rest: seq<T>, q: seq<T>, i: nat, n: nat)
    requires |q| <= |h| && h[..|q|] == q && i + n <= |q|
    ensures (h + rest)[i..i + n] == q[i..i + n]
  {
    assert (h + rest)[i..i + n] == h[i..i + n];
    PrefixWindow(h, q, i, n);
  }

  /** A window of the second part of a concatenation. */
  lemma SuffixWindow<T>(front: seq<T>, back: seq<T>, i: nat, n: nat)
    requires i + n <= |back|
    ensures (front + back)[|front| + i..|front| + i + n] == back[i..i + n]
  {
  }

  /** The second part of a concatenation, sliced back out. */
  lemma ConcatRight<T>(a: seq<T>, b: seq<T>)
    ensures (a + b)[|a|..|a| + |b|] == b
  {
  }

  /** A window of a block stored at `start` of c is the same window of c,
      shifted by `start`. */
  lemma SubWindow<T>(c: seq<T>, f: seq<T>, start: nat, i: nat, n: nat)
    requires start + |f| <= |c| && c[start..start + |f|] == f && i + n <= |f|
    ensures c[start + i..start + i + n] == f[i..i + n]
  {
    forall j | start + i <= j < start + i + n
      ensures c[j] == f[j - start]
    {
      assert c[j] == c[start..start + |f|][j - start];
    }
  }

  /** Concatenation regrouped. */
  lemma ConcatAssoc<T>(a: seq<T>, b: seq<T>, c: seq<T>)
    ensures a + b + c == a + (b + c)
  {
  }
}
