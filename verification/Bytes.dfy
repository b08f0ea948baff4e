/**
 Bytes and fixed-width little-endian integers. A byte is a character, as in the source's `char` buffers;
 structs travel as the concatenation of their fields, without padding.
 */
module Bytes {

  function Pow256(w: nat): nat
    ensures Pow256(w) >= 1
  {
    if w == 0 then 1 else 256 * Pow256(w - 1)
  }

  /** Two's complement, least significant byte first. */
  function LittleEndian(n: int, width: nat): (bs: string)
    ensures |bs| == width
    decreases width
  {
    if width == 0 then "" else [(n % 256) as char] + LittleEndian(n / 256, width - 1)
  }

  function Unsigned(bs: string): nat {
    if bs == "" then 0 else (bs[0] as int) % 256 + 256 * Unsigned(bs[1..])
  }

  /** A signed field: the upper half of the range stands for negative numbers. */
  function Signed(bs: string): int {
    var u := Unsigned(bs);
    if 2 * u < Pow256(|bs|) then u else u - Pow256(|bs|)
  }

  lemma {:induction false} UnsignedOf(n: int, width: nat)
    ensures Unsigned(LittleEndian(n, width)) == n % Pow256(width)
    decreases width
  {
    if width > 0 {
      UnsignedOf(n / 256, width - 1);
      var bs, tail := LittleEndian(n, width), LittleEndian(n / 256, width - 1);
      assert bs[1..] == tail && bs[0] as int == n % 256;
      assert Unsigned(bs) == (n % 256) % 256 + 256 * Unsigned(tail);
      assert (n % 256) % 256 == n % 256;
      ModSplit(n, Pow256(width - 1));
    }
  }

  lemma ModSplit(n: int, p: nat)
    requires p >= 1
    ensures n % (256 * p) == n % 256 + 256 * ((n / 256) % p)
  {
    var q, r := n / 256, n % 256;
    var a, b := q / p, q % p;
    assert n == 256 * q + r && q == p * a + b;
    assert n == (256 * p) * a + (256 * b + r) by {
      assert 256 * (p * a) == (256 * p) * a;
    }
    assert 0 <= 256 * b + r < 256 * p;
    ModUnique(n, 256 * p, a, 256 * b + r);
  }

  lemma ModUnique(n: int, m: nat, a: int, r: int)
    requires m >= 1 && n == m * a + r && 0 <= r < m
    ensures n % m == r
  {
    var q := n / m;
    assert n == m * q + n % m;
    assert m * (a - q) == n % m - r && m * (q - a) == r - n % m;
    if a > q {
      AtLeast(m, a - q);
    } else if q > a {
      AtLeast(m, q - a);
    }
  }

  lemma AtLeast(m: nat, k: nat)
    requires k >= 1
    ensures m * k >= m
  {
  }

  /** A signed field holds a number exactly when the number is in the field's range. */
  lemma SignedRoundTrip(n: int, width: nat)
    requires width >= 1
    ensures Signed(LittleEndian(n, width)) == n <==> 0 - Pow256(width) <= 2 * n < Pow256(width)
  {
    var p := Pow256(width);
    assert p == 256 * Pow256(width - 1);
    UnsignedOf(n, width);
    if 0 <= 2 * n < p {
      ModUnique(n, p, 0, n);
    } else if 0 - p <= 2 * n < 0 {
      ModUnique(n, p, -1, n + p);
    }
  }

  /** One byte read as a signed `char`. */
  function SignedByte(c: char): int {
    Signed([c])
  }

  /** A number stored in four bytes and read back through its first, signed byte. */
  lemma FirstByteOnly(n: int)
    ensures SignedByte(LittleEndian(n, 4)[0]) == n <==> -128 <= n < 128
  {
    assert [LittleEndian(n, 4)[0]] == LittleEndian(n, 1);
    SignedRoundTrip(n, 1);
    assert Pow256(1) == 256;
  }

  /** `s` with `x` written over it at `at`. */
  function Overwrite(s: string, at: nat, x: string): (r: string)
    requires at + |x| <= |s|
    ensures |r| == |s|
  {
    s[..at] + x + s[at + |x|..]
  }

  lemma OverwriteElsewhere(s: string, at: nat, x: string, lo: nat, hi: nat)
    requires at + |x| <= |s| && lo <= hi <= |s|
    requires hi <= at || at + |x| <= lo
    ensures Overwrite(s, at, x)[lo..hi] == s[lo..hi]
  {
  }

  /** `memcpy` into an array. */
  method Memcpy(dst: array<char>, at: nat, src: string)
    requires at + |src| <= dst.Length
    modifies dst
    ensures dst[..] == Overwrite(old(dst[..]), at, src)
  {
    hide Overwrite;
    ghost var before := dst[..];
    var i := 0;
    assert src[..0] == "";
    OverwriteNothing(before, at);
    while i < |src|
      invariant 0 <= i <= |src|
      invariant dst[..] == Overwrite(before, at, src[..i])
    {
      ghost var now := dst[..];
      dst[at + i] := src[i];
      assert dst[..] == now[at + i := src[i]];
      OverwriteOneMore(before, at, src, i);
      i := i + 1;
    }
    assert src[..i] == src;
  }

  lemma OverwriteNothing(s: string, at: nat)
    requires at <= |s|
    ensures Overwrite(s, at, "") == s
  {
  }

  lemma OverwriteOneMore(s: string, at: nat, x: string, i: nat)
    requires i < |x| && at + |x| <= |s|
    ensures Overwrite(s, at, x[..i])[at + i := x[i]] == Overwrite(s, at, x[..i + 1])
  {
  }
}
