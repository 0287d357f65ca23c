/** Bytes, little-endian fields and in-place stores on byte images. */
module Bytes {

  type byte = x: int | 0 <= x < 256

  const TWO16 := 0x1_0000
  const TWO31 := 0x8000_0000
  const TWO32 := 0x1_0000_0000
  const TWO63 := 0x8000_0000_0000_0000
  const TWO64 := 0x1_0000_0000_0000_0000

  type u64 = x: int | 0 <= x < TWO64

  datatype Option<+T> = None | Some(value: T)

  function Min(a: int, b: int): int { if a < b then a else b }

  function Max(a: int, b: int): int { if a < b then b else a }

  function Pow256(n: nat): (p: nat)
    ensures p > 0
  {
    if n == 0 then 1 else 256 * Pow256(n - 1)
  }

  /** The low `n` bytes of `v`, least significant first; a negative `v` is taken in two's complement. */
  function Le(v: int, n: nat): (r: seq<byte>)
    ensures |r| == n
  {
    seq(n, i requires 0 <= i < n => (v / Pow256(i)) % 256)
  }

  function FromLe(s: seq<byte>): (v: nat)
  {
    if s == [] then 0 else s[0] + 256 * FromLe(s[1..])
  }

  lemma {:induction false} ModSplit(v: int, m: nat)
    requires m > 0
    ensures v % 256 + 256 * ((v / 256) % m) == v % (256 * m)
  {
    var q, r := v / 256, v % 256;
    var k, t := q / m, q % m;
    assert v == (256 * m) * k + (256 * t + r) by {
      assert q == m * k + t;
      assert 256 * (m * k) == (256 * m) * k;
    }
    assert 0 <= 256 * t + r < 256 * m;
    ModUnique(v, 256 * m, k, 256 * t + r);
  }

  lemma {:induction false} MulAtLeast(m: nat, d: int)
    ensures d >= 1 ==> m * d >= m
    ensures d <= -1 ==> m * d <= 0 - m
  {
  }

  lemma {:induction false} ModUnique(v: int, m: nat, k: int, r: nat)
    requires m > 0 && v == m * k + r && r < m
    ensures v % m == r
  {
    var q, s := v / m, v % m;
    assert m * (k - q) == s - r;
    MulAtLeast(m, k - q);
  }

  lemma {:induction false} ModShift(v: int, m: nat, j: int)
    requires m > 0
    ensures (v + m * j) % m == v % m
  {
    assert v + m * j == m * (v / m + j) + v % m;
    ModUnique(v + m * j, m, v / m + j, v % m);
  }

  /** Dividing twice is dividing by the product. */
  lemma {:induction false} DivDiv(v: int, m: nat)
    requires m > 0
    ensures (v / 256) / m == v / (256 * m)
  {
    ModSplit(v, m);
    var q := (v / 256) / m;
    assert v == 256 * (m * q + (v / 256) % m) + v % 256;
    assert 256 * (m * q) == (256 * m) * q;
    assert v == (256 * m) * q + v % (256 * m);
    assert (256 * m) * (v / (256 * m)) == (256 * m) * q;
    MulCancel(256 * m, v / (256 * m), q);
  }

  lemma {:induction false} MulCancel(m: nat, x: int, y: int)
    requires m > 0 && m * x == m * y
    ensures x == y
  {
    MulAtLeast(m, x - y);
  }

  lemma {:induction false} LeTail(v: int, n: nat)
    requires n > 0
    ensures Le(v, n)[0] == v % 256 && Le(v, n)[1..] == Le(v / 256, n - 1)
  {
    assert Pow256(0) == 1;
    forall i | 0 <= i < n - 1
      ensures Le(v, n)[1..][i] == Le(v / 256, n - 1)[i]
    {
      DivDiv(v, Pow256(i));
      assert Pow256(i + 1) == 256 * Pow256(i);
    }
  }

  /** Reading a little-endian field back gives the written value modulo its width. */
  lemma {:induction false} LeRoundTrip(v: int, n: nat)
    ensures FromLe(Le(v, n)) == v % Pow256(n)
    decreases n
  {
    if n > 0 {
      LeTail(v, n);
      LeRoundTrip(v / 256, n - 1);
      ModSplit(v, Pow256(n - 1));
    }
  }

  lemma {:induction false} Pow256Values()
    ensures Pow256(1) == 256 && Pow256(2) == TWO16 && Pow256(4) == TWO32 && Pow256(8) == TWO64
  {
    assert Pow256(1) == 256 * Pow256(0);
    assert Pow256(2) == 256 * Pow256(1);
    assert Pow256(3) == 256 * Pow256(2);
    assert Pow256(4) == 256 * Pow256(3);
    assert Pow256(5) == 256 * Pow256(4);
    assert Pow256(6) == 256 * Pow256(5);
    assert Pow256(7) == 256 * Pow256(6);
    assert Pow256(8) == 256 * Pow256(7);
  }

  /** A value that fits its field reads back unchanged. */
  lemma {:induction false} LeExact(v: nat, n: nat)
    requires n in {1, 2, 4, 8} && v < Pow256(n)
    ensures FromLe(Le(v, n)) == v
  {
    LeRoundTrip(v, n);
    ModUnique(v, Pow256(n), 0, v);
  }

  /** `s` with `data` stored at `off`. */
  function Splice(s: seq<byte>, off: nat, data: seq<byte>): (r: seq<byte>)
    requires off + |data| <= |s|
    ensures |r| == |s|
    ensures r[off..off + |data|] == data
    ensures forall i | 0 <= i < |s| && !(off <= i < off + |data|) :: r[i] == s[i]
  {
    s[..off] + data + s[off + |data|..]
  }

  /** Storing inside a window of `s` is storing in `s` at the shifted offset. */
  lemma {:induction false} SpliceWindow(s: seq<byte>, lo: nat, n: nat, k: nat, data: seq<byte>)
    requires lo + n <= |s| && k + |data| <= n
    ensures Splice(s, lo, Splice(s[lo..lo + n], k, data)) == Splice(s, lo + k, data)
  {
    var inner := Splice(s[lo..lo + n], k, data);
    forall i | 0 <= i < |s|
      ensures Splice(s, lo, inner)[i] == Splice(s, lo + k, data)[i]
    {
      if lo <= i < lo + n {
        assert Splice(s, lo, inner)[lo..lo + n][i - lo] == inner[i - lo];
        if k <= i - lo < k + |data| { assert inner[k..k + |data|][i - lo - k] == data[i - lo - k]; }
      }
      if lo + k <= i < lo + k + |data| {
        assert Splice(s, lo + k, data)[lo + k..lo + k + |data|][i - lo - k] == data[i - lo - k];
      }
    }
  }

  /** A later store over the same range wins. */
  lemma {:induction false} SpliceTwice(s: seq<byte>, lo: nat, a: seq<byte>, b: seq<byte>)
    requires |a| == |b| && lo + |a| <= |s|
    ensures Splice(Splice(s, lo, a), lo, b) == Splice(s, lo, b)
  {
  }

  lemma {:induction false} SpliceSelf(s: seq<byte>, lo: nat, n: nat)
    requires lo + n <= |s|
    ensures Splice(s, lo, s[lo..lo + n]) == s
  {
  }

  function Zeros(n: nat): (r: seq<byte>)
    ensures |r| == n && forall i | 0 <= i < n :: r[i] == 0
  {
    seq(n, i => 0)
  }

  /** Two images are equal when they agree at every position. */
  lemma {:induction false} SameImage(a: seq<byte>, b: seq<byte>)
    requires |a| == |b| && forall i | 0 <= i < |a| :: a[i] == b[i]
    ensures a == b
  {
  }

  /** Stores `data` at `off`, as `copy_from_slice` does. */
  method StoreAt(buf: array<byte>, off: nat, data: seq<byte>)
    requires off + |data| <= buf.Length
    modifies buf
    ensures buf[..] == Splice(old(buf[..]), off, data)
  {
    ghost var was := buf[..];
    for k := 0 to |data|
      invariant buf[..] == Splice(was, off, data[..k])
    {
      buf[off + k] := data[k];
      assert data[..k + 1] == data[..k] + [data[k]];
      assert buf[..] == Splice(was, off, data[..k])[off + k := data[k]];
    }
    assert data[..|data|] == data;
  }
}
