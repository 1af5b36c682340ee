/** Little-endian stores and loads, byte by byte (include/mdfh/byte_order.hpp). */
module ByteOrder {
  import opened Protocol

  function Pow256(n: nat): (r: nat)
    ensures r > 0
  {
    if n == 0 then 1 else 256 * Pow256(n - 1)
  }

  /** The `n` low bytes of `v`, least significant first. */
  function LeBytes(n: nat, v: nat): (r: seq<byte>)
    ensures |r| == n
  {
    if n == 0 then [] else [v % 256] + LeBytes(n - 1, v / 256)
  }

  /** The number whose little-endian digits in base 256 are `s`. */
  function LeValue(s: seq<byte>): (r: nat)
    ensures r < Pow256(|s|)
  {
    if s == [] then 0 else s[0] + 256 * LeValue(s[1..])
  }

  lemma {:induction false} LoadAfterStore(n: nat, v: nat)
    requires v < Pow256(n)
    ensures LeValue(LeBytes(n, v)) == v
  {
    if n == 0 {
    } else {
      LoadAfterStore(n - 1, v / 256);
      assert LeBytes(n, v)[1..] == LeBytes(n - 1, v / 256);
    }
  }

  lemma {:induction false} StoreAfterLoad(s: seq<byte>)
    ensures LeBytes(|s|, LeValue(s)) == s
  {
    if s == [] {
    } else {
      StoreAfterLoad(s[1..]);
      assert LeValue(s) % 256 == s[0] && LeValue(s) / 256 == LeValue(s[1..]);
    }
  }

  lemma WidthValues()
    ensures Pow256(1) == 256 && Pow256(2) == TWO16 && Pow256(4) == TWO32 && Pow256(8) == TWO64
  {
    assert Pow256(1) == 256 && Pow256(2) == 256 * 256 && Pow256(3) == 256 * Pow256(2);
    assert Pow256(4) == TWO32 && Pow256(5) == 256 * TWO32 && Pow256(6) == 256 * Pow256(5);
    assert Pow256(7) == 256 * Pow256(6) && Pow256(8) == 256 * Pow256(7);
  }

  /** The unsigned image of a signed 64-bit number and back (two's complement). */
  function ToUnsigned64(v: int): (r: nat)
    ensures r < TWO64
  {
    v % TWO64
  }

  function ToSigned64(u: nat): (r: int)
    ensures u < TWO64 ==> PriceFits(r) && ToUnsigned64(r) == u
  {
    if u < TWO63 then u else u - TWO64
  }

  lemma SignedAfterUnsigned(v: int)
    requires PriceFits(v)
    ensures ToSigned64(ToUnsigned64(v)) == v
  {
    if v < 0 { assert ToUnsigned64(v) == v + TWO64; } else { assert ToUnsigned64(v) == v; }
  }

  lemma Shift(b: nat, w: nat)
    ensures b * (256 * w) == 256 * (b * w)
  {
  }

  lemma {:induction false} LeValueAppend(s: seq<byte>, b: byte)
    ensures LeValue(s + [b]) == LeValue(s) + b * Pow256(|s|)
  {
    if s == [] {
      assert s + [b] == [b];
    } else {
      var w := Pow256(|s| - 1);
      LeValueAppend(s[1..], b);
      assert (s + [b])[1..] == s[1..] + [b];
      Shift(b, w);
    }
  }

  /** Writes the low byte of `u` and shifts, `n` times. */
  method StoreLe(dst: array<byte>, p: nat, n: nat, value: nat) returns (q: nat)
    requires p + n <= dst.Length
    modifies dst
    ensures q == p + n
    ensures dst[..q] == old(dst[..p]) + LeBytes(n, value)
    ensures forall k :: q <= k < dst.Length ==> dst[k] == old(dst[k])
  {
    var u := value;
    var i := 0;
    while i < n
      invariant 0 <= i <= n
      invariant dst[..p + i] + LeBytes(n - i, u) == old(dst[..p]) + LeBytes(n, value)
      invariant forall k :: p + i <= k < dst.Length ==> dst[k] == old(dst[k])
    {
      ghost var before := dst[..p + i];
      assert LeBytes(n - i, u) == [u % 256] + LeBytes(n - i - 1, u / 256);
      dst[p + i] := u % 256;
      assert dst[..p + i + 1] == before + [u % 256];
      assert dst[..p + i + 1] + LeBytes(n - i - 1, u / 256) == before + LeBytes(n - i, u);
      u := u / 256;
      i := i + 1;
    }
    assert LeBytes(0, u) == [];
    q := p + n;
  }

  /** Accumulates the bytes from the least significant up. The bits or-ed in at each turn lie above
      every bit set so far, so the `|` of the source is an addition. */
  method LoadLe(src: seq<byte>, p: nat, n: nat) returns (u: nat)
    requires p + n <= |src|
    ensures u == LeValue(src[p..p + n])
  {
    u := 0;
    var i: nat, weight: nat := 0, 1;
    while i < n
      invariant 0 <= i <= n
      invariant weight == Pow256(i)
      invariant u == LeValue(src[p..p + i])
    {
      LeValueAppend(src[p..p + i], src[p + i]);
      assert src[p..p + i + 1] == src[p..p + i] + [src[p + i]];
      u := u + src[p + i] * weight;
      weight := 256 * weight;
      i := i + 1;
    }
  }
}
