/**
 Integer encodings shared by the compact and the binary protocol. Go's shifts and masks on
 fixed-width integers are written as arithmetic modulo a power of two.
 */
module Varint {
  import opened Wrappers
  import opened WireTypes

  const TWO8 := 0x100
  const TWO16 := 0x1_0000
  const TWO32 := 0x1_0000_0000
  const TWO64 := 0x1_0000_0000_0000_0000

  /** Go's conversions to a signed type of the given width: keep the low bits, then reinterpret them. */
  function ToInt8(x: int): int8 {
    var u := x % TWO8;
    if u < 0x80 then u else u - TWO8
  }

  function ToInt16(x: int): int16 {
    var u := x % TWO16;
    if u < 0x8000 then u else u - TWO16
  }

  function ToInt32(x: int): int32 {
    var u := x % TWO32;
    if u < 0x8000_0000 then u else u - TWO32
  }

  function ToInt64(x: int): int64 {
    var u := x % TWO64;
    if u < 0x8000_0000_0000_0000 then u else u - TWO64
  }

  /** `(n << 1) ^ (n >> 31)` (or 63), read as an unsigned number. */
  function ZigZag(n: int): nat {
    if n >= 0 then 2 * n else -2 * n - 1
  }

  /** `(u >> 1) ^ -(u & 1)`. */
  function UnZigZag(u: nat): int {
    if u % 2 == 0 then u / 2 else -(u / 2) - 1
  }

  /** Zigzag maps the signed range of a width onto its unsigned range, small magnitudes first, and back. */
  lemma ZigZagInverse(n: int, u: nat)
    ensures UnZigZag(ZigZag(n)) == n
    ensures ZigZag(UnZigZag(u)) == u
    ensures -0x8000_0000 <= n < 0x8000_0000 <==> ZigZag(n) < TWO32
    ensures -0x8000_0000_0000_0000 <= n < 0x8000_0000_0000_0000 <==> ZigZag(n) < TWO64
  {
    UnZigZagged(n);
    ZigZagged(u);
    ZigZagBound(n, 0x8000_0000);
    ZigZagBound(n, 0x8000_0000_0000_0000);
  }

  lemma UnZigZagged(n: int)
    ensures UnZigZag(ZigZag(n)) == n
  {
    if n < 0 {
      var k := -n - 1;
      assert ZigZag(n) == 2 * k + 1;
      assert ZigZag(n) / 2 == k && ZigZag(n) % 2 == 1;
    } else {
      assert ZigZag(n) / 2 == n && ZigZag(n) % 2 == 0;
    }
  }

  lemma ZigZagged(u: nat)
    ensures ZigZag(UnZigZag(u)) == u
  {
    assert u == 2 * (u / 2) + u % 2;
  }

  lemma ZigZagBound(n: int, half: int)
    requires half > 0
    ensures -half <= n < half <==> ZigZag(n) < 2 * half
  {
  }

  /** Seven bits a byte, least significant group first; every byte but the last has its top bit set. */
  function VarintBytes(u: nat): seq<byte> {
    if u < 128 then [u] else [u % 128 + 128] + VarintBytes(u / 128)
  }

  /** The number spelled by the leading varint of `s`, unbounded, and what follows it. */
  function ReadVarint(s: seq<byte>): (r: Result<(nat, seq<byte>)>)
    ensures r.Ok? ==> |r.value.1| < |s|
  {
    if s == [] then Err(EndOfFile)
    else if s[0] < 128 then Ok((s[0], s[1..]))
    else
      var (high, rest) :- ReadVarint(s[1..]);
      Ok((s[0] - 128 + 128 * high, rest))
  }

  lemma {:induction false} VarintRoundTrip(u: nat, rest: seq<byte>)
    ensures ReadVarint(VarintBytes(u) + rest) == Ok((u, rest))
    decreases u
  {
    var s := VarintBytes(u) + rest;
    if u < 128 {
      assert s[1..] == rest;
    } else {
      assert s[1..] == VarintBytes(u / 128) + rest;
      VarintRoundTrip(u / 128, rest);
    }
  }

  function Pow128(k: nat): (p: nat)
    ensures p > 0
  {
    if k == 0 then 1 else 128 * Pow128(k - 1)
  }

  /** A varint of `k` groups has at most `k` bytes, so the five- and ten-byte buffers of the writers suffice. */
  lemma {:induction false} VarintLength(u: nat, k: nat)
    requires k > 0 && u < Pow128(k)
    ensures 1 <= |VarintBytes(u)| <= k
    decreases k
  {
    if u >= 128 {
      assert k > 1;
      VarintLength(u / 128, k - 1);
    }
  }

  lemma VarintFits(u: nat)
    ensures u < TWO32 ==> 1 <= |VarintBytes(u)| <= 5
    ensures u < TWO64 ==> 1 <= |VarintBytes(u)| <= 10
  {
    if u < TWO32 {
      assert Pow128(5) == 128 * (128 * (128 * (128 * (128 * Pow128(0)))));
      VarintLength(u, 5);
    }
    if u < TWO64 {
      assert Pow128(10) == 128 * (128 * (128 * (128 * (128 * Pow128(5)))));
      assert Pow128(5) == 128 * (128 * (128 * (128 * (128 * Pow128(0)))));
      VarintLength(u, 10);
    }
  }

  /** The low `n` bytes of `u`, least significant first. */
  function LittleEndian(u: nat, n: nat): (s: seq<byte>)
    ensures |s| == n
  {
    if n == 0 then [] else [u % 256] + LittleEndian(u / 256, n - 1)
  }

  function FromLittleEndian(s: seq<byte>): nat {
    if s == [] then 0 else s[0] + 256 * FromLittleEndian(s[1..])
  }

  /** The low `n` bytes of `u`, most significant first. */
  function BigEndian(u: nat, n: nat): (s: seq<byte>)
    ensures |s| == n
  {
    if n == 0 then [] else BigEndian(u / 256, n - 1) + [u % 256]
  }

  function FromBigEndian(s: seq<byte>): nat {
    if s == [] then 0 else 256 * FromBigEndian(s[..|s| - 1]) + s[|s| - 1]
  }

  function Pow256(k: nat): (p: nat)
    ensures p > 0
  {
    if k == 0 then 1 else 256 * Pow256(k - 1)
  }

  lemma {:induction false} LittleEndianRoundTrip(u: nat, n: nat)
    requires u < Pow256(n)
    ensures FromLittleEndian(LittleEndian(u, n)) == u
    decreases n
  {
    if n > 0 {
      assert LittleEndian(u, n)[1..] == LittleEndian(u / 256, n - 1);
      LittleEndianRoundTrip(u / 256, n - 1);
    }
  }

  lemma {:induction false} BigEndianRoundTrip(u: nat, n: nat)
    requires u < Pow256(n)
    ensures FromBigEndian(BigEndian(u, n)) == u
    decreases n
  {
    if n > 0 {
      assert BigEndian(u, n)[..n - 1] == BigEndian(u / 256, n - 1);
      BigEndianRoundTrip(u / 256, n - 1);
    }
  }

  lemma Pow256Values()
    ensures Pow256(2) == TWO16 && Pow256(4) == TWO32 && Pow256(8) == TWO64
  {
    assert Pow256(2) == 256 * (256 * Pow256(0));
    assert Pow256(4) == 256 * (256 * Pow256(2));
    assert Pow256(8) == 256 * (256 * (256 * (256 * Pow256(4))));
  }

  /** A signed value survives the trip through its unsigned reinterpretation. */
  lemma SignedRoundTrip(x: int)
    ensures -0x80 <= x < 0x80 ==> ToInt8(x % TWO8) == x
    ensures -0x8000 <= x < 0x8000 ==> ToInt16(x % TWO16) == x
    ensures -0x8000_0000 <= x < 0x8000_0000 ==> ToInt32(x % TWO32) == x
    ensures -0x8000_0000_0000_0000 <= x < 0x8000_0000_0000_0000 ==> ToInt64(x % TWO64) == x
  {
  }

  /** Cutting a 64-bit reading down to 32 bits keeps the low 32 bits of what was read. */
  lemma LowBits(x: nat)
    ensures (x % TWO64) % TWO32 == x % TWO32
  {
    assert x == TWO64 * (x / TWO64) + x % TWO64;
    assert x == TWO32 * (TWO32 * (x / TWO64)) + x % TWO64;
    ModAdd(TWO32 * (x / TWO64), x % TWO64, TWO32);
  }

  lemma ModAdd(k: nat, r: nat, m: nat)
    requires m > 0
    ensures (m * k + r) % m == r % m
  {
    var q := r / m;
    assert m * k + r == m * (k + q) + r % m;
    DivModUnique(m * k + r, m, k + q, r % m);
  }

  lemma DivModUnique(x: nat, m: nat, q: nat, r: nat)
    requires r < m && x == m * q + r
    ensures x / m == q && x % m == r
  {
    var d := x / m - q;
    assert x == m * (x / m) + x % m;
    assert m * d == r - x % m;
    assert d > 0 ==> m * d >= m;
    assert d < 0 ==> m * d + m <= 0;
  }
}
