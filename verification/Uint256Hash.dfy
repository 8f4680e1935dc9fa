/** Hashes read as 256-bit numbers: src/bitcoin/uint256.cpp and hashLessOrEqual in src/cuda/cuda_backend.cu. */
module Uint256Hash {
  import opened Arith
  import opened Bytes
  import opened Uint256

  /** The number written in bytes, least significant first. */
  function LeValue(bytes: seq<Byte>): nat {
    if |bytes| == 0 then 0 else bytes[0] as int + 256 * LeValue(bytes[1..])
  }

  lemma {:induction false} LeConcat(a: seq<Byte>, b: seq<Byte>)
    ensures LeValue(a + b) == LeValue(a) + Pow2(8 * |a|) * LeValue(b)
  {
    if |a| == 0 {
      assert a + b == b;
    } else {
      LeConcat(a[1..], b);
      assert (a + b)[1..] == a[1..] + b;
      Pow2Add(8, 8 * |a[1..]|);
      assert Pow2(8) == 256;
      MulAssoc(256, Pow2(8 * |a[1..]|), LeValue(b));
    }
  }

  lemma {:induction false} LeBound(a: seq<Byte>)
    ensures LeValue(a) < Pow2(8 * |a|)
  {
    if |a| > 0 {
      LeBound(a[1..]);
      Pow2Add(8, 8 * |a[1..]|);
      assert Pow2(8) == 256;
    }
  }

  lemma HashBound(hash: Hash256)
    ensures LeValue(hash) < W4
  {
    hide LeValue, Pow2;
    LeBound(hash);
    WeightIsPow2(4);
  }

  lemma LeOne(b: Byte)
    ensures LeValue([b]) == b
  {
  }

  /** One more byte at the most significant end. */
  lemma LeSnoc(bytes: seq<Byte>, lo: nat, n: nat)
    requires lo + n < |bytes|
    ensures LeValue(bytes[lo..lo + n + 1]) == LeValue(bytes[lo..lo + n]) + bytes[lo + n] * Pow2(8 * n)
    ensures LeValue(bytes[lo..lo + n]) < Pow2(8 * n)
  {
    hide Pow2, LeValue;
    var last := [bytes[lo + n]];
    assert bytes[lo..lo + n + 1] == bytes[lo..lo + n] + last;
    LeOne(bytes[lo + n]);
    LeConcat(bytes[lo..lo + n], last);
    LeBound(bytes[lo..lo + n]);
  }

  lemma {:induction false} LeLimbs(bytes: seq<Byte>, x: UInt256, n: nat)
    requires n <= 4 && |bytes| == 8 * n
    requires forall i :: 0 <= i < n ==> x[i] == LeValue(bytes[8 * i..8 * i + 8])
    ensures LeValue(bytes) == Low(x, n)
  {
    if n > 0 {
      var front, limb := bytes[..8 * (n - 1)], bytes[8 * (n - 1)..8 * (n - 1) + 8];
      forall i | 0 <= i < n - 1 ensures x[i] == LeValue(front[8 * i..8 * i + 8]) {
        assert front[8 * i..8 * i + 8] == bytes[8 * i..8 * i + 8];
      }
      LeLimbs(front, x, n - 1);
      assert bytes == front + limb;
      LeConcat(front, limb);
      WeightIsPow2(n - 1);
      LowStep(x, n - 1, 0);
    }
  }

  /** One more byte above the n bytes of an accumulator. */
  lemma OrByte(acc: nat, b: nat, n: nat)
    requires acc < Pow2(8 * n)
    ensures BitOr(acc, b * Pow2(8 * n)) == acc + b * Pow2(8 * n)
  {
    BitOrDisjoint(b, acc, 8 * n);
    BitOrComm(acc, b * Pow2(8 * n));
  }

  /** The hash as a number, in internal (little-endian) byte order. */
  method FromHash(hash: Hash256) returns (v: UInt256)
    ensures Value(v) == LeValue(hash)
  {
    hide LeValue, Pow2;
    v := ZERO;
    for limb := 0 to 4
      invariant forall i :: 0 <= i < limb ==> v[i] == LeValue(hash[8 * i..8 * i + 8])
    {
      var acc := LimbOf(hash, limb);
      v := v[limb := acc];
    }
    LeLimbs(hash, v, 4);
  }

  /** The inner loop: one limb from its eight bytes. */
  method LimbOf(hash: Hash256, limb: nat) returns (acc: Limb)
    requires limb < 4
    ensures acc == LeValue(hash[8 * limb..8 * limb + 8])
  {
    hide Pow2, BitOr;
    var sum: nat := 0;
    for byte := 0 to 8
      invariant sum == LeValue(hash[8 * limb..8 * limb + byte])
    {
      LeSnoc(hash, 8 * limb, byte);
      OrByte(sum, hash[8 * limb + byte], byte);
      sum := BitOr(sum, hash[8 * limb + byte] * Pow2(8 * byte));
    }
    LeBound(hash[8 * limb..8 * limb + 8]);
    Pow2Of64();
    acc := sum;
  }

  /** v % (256 * p) in terms of v % p. */
  lemma ModByte(v: nat, p: nat)
    requires p > 0
    ensures v % (256 * p) == v % p + v / p % 256 * p
  {
    var q, r := v / p, v % p;
    var h, b := q / 256, q % 256;
    assert v == q * p + r;
    assert (256 * h + b) * p == h * (256 * p) + b * p;
    MulMono(b, 255, p);
    DivModUnique(v, 256 * p, h, b * p + r);
  }

  /** The eight bytes of a limb. */
  method LimbBytes(v: Limb) returns (bytes: seq<Byte>)
    ensures |bytes| == 8 && LeValue(bytes) == v
  {
    bytes := [];
    for byte := 0 to 8
      invariant |bytes| == byte && LeValue(bytes) == v % Pow2(8 * byte)
    {
      NextByte(v, bytes);
      bytes := bytes + [v / Pow2(8 * byte) % 256];
    }
    Pow2Of64();
  }

  lemma NextByte(v: nat, bytes: seq<Byte>)
    requires LeValue(bytes) == v % Pow2(8 * |bytes|)
    ensures var n := |bytes|;
      LeValue(bytes + [v / Pow2(8 * n) % 256]) == v % Pow2(8 * (n + 1))
  {
    hide LeValue;
    var n := |bytes|;
    ModByte(v, Pow2(8 * n));
    Pow2Add(8, 8 * n);
    assert Pow2(8) == 256;
    var longer := bytes + [v / Pow2(8 * n) % 256];
    assert longer[0..0 + n] == bytes && longer[0..0 + n + 1] == longer;
    LeSnoc(longer, 0, n);
  }

  /** The inverse of FromHash. */
  method ToHash(x: UInt256) returns (hash: Hash256)
    ensures LeValue(hash) == Value(x)
  {
    var bytes: seq<Byte> := [];
    for limb := 0 to 4
      invariant |bytes| == 8 * limb && LeValue(bytes) == Low(x, limb)
    {
      var b := LimbBytes(x[limb]);
      LeConcat(bytes, b);
      WeightIsPow2(limb);
      LowStep(x, limb, 0);
      bytes := bytes + b;
    }
    hash := bytes;
  }

  /** The device's comparison, from the most significant byte (index 31) downwards. */
  method HashLessOrEqual(hash: Hash256, target: Hash256) returns (le: bool)
    ensures le <==> LeValue(hash) <= LeValue(target)
  {
    var i := 31;
    while i >= 0
      invariant -1 <= i <= 31
      invariant forall j :: i < j < 32 ==> hash[j] == target[j]
    {
      if hash[i] < target[i] {
        TopByteDecides(hash, target, i);
        return true;
      }
      if hash[i] > target[i] {
        TopByteDecides(target, hash, i);
        return false;
      }
      i := i - 1;
    }
    assert hash == target;
    return true;
  }

  lemma TopByteDecides(a: Hash256, b: Hash256, i: nat)
    requires i < 32 && a[i] < b[i]
    requires forall j :: i < j < 32 ==> a[j] == b[j]
    ensures LeValue(a) < LeValue(b)
  {
    assert a == a[..i] + a[i..] && b == b[..i] + b[i..];
    LeConcat(a[..i], a[i..]);
    LeConcat(b[..i], b[i..]);
    LeBound(a[..i]);
    assert a[i..][1..] == b[i..][1..];
    ScaleLess(LeValue(a[..i]), LeValue(b[..i]), Pow2(8 * i), LeValue(a[i..]), LeValue(b[i..]));
  }

  lemma ScaleLess(lowA: nat, lowB: nat, p: nat, topA: nat, topB: nat)
    requires lowA < p && topA < topB
    ensures lowA + p * topA < lowB + p * topB
  {
    MulMono(topA + 1, topB, p);
    assert (topA + 1) * p == p * topA + p;
  }
}
