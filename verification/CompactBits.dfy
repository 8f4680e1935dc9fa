/** The compact nBits form of a target: decodeCompactBits and encodeCompactBits in src/bitcoin/difficulty.cpp. */
module CompactBits {
  import opened Arith
  import opened Bytes
  import opened Uint256

  /** m * 256^k, truncated. */
  function Scale(m: nat, k: int): nat {
    if k >= 0 then
      MulMono(0, m, Pow256(k));
      m * Pow256(k)
    else
      DivGalois(m, Pow256(-k), 0);
      m / Pow256(-k)
  }

  function Exponent(nBits: Word): nat { nBits / 0x100_0000 }

  function Mantissa(nBits: Word): nat { nBits % 0x80_0000 }

  predicate SignBit(nBits: Word) { nBits / 0x80_0000 % 2 == 1 }

  /** What nBits denotes: a target, unless it is negative or needs more than 256 bits. */
  datatype Compact = Target(value: nat) | Rejected(negative: bool, overflow: bool)

  ghost function Decode(nBits: Word): Compact {
    var v := Scale(Mantissa(nBits), Exponent(nBits) as int - 3);
    var negative := SignBit(nBits) && Mantissa(nBits) != 0;
    if negative || v >= W4 then Rejected(negative, v >= W4) else Target(v)
  }

  /** The number of significant bytes. */
  function ByteLength(t: nat): nat { if t == 0 then 0 else 1 + ByteLength(t / 256) }

  /** The three leading bytes of t, and the exponent, renormalised to keep the sign bit clear. */
  function Leading(t: nat): nat { Scale(t, 3 - (ByteLength(t) as int)) }

  function NormalExponent(t: nat): nat {
    if Leading(t) >= 0x80_0000 then ByteLength(t) + 1 else ByteLength(t)
  }

  function NormalMantissa(t: nat): nat { Scale(t, 3 - (NormalExponent(t) as int)) }

  ghost function Encode(t: nat): nat {
    if t == 0 then 0 else NormalMantissa(t) + NormalExponent(t) * 0x100_0000
  }

  // ---- The methods -------------------------------------------------------

  method DecodeCompactBits(nBits: Word) returns (ok: bool, target: UInt256, negative: bool, overflow: bool)
    ensures ok <==> Decode(nBits).Target?
    ensures Value(target) == if ok then Decode(nBits).value else 0
    ensures !ok ==> Decode(nBits) == Rejected(negative, overflow)
    ensures ok ==> !negative && !overflow
  {
    hide Pow2;
    var exponent, mantissa := nBits / 0x100_0000, nBits % 0x80_0000;
    negative := SignBit(nBits) && mantissa != 0;
    var value;
    overflow := false;
    Pow256Is(if exponent <= 3 then 3 - exponent else exponent - 3);
    if exponent <= 3 {
      ScaleDown(mantissa, 3 - exponent);
      mantissa := mantissa / Pow2(8 * (3 - exponent));
      value := FromU64(mantissa);
    } else {
      value := FromU64(mantissa);
      value, overflow := ShiftMantissa(value, mantissa, exponent - 3);
    }
    if negative || overflow {
      return false, ZERO, negative, overflow;
    }
    return true, value, negative, overflow;
  }

  /** The branch for exponents above 3. */
  method ShiftMantissa(small: UInt256, mantissa: nat, shiftBytes: nat) returns (value: UInt256, overflow: bool)
    requires Value(small) == mantissa && shiftBytes > 0
    ensures overflow <==> mantissa * Pow256(shiftBytes) >= W4
    ensures !overflow ==> Value(value) == mantissa * Pow256(shiftBytes)
  {
    hide Pow2, Pow256;
    value, overflow := small, false;
    if shiftBytes > 32 {
      overflow := mantissa != 0;
      BeyondLimit(mantissa, shiftBytes);
    } else {
      var bits := BitLength(value);
      FitsExactly(mantissa, bits, shiftBytes);
      if bits != 0 && bits + shiftBytes * 8 > 256 {
        overflow := true;
      } else {
        value := Shl(value, shiftBytes * 8);
        Pow256Is(shiftBytes);
        DivModUnique(mantissa * Pow256(shiftBytes), W4, 0, mantissa * Pow256(shiftBytes));
      }
    }
  }

  lemma ScaleDown(m: nat, k: nat)
    requires m < 0x80_0000
    ensures m / Pow256(k) <= m && Scale(m, -(k as int)) == m / Pow256(k)
  {
  }

  lemma BeyondLimit(m: nat, k: nat)
    requires k > 32
    ensures m == 0 ==> m * Pow256(k) == 0
    ensures m != 0 ==> m * Pow256(k) >= W4
  {
    if m != 0 {
      WeightIsPow2(4);
      Pow256Is(k);
      Pow2Mono(64 * 4, 8 * k);
      MulMono(1, m, Pow256(k));
    }
  }

  /** The bit-length test decides exactly whether the shifted mantissa fits in 256 bits. */
  lemma FitsExactly(m: nat, bits: nat, k: nat)
    requires IsBitLength(m, bits)
    ensures m * Pow256(k) < W4 <==> bits == 0 || bits + k * 8 <= 256
  {
    hide Pow2, Pow256;
    WeightIsPow2(4);
    Pow256Is(k);
    Pow2Add(bits, 8 * k);
    if bits == 0 {
    } else if bits + k * 8 <= 256 {
      Pow2Mono(bits + 8 * k, 64 * 4);
      MulMono(m + 1, Pow2(bits), Pow256(k));
      assert (m + 1) * Pow256(k) == m * Pow256(k) + Pow256(k);
    } else {
      Pow2Add(bits - 1, 8 * k);
      Pow2Mono(64 * 4, bits - 1 + 8 * k);
      MulMono(Pow2(bits - 1), m, Pow256(k));
    }
  }

  /** The sign bit rejects every value with a mantissa, whatever the exponent, and changes nothing else. */
  lemma SignBitNegates(nBits: Word)
    requires nBits / 0x80_0000 % 2 == 0
    ensures var plus, minus := Decode(nBits), Decode(nBits + 0x80_0000);
      && (plus.Rejected? ==> plus == Rejected(false, true))
      && minus == if nBits % 0x80_0000 == 0 then plus else Rejected(true, plus.Rejected?)
  {
    hide Scale;
  }

  /** Targets that the tests of the format spell out. */
  lemma KnownTargets()
    ensures Decode(0x0100_3456) == Target(0) && Decode(0x0112_3456) == Target(0x12)
    ensures Decode(0x0200_8000) == Target(0x80) && Decode(0x0312_3456) == Target(0x12_3456)
    ensures Decode(0x0412_3456) == Target(0x1234_5600) && Decode(0x0500_9234) == Target(0x9234_0000)
    ensures Decode(0x0400_ffff) == Target(0xff_ff00)
  {
    assert Pow256(1) == 256;
    assert Pow256(2) == 0x1_0000;
  }

  /** The target that nBits stands for, zero when it is not a target. */
  ghost function NetworkTarget(nBits: Word): nat {
    match Decode(nBits)
    case Target(v) => v
    case Rejected(_, _) => 0
  }

  method TargetFromCompactBits(nBits: Word) returns (target: UInt256)
    ensures Value(target) == NetworkTarget(nBits)
  {
    hide Decode;
    var ok, t, _, _ := DecodeCompactBits(nBits);
    target := if ok then t else ZERO;
  }

  method EncodeCompactBits(target: UInt256) returns (nBits: Word)
    ensures nBits == Encode(Value(target))
  {
    hide Encode, Leading, ByteLength, IsBitLength, Pow2, Pow256, Scale;
    ghost var t := Value(target);
    EncodedZero();
    var zero := IsZero(target);
    if zero { return 0; }

    var bits := BitLength(target);
    var size := (bits + 7) / 8;
    SizeIsByteLength(t, bits);
    var compact := LeadingBytes(target, size);
    EncodedFrom(t);
    if compact / 0x80_0000 % 2 == 1 {
      compact := compact / 0x100;
      size := size + 1;
    }
    nBits := Pack(compact, size);
  }

  /** The value aligned into the three mantissa bytes. */
  method LeadingBytes(target: UInt256, size: nat) returns (compact: Word)
    requires Value(target) > 0 && size == ByteLength(Value(target))
    ensures compact == Leading(Value(target)) < 0x100_0000
  {
    LeadingBounds(Value(target));
    if size <= 3 {
      SmallTarget(target, size);
      Pow256Is(3 - size);
      compact := target[0] * Pow2(8 * (3 - size));
    } else {
      var shifted := Shr(target, 8 * (size - 3));
      Pow256Is(size - 3);
      SmallLimb(shifted);
      compact := shifted[0] % 0x100_0000;
    }
  }

  /** The size goes above the three mantissa bytes. */
  method Pack(compact: Word, size: nat) returns (nBits: Word)
    requires compact < 0x100_0000 && size < 256
    ensures nBits == compact + size * 0x100_0000
  {
    assert Pow2(4) == 16;
    Pow2Add(4, 4);
    Pow2Add(8, 8);
    Pow2Add(16, 8);
    BitOrDisjoint(size, compact, 24);
    BitOrComm(compact, size * 0x100_0000);
    nBits := BitOr(compact, size * 0x100_0000);
  }

  lemma SmallTarget(x: UInt256, size: nat)
    requires size <= 3 && Value(x) < Pow256(size)
    ensures Value(x) == x[0] < 0x100_0000
  {
    Pow256Bound(size);
  }

  lemma Pow256Bound(size: nat)
    requires size <= 3
    ensures Pow256(size) <= 0x100_0000
  {
    assert size == 0 || size == 1 || size == 2 || size == 3;
  }

  lemma SmallLimb(x: UInt256)
    requires Value(x) < 0x100_0000
    ensures x[0] == Value(x)
  {
  }

  // ---- Byte length and scaling ------------------------------------------

  lemma {:induction false} ByteBounds(t: nat)
    requires t > 0
    ensures ByteLength(t) > 0 && Pow256(ByteLength(t) - 1) <= t < Pow256(ByteLength(t))
  {
    if t >= 256 {
      ByteBounds(t / 256);
    } else {
      assert ByteLength(t / 256) == 0;
      assert Pow256(1) == 256 * Pow256(0);
    }
  }

  lemma SizeIsByteLength(t: nat, bits: nat)
    requires 0 < t && IsBitLength(t, bits)
    ensures (bits + 7) / 8 == ByteLength(t)
  {
    var s := ByteLength(t);
    ByteBounds(t);
    Pow256Is(s);
    Pow256Is(s - 1);
    if bits > 8 * s { Pow2Mono(8 * s, bits - 1); }
    if bits <= 8 * (s - 1) { Pow2Mono(bits, 8 * (s - 1)); }
  }

  /** Dropping one more byte divides by 256, whether the scaling is up or down. */
  lemma ScaleStep(t: nat, k: int)
    ensures Scale(t, k - 1) == Scale(t, k) / 256
  {
    hide Pow256;
    if k > 0 {
      Pow256Next(k - 1);
      TimesThenDivide(t, Pow256(k - 1));
    } else {
      Pow256Next(-k);
      DivDiv(t, Pow256(-k), 256);
      if k == 0 { Pow256Next(0); }
    }
  }

  lemma Pow256Next(k: nat)
    ensures Pow256(k + 1) == Pow256(k) * 256 && Pow256(0) == 1
  {
  }

  lemma TimesThenDivide(t: nat, p: nat)
    ensures t * (p * 256) / 256 == t * p
  {
    MulAssoc(t, p, 256);
    DivModUnique(t * p * 256, 256, t * p, 0);
  }

  lemma {:induction false} ScaleMono(a: nat, b: nat, k: int)
    requires a <= b
    ensures Scale(a, k) <= Scale(b, k)
  {
    if k >= 0 {
      MulMono(a, b, Pow256(k));
    } else {
      DivMono(a, b, Pow256(-k));
    }
  }

  lemma SmallPowers()
    ensures Pow256(0) == 1 && Pow256(2) == 0x1_0000 && Pow256(3) == 0x100_0000
  {
  }

  lemma LeadingBounds(t: nat)
    requires t > 0
    ensures ByteLength(t) > 0 && t < Pow256(ByteLength(t))
    ensures 0x1_0000 <= Leading(t) < 0x100_0000
  {
    hide Pow256, ByteLength;
    var s := ByteLength(t);
    ByteBounds(t);
    SmallPowers();
    if s <= 3 {
      Pow256Add(s - 1, 3 - s);
      Pow256Add(s, 3 - s);
      MulMono(Pow256(s - 1), t, Pow256(3 - s));
      MulMono(t + 1, Pow256(s), Pow256(3 - s));
      assert (t + 1) * Pow256(3 - s) == t * Pow256(3 - s) + Pow256(3 - s);
    } else {
      Pow256Add(2, s - 3);
      Pow256Add(3, s - 3);
      DivGalois(t, Pow256(s - 3), 0x1_0000);
      DivGalois(t, Pow256(s - 3), 0x100_0000);
    }
  }

  lemma ShiftDown(t: nat)
    ensures Leading(t) >= 0x80_0000 ==> NormalMantissa(t) == Leading(t) / 256
  {
    ScaleStep(t, 3 - (ByteLength(t) as int));
  }

  lemma NormalForm(t: nat)
    requires 0 < t < W4
    ensures 0x8000 <= NormalMantissa(t) < 0x80_0000
    ensures 1 <= NormalExponent(t) <= 33
    ensures 0 <= Encode(t) < 0x1_0000_0000
  {
    LeadingBounds(t);
    ShiftDown(t);
    AtMost32Bytes(t);
  }

  lemma EncodedZero()
    ensures Encode(0) == 0
  {
  }

  /** The encoding from the three leading bytes and the length. */
  lemma EncodedFrom(t: nat)
    requires 0 < t < W4
    ensures Encode(t) == if Leading(t) >= 0x80_0000 then Leading(t) / 256 + (ByteLength(t) + 1) * 0x100_0000
                         else Leading(t) + ByteLength(t) * 0x100_0000
    ensures 0 < ByteLength(t) <= 32 && Encode(t) < 0x1_0000_0000
  {
    hide ByteLength, Scale;
    NormalForm(t);
    ShiftDown(t);
    AtMost32Bytes(t);
    LeadingBounds(t);
  }

  lemma AtMost32Bytes(t: nat)
    requires 0 < t < W4
    ensures ByteLength(t) <= 32
  {
    hide Pow2, Pow256, ByteLength;
    ByteBounds(t);
    WeightIsPow2(4);
    Pow256Is(32);
    Pow256Less(ByteLength(t) - 1, 32);
  }

  lemma Fields(m: nat, e: nat)
    requires m < 0x80_0000 && e < 256
    ensures var n := m + e * 0x100_0000;
      n < 0x1_0000_0000 && Exponent(n) == e && Mantissa(n) == m && !SignBit(n)
  {
  }

  // ---- What the compact form promises ------------------------------------

  /** Truncating to a mantissa and scaling back loses less than one unit of the exponent. */
  lemma RoundDown(t: nat, k: int)
    ensures var v := Scale(Scale(t, -k), k);
      && v <= t
      && (k <= 0 ==> v == t)
      && (k > 0 ==> t - v < Pow256(k) && Scale(t, -k) * Pow256(k) <= t)
  {
    if k <= 0 {
      assert Pow256(0) == 1;
      DivModUnique(t * Pow256(-k), Pow256(-k), t, 0);
    } else {
      assert t == t / Pow256(k) * Pow256(k) + t % Pow256(k);
    }
  }

  /** Decoding an encoded target succeeds, never exceeds it, and is within one part in 2^15 of it. */
  lemma DecodeEncode(t: nat)
    requires t < W4
    ensures Encode(t) < 0x1_0000_0000 && Decode(Encode(t)).Target?
    ensures var v := Decode(Encode(t)).value; v <= t && (t > 0 ==> 0x8000 * (t - v) < t)
  {
    if t == 0 {
      assert Scale(0, -3) == 0;
    } else {
      var m, e := NormalMantissa(t), NormalExponent(t);
      NormalForm(t);
      Fields(m, e);
      var k: int := (e as int) - 3;
      RoundDown(t, k);
      if k > 0 {
        MulMono(0x8000, m, Pow256(k));
      }
    }
  }

  lemma {:induction false} ScaleGap(t: nat, j: int, k: int)
    requires j < k
    ensures 256 * Scale(t, j) <= Scale(t, k)
    decreases k - j
  {
    ScaleStep(t, k);
    if j < k - 1 {
      ScaleGap(t, j, k - 1);
    }
  }

  /** Larger targets have larger encodings, compared as 32-bit integers. */
  lemma EncodeMonotone(a: nat, b: nat)
    requires a <= b < W4
    ensures Encode(a) <= Encode(b)
  {
    if a > 0 {
      NormalForm(a);
      NormalForm(b);
      var e: int, f: int := NormalExponent(a), NormalExponent(b);
      if e == f {
        ScaleMono(a, b, 3 - e);
      } else if e > f {
        ScaleMono(a, b, 3 - f);
        ScaleGap(a, 3 - e, 3 - f);
      }
    }
  }

  /** A decoded target survives re-encoding unchanged. */
  lemma DecodeEncodeDecode(nBits: Word)
    requires Decode(nBits).Target?
    ensures var t := Decode(nBits).value;
      t < W4 && Encode(t) < 0x1_0000_0000 && Decode(Encode(t)) == Decode(nBits)
  {
    var t := Decode(nBits).value;
    DecodeEncode(t);
    if t > 0 {
      var m0, k0: int, k: int := Mantissa(nBits), Exponent(nBits) as int - 3, NormalExponent(t) as int - 3;
      NormalForm(t);
      Fields(NormalMantissa(t), NormalExponent(t));
      RoundDown(t, k);
      if k > 0 {
        SourceExponent(m0, k0, k);
        Pow256Add(k0 - k, k);
        MulAssoc(m0, Pow256(k0 - k), Pow256(k));
        DivModUnique(t, Pow256(k), m0 * Pow256(k0 - k), 0);
      }
    }
  }

  /** A 23-bit mantissa cannot need a larger exponent than the one it came with. */
  lemma SourceExponent(m0: nat, k0: int, k: int)
    requires m0 < 0x80_0000 && k > 0 && Scale(Scale(m0, k0), -k) >= 0x8000
    ensures k <= k0
  {
    assert Pow256(0) == 1;
    if k0 < 0 {
      DivMonoDivisor(m0, Pow256(-k0));
    }
    var t := Scale(m0, k0);
    if k > k0 {
      if k0 <= 0 {
        assert t <= m0;
        ScaleGap(t, -k, 0);
      } else {
        ScaleGap(t, -k, -k0);
        DivModUnique(t, Pow256(k0), m0, 0);
      }
    }
  }

  // ---- Which encodings are canonical --------------------------------------

  /** Only one exponent brings a target's leading bytes into the mantissa's range. */
  lemma NormalUnique(t: nat, e: nat)
    requires 0 < t < W4 && 0x8000 <= Scale(t, 3 - (e as int)) < 0x80_0000
    ensures e == NormalExponent(t)
  {
    hide Scale;
    NormalForm(t);
    var f: int, g: int := e, NormalExponent(t);
    if f < g {
      ScaleGap(t, 3 - g, 3 - f);
    } else if g < f {
      ScaleGap(t, 3 - f, 3 - g);
    }
  }

  /** A sign bit clear, a mantissa with a non-zero leading byte or sign position, and no bytes that the decoder drops. */
  ghost predicate Canonical(nBits: Word) {
    || nBits == 0
    || (!SignBit(nBits) && Mantissa(nBits) >= 0x8000
        && (Exponent(nBits) >= 3 || Mantissa(nBits) % Pow256(3 - Exponent(nBits)) == 0))
  }

  /** Encoding gives back exactly the canonical encodings. */
  lemma EncodeDecode(nBits: Word)
    requires Decode(nBits).Target?
    ensures Encode(Decode(nBits).value) == nBits <==> Canonical(nBits)
  {
    hide Pow256, Scale, Encode;
    var t, m, e := Decode(nBits).value, Mantissa(nBits), Exponent(nBits);
    Split(nBits);
    DecodedValue(nBits);
    ScaleZero((e as int) - 3);
    ScaleBack(m, e);
    EncodeFields(t);
    if Canonical(nBits) && nBits != 0 {
      NotZero(m, e);
      NormalUnique(t, e);
    }
    if Encode(t) == nBits && t != 0 {
      NormalForm(t);
      Fields(NormalMantissa(t), NormalExponent(t));
    }
  }

  lemma Split(nBits: Word)
    ensures nBits == Mantissa(nBits) + Exponent(nBits) * 0x100_0000 + if SignBit(nBits) then 0x80_0000 else 0
  {
  }

  lemma DecodedValue(nBits: Word)
    requires Decode(nBits).Target?
    ensures Decode(nBits).value == Scale(Mantissa(nBits), Exponent(nBits) as int - 3) < W4
  {
  }

  lemma EncodeFields(t: nat)
    ensures Encode(t) == if t == 0 then 0 else NormalMantissa(t) + NormalExponent(t) * 0x100_0000
    ensures NormalMantissa(t) == Scale(t, 3 - (NormalExponent(t) as int))
  {
    hide Scale;
  }

  /** Scaling a mantissa by its exponent and back loses exactly the bytes that were shifted out. */
  lemma ScaleBack(m: nat, e: nat)
    ensures var back := Scale(Scale(m, (e as int) - 3), 3 - (e as int));
      back == if e >= 3 then m else m - m % Pow256(3 - e)
  {
    hide Pow256;
    if e >= 3 {
      DivModUnique(m * Pow256(e - 3), Pow256(e - 3), m, 0);
      Pow256Next(0);
    }
  }

  lemma ScaleZero(k: int)
    ensures Scale(0, k) == 0
  {
    hide Pow256;
  }

  lemma NotZero(m: nat, e: nat)
    requires m >= 0x8000 && (e >= 3 || m % Pow256(3 - e) == 0)
    ensures Scale(m, (e as int) - 3) > 0
  {
    hide Pow256;
    if e >= 3 { MulMono(1, m, Pow256(e - 3)); }
  }

  /** What is rejected as negative although its value is zero: a sign bit over a mantissa that is shifted out whole. */
  lemma NegativeZero(nBits: Word)
    ensures Decode(nBits).Rejected? && Decode(nBits).negative && Scale(Mantissa(nBits), Exponent(nBits) as int - 3) == 0
      <==> SignBit(nBits) && Exponent(nBits) < 3 && 0 < Mantissa(nBits) < Pow256(3 - Exponent(nBits))
  {
    var m, e := Mantissa(nBits), Exponent(nBits);
    hide Pow256;
    if e >= 3 {
      if m > 0 { MulMono(1, m, Pow256(e - 3)); }
    } else {
      DivGalois(m, Pow256(3 - e), 1);
    }
  }
}
