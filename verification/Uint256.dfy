/** Exact 256-bit arithmetic on four 64-bit limbs: src/bitcoin/uint256.cpp. */
module Uint256 {
  import opened Arith

  const W1: nat := 0x1_0000_0000_0000_0000
  const W2: nat := W1 * W1
  const W3: nat := W2 * W1
  const W4: nat := W3 * W1

  type Limb = l: int | 0 <= l < W1

  /** Limb 0 is the least significant. */
  type UInt256 = s: seq<Limb> | |s| == 4 witness [0, 0, 0, 0]

  const ZERO: UInt256 := [0, 0, 0, 0]
  const MAX: UInt256 := [W1 - 1, W1 - 1, W1 - 1, W1 - 1]

  /** The number a UInt256 denotes. */
  function Value(x: UInt256): (v: nat)
    ensures v < W4
  {
    x[0] + W1 * x[1] + W2 * x[2] + W3 * x[3]
  }

  /** The weight of limb i. */
  function Weight(i: nat): nat
    requires i <= 4
  {
    if i == 0 then 1 else if i == 1 then W1 else if i == 2 then W2 else if i == 3 then W3 else W4
  }

  /** The value of the i low limbs. */
  function Low(x: UInt256, i: nat): nat
    requires i <= 4
  {
    (if i > 0 then x[0] else 0) + (if i > 1 then W1 * x[1] else 0)
    + (if i > 2 then W2 * x[2] else 0) + (if i > 3 then W3 * x[3] else 0)
  }

  method FromU64(v: Limb) returns (out: UInt256)
    ensures Value(out) == v
  {
    out := [v, 0, 0, 0];
  }

  method IsZero(x: UInt256) returns (zero: bool)
    ensures zero <==> Value(x) == 0
  {
    for i := 0 to 4
      invariant forall j :: 0 <= j < i ==> x[j] == 0
    {
      if x[i] != 0 { return false; }
    }
    return true;
  }

  /** -1, 0 or 1 */
  method Compare(x: UInt256, y: UInt256) returns (c: int)
    ensures c == if Value(x) < Value(y) then -1 else if Value(x) > Value(y) then 1 else 0
  {
    var i := 3;
    while i >= 0
      invariant -1 <= i <= 3
      invariant forall j :: i < j < 4 ==> x[j] == y[j]
    {
      if x[i] < y[i] {
        TopLimbDecides(x, y, i);
        return -1;
      }
      if x[i] > y[i] {
        TopLimbDecides(y, x, i);
        return 1;
      }
      i := i - 1;
    }
    return 0;
  }

  lemma TopLimbDecides(x: UInt256, y: UInt256, i: nat)
    requires i < 4 && x[i] < y[i]
    requires forall j :: i < j < 4 ==> x[j] == y[j]
    ensures Value(x) < Value(y)
  {
  }

  lemma LowStep(x: UInt256, i: nat, v: Limb)
    requires i < 4
    ensures Low(x[i := v], i + 1) == Low(x, i) + Weight(i) * v
    ensures Low(x, i + 1) == Low(x, i) + Weight(i) * x[i]
    ensures Weight(i + 1) == Weight(i) * W1
  {
  }

  lemma ModSmall(n: int, q: int)
    requires q * W1 <= n < q * W1 + W1
    ensures n % W1 == n - q * W1
  {
  }

  /** total is one limb of the sum, newCarry what it passes on. */
  method AddLimb(a: Limb, b: Limb, carry: Limb) returns (total: Limb, newCarry: Limb)
    requires carry <= 1
    ensures newCarry <= 1 && total + newCarry * W1 == a + b + carry
  {
    var sum := (a + b) % W1;
    ModSmall(a + b, if a + b < W1 then 0 else 1);
    newCarry := if sum < a then 1 else 0;
    total := (sum + carry) % W1;
    ModSmall(sum + carry, if sum + carry < W1 then 0 else 1);
    if total < sum { newCarry := 1; }
  }

  method SubLimb(a: Limb, b: Limb, borrow: Limb) returns (diff: Limb, newBorrow: Limb)
    requires borrow <= 1
    ensures newBorrow <= 1 && diff == a - b - borrow + newBorrow * W1
  {
    diff := (a - b) % W1;
    ModSmall(a - b, if a < b then -1 else 0);
    newBorrow := if a < b then 1 else 0;
    if borrow == 1 {
      if diff == 0 { newBorrow := 1; }
      ModSmall(diff - 1, if diff == 0 then -1 else 0);
      diff := (diff - 1) % W1;
    }
  }

  lemma Distribute(w: int, total: int, a: int, b: int, carry: int, newCarry: int)
    requires total + newCarry * W1 == a + b + carry
    ensures w * total + w * W1 * newCarry == w * a + w * b + w * carry
  {
  }

  /** Addition modulo 2^256. */
  method Plus(x: UInt256, y: UInt256) returns (out: UInt256)
    ensures Value(out) == (Value(x) + Value(y)) % W4
  {
    out := ZERO;
    var carry: Limb := 0;
    for i := 0 to 4
      invariant carry <= 1
      invariant Low(out, i) + Weight(i) * carry == Low(x, i) + Low(y, i)
    {
      var total, newCarry := AddLimb(x[i], y[i], carry);
      LowStep(out, i, total);
      LowStep(x, i, 0);
      LowStep(y, i, 0);
      Distribute(Weight(i), total, x[i], y[i], carry, newCarry);
      out := out[i := total];
      carry := newCarry;
    }
    DivModUnique(Value(x) + Value(y), W4, carry, Value(out));
  }

  /** Subtraction modulo 2^256. */
  method Minus(x: UInt256, y: UInt256) returns (out: UInt256)
    ensures Value(out) == (Value(x) - Value(y)) % W4
  {
    out := ZERO;
    var borrow: Limb := 0;
    for i := 0 to 4
      invariant borrow <= 1
      invariant Low(out, i) + Low(y, i) == Low(x, i) + Weight(i) * borrow
    {
      var diff, newBorrow := SubLimb(x[i], y[i], borrow);
      LowStep(out, i, diff);
      LowStep(x, i, 0);
      LowStep(y, i, 0);
      Distribute(Weight(i), x[i], diff, y[i], borrow, newBorrow);
      out := out[i := diff];
      borrow := newBorrow;
    }
    DivModUnique(Value(x) - Value(y), W4, -(borrow as int), Value(out));
  }

  method BitLength(x: UInt256) returns (n: nat)
    ensures n <= 256 && IsBitLength(Value(x), n)
  {
    var limb := 3;
    while limb >= 0
      invariant -1 <= limb <= 3
      invariant forall j :: limb < j < 4 ==> x[j] == 0
    {
      if x[limb] != 0 {
        var bits := LimbBits(x[limb]);
        BitLengthFromTop(x, limb, bits);
        return 64 * limb + bits;
      }
      limb := limb - 1;
    }
    return 0;
  }

  /** n is the index of the highest set bit plus one. */
  ghost predicate IsBitLength(v: nat, n: nat) {
    v < Pow2(n) && (n > 0 ==> Pow2(n - 1) <= v)
  }

  lemma BitLengthUnique(v: nat, m: nat, n: nat)
    requires IsBitLength(v, m) && IsBitLength(v, n)
    ensures m == n
  {
    if m < n {
      Pow2Mono(m, n - 1);
    } else if n < m {
      Pow2Mono(n, m - 1);
    }
  }

  method LimbBits(limb: Limb) returns (bits: nat)
    requires limb > 0
    ensures 0 < bits <= 64 && IsBitLength(limb, bits)
  {
    var v: nat := limb;
    bits := 0;
    Pow2Of64();
    while v > 0
      invariant v * Pow2(bits) <= limb < (v + 1) * Pow2(bits)
      invariant bits > 0 ==> Pow2(bits - 1) <= limb
      decreases v
    {
      HalveStep(limb, v, bits);
      v := v / 2;
      bits := bits + 1;
    }
    if bits > 64 { Pow2Mono(64, bits - 1); }
  }

  lemma HalveStep(limb: nat, v: nat, bits: nat)
    requires v > 0 && v * Pow2(bits) <= limb < (v + 1) * Pow2(bits)
    ensures Pow2(bits) <= limb
    ensures v / 2 * Pow2(bits + 1) <= limb < (v / 2 + 1) * Pow2(bits + 1)
  {
    MulMono(1, v, Pow2(bits));
    MulMono(v / 2 * 2, v, Pow2(bits));
    MulMono(v + 1, (v / 2 + 1) * 2, Pow2(bits));
    MulAssoc(v / 2, 2, Pow2(bits));
    MulAssoc(v / 2 + 1, 2, Pow2(bits));
  }

  lemma Pow2Of64()
    ensures Pow2(64) == W1
  {
    assert Pow2(4) == 16;
    hide Pow2;
    Pow2Twice(4, 16);
    Pow2Twice(8, 256);
    Pow2Twice(16, 0x1_0000);
    Pow2Twice(32, 0x1_0000_0000);
  }

  lemma Pow2Twice(n: nat, p: nat)
    requires Pow2(n) == p
    ensures Pow2(2 * n) == p * p
  {
    Pow2Add(n, n);
  }

  lemma {:induction false} WeightIsPow2(i: nat)
    requires i <= 4
    ensures Pow2(64 * i) == Weight(i)
  {
    if i > 0 {
      WeightIsPow2(i - 1);
      Pow2Of64();
      Pow2Add(64 * (i - 1), 64);
    }
  }

  lemma BitLengthFromTop(x: UInt256, limb: nat, bits: nat)
    requires limb < 4 && forall j :: limb < j < 4 ==> x[j] == 0
    requires 0 < bits && IsBitLength(x[limb], bits)
    ensures IsBitLength(Value(x), 64 * limb + bits)
  {
    WeightIsPow2(limb);
    LowBound(x, limb);
    LowBound(x, limb + 1);
    LowStep(x, limb, 0);
    ScaleBitLength(x[limb], bits, Low(x, limb), 64 * limb);
  }

  lemma LowBound(x: UInt256, i: nat)
    requires i <= 4
    ensures Low(x, i) < Weight(i)
    ensures (forall j :: i <= j < 4 ==> x[j] == 0) ==> Value(x) == Low(x, i)
  {
  }

  lemma ScaleBitLength(top: nat, bits: nat, low: nat, k: nat)
    requires 0 < bits && IsBitLength(top, bits) && low < Pow2(k)
    ensures IsBitLength(low + Pow2(k) * top, k + bits)
  {
    Pow2Add(k, bits);
    Pow2Add(k, bits - 1);
    ScaleBounds(top, low, Pow2(k), Pow2(bits), Pow2(bits - 1));
  }

  lemma ScaleBounds(top: nat, low: nat, p: nat, q: nat, r: nat)
    requires low < p && r <= top < q
    ensures p * r <= low + p * top < p * q
  {
    MulMono(top + 1, q, p);
    MulMono(r, top, p);
    assert (top + 1) * p == p * top + p;
  }

  /** Bitwise "or". */
  method Or(x: UInt256, y: UInt256) returns (out: UInt256)
    ensures forall j :: 0 <= j < 4 ==> out[j] == BitOr(x[j], y[j])
  {
    out := ZERO;
    Pow2Of64();
    for i := 0 to 4
      invariant forall j :: 0 <= j < i ==> out[j] == BitOr(x[j], y[j])
    {
      BitOrBound(x[i], y[i], 64);
      out := out[i := BitOr(x[i], y[i])];
    }
  }

  /** x with its limbs moved up by n places. */
  ghost function LimbsUp(x: UInt256, n: nat): UInt256
    requires n < 4
  {
    [if n == 0 then x[0] else 0, if n > 1 then 0 else x[1 - n], if n > 2 then 0 else x[2 - n], x[3 - n]]
  }

  lemma LimbsUpAt(x: UInt256, n: nat, i: nat)
    requires n < 4 && i < 4
    ensures LimbsUp(x, n)[i] == if i < n then 0 else x[i - n]
  {
  }

  lemma LimbsUpValue(x: UInt256, n: nat)
    requires n < 4
    ensures Value(LimbsUp(x, n)) == Value(x) * Weight(n) % W4
  {
    var lost := if n == 0 then 0 else if n == 1 then x[3] else if n == 2 then x[2] + W1 * x[3]
      else x[1] + W1 * x[2] + W2 * x[3];
    DivModUnique(Value(x) * Weight(n), W4, lost, Value(LimbsUp(x, n)));
  }

  lemma Split64(b: nat)
    requires b <= 64
    ensures Pow2(64 - b) * Pow2(b) == W1
  {
    Pow2Of64();
    Pow2Add(64 - b, b);
  }

  /** What stays in a limb multiplied by m, and what moves on to the next. */
  function Keep(limb: nat, m: nat): (k: nat)
    ensures k < W1
  {
    limb * m % W1
  }

  function Carry(limb: nat, m: nat): nat { limb * m / W1 }

  /** What a right shift by log2(m) keeps of a limb. */
  function ShrLimb(limb: Limb, m: nat): Limb
    requires m > 0
  {
    DivGalois(limb, m, 0);
    DivMonoDivisor(limb, m);
    limb / m
  }

  lemma DivMonoDivisor(n: nat, m: nat)
    requires m > 0
    ensures n / m <= n
  {
    MulMono(1, m, n / m);
  }

  lemma KeepCarryTrivial(limb: Limb, m: nat)
    ensures Keep(0, m) == 0 && Carry(0, m) == 0
    ensures Keep(limb, 1) == limb && Carry(limb, 1) == 0
  {
  }

  lemma ShlLimbOr(hi: Limb, lo: Limb, b: nat, g: nat, m: nat)
    requires m == Pow2(b) && g * m == W1
    ensures g > 0 && BitOr(Keep(hi, m), ShrLimb(lo, g)) == Keep(hi, m) + Carry(lo, m) < W1
  {
    hide Pow2, BitOr;
    ScaleDivMod(hi, g, m);
    ScaleDivMod(lo, g, m);
    var k, c := hi % g, lo / g;
    assert Keep(hi, m) == k * m && Carry(lo, m) == c;
    DivGalois(lo, g, m);
    BitOrDisjoint(k, c, b);
    RoomFor(k, c, g, m);
  }

  lemma RoomFor(k: nat, c: nat, g: nat, m: nat)
    requires k < g && c < m
    ensures k * m + c < g * m
  {
    MulMono(k + 1, g, m);
    assert (k + 1) * m == k * m + m;
  }

  lemma ShlLimbOr64(hi: Limb, lo: Limb, b: nat)
    requires 0 < b < 64
    ensures BitOr(Keep(hi, Pow2(b)), ShrLimb(lo, Pow2(64 - b))) == Keep(hi, Pow2(b)) + Carry(lo, Pow2(b)) < W1
  {
    Split64(b);
    ShlLimbOr(hi, lo, b, Pow2(64 - b), Pow2(b));
  }

  ghost function ShlAt(y: UInt256, m: nat, j: nat): nat
    requires j < 4
  {
    Keep(y[j], m) + (if j > 0 then Carry(y[j - 1], m) else 0)
  }

  lemma ShlBits(y: UInt256, m: nat, out: UInt256)
    requires m > 0
    requires forall j :: 0 <= j < 4 ==> out[j] == ShlAt(y, m, j)
    ensures Value(out) == Value(y) * m % W4
  {
    assert out[0] == ShlAt(y, m, 0) && out[1] == ShlAt(y, m, 1) && out[2] == ShlAt(y, m, 2) && out[3] == ShlAt(y, m, 3);
    KeepCarry(y[0], m);
    KeepCarry(y[1], m);
    KeepCarry(y[2], m);
    KeepCarry(y[3], m);
    DistributeValue(y, m);
    DivModUnique(Value(y) * m, W4, Carry(y[3], m), Value(out));
  }

  lemma KeepCarry(limb: nat, m: nat)
    ensures limb * m == Keep(limb, m) + W1 * Carry(limb, m)
  {
  }

  lemma DistributeValue(y: UInt256, m: nat)
    ensures Value(y) * m == y[0] * m + W1 * (y[1] * m) + W2 * (y[2] * m) + W3 * (y[3] * m)
  {
  }

  /** The limb that src and its lower neighbour contribute when shifted left by b bits. */
  method ShlLimb(x: UInt256, src: nat, b: nat) returns (value: Limb)
    requires src < 4 && b < 64
    ensures value == Keep(x[src], Pow2(b)) + (if src > 0 then Carry(x[src - 1], Pow2(b)) else 0)
  {
    value := Keep(x[src], Pow2(b));
    if b != 0 && src > 0 {
      ShlLimbOr64(x[src], x[src - 1], b);
      value := BitOr(value, ShrLimb(x[src - 1], Pow2(64 - b)));
    } else if src > 0 {
      KeepCarryTrivial(x[src - 1], 1);
    }
  }

  /** Multiplication by 2^shift modulo 2^256. */
  method Shl(x: UInt256, shift: nat) returns (out: UInt256)
    ensures Value(out) == Value(x) * Pow2(shift) % W4
  {
    out := ZERO;
    if shift >= 256 {
      ShlOut(Value(x), shift);
      return;
    }
    var limbShift, bitShift := shift / 64, shift % 64;
    ghost var y := LimbsUp(x, limbShift);
    var i := 3;
    while i >= 0
      invariant -1 <= i <= 3
      invariant forall j :: i < j < 4 ==> out[j] == ShlAt(y, Pow2(bitShift), j)
      invariant forall j :: 0 <= j <= i ==> out[j] == 0
    {
      KeepCarryTrivial(0, Pow2(bitShift));
      LimbsUpAt(x, limbShift, i);
      if i > 0 { LimbsUpAt(x, limbShift, i - 1); }
      if i >= limbShift {
        var value := ShlLimb(x, i - limbShift, bitShift);
        out := out[i := value];
      }
      i := i - 1;
    }
    ShlBits(y, Pow2(bitShift), out);
    ShlCompose(x, shift);
  }

  lemma ShlOut(v: nat, shift: nat)
    requires shift >= 256
    ensures v * Pow2(shift) % W4 == 0
  {
    WeightIsPow2(4);
    Pow2Add(shift - 256, 256);
    MulAssoc(v, Pow2(shift - 256), W4);
    DivModUnique(v * Pow2(shift), W4, v * Pow2(shift - 256), 0);
  }

  lemma ShlCompose(x: UInt256, shift: nat)
    requires shift < 256
    ensures Value(LimbsUp(x, shift / 64)) * Pow2(shift % 64) % W4 == Value(x) * Pow2(shift) % W4
  {
    var n, b := shift / 64, shift % 64;
    LimbsUpValue(x, n);
    WeightIsPow2(n);
    Pow2Add(64 * n, b);
    ModMulLeft(Value(x) * Weight(n), Pow2(b), W4);
    MulAssoc(Value(x), Weight(n), Pow2(b));
  }

  /** x with its limbs moved down by n places. */
  ghost function LimbsDown(x: UInt256, n: nat): UInt256
    requires n < 4
  {
    [x[n], if n + 1 < 4 then x[n + 1] else 0, if n + 2 < 4 then x[n + 2] else 0, if n + 3 < 4 then x[n + 3] else 0]
  }

  lemma LimbsDownAt(x: UInt256, n: nat, i: nat)
    requires n < 4 && i < 4
    ensures LimbsDown(x, n)[i] == if i + n < 4 then x[i + n] else 0
  {
  }

  lemma LimbsDownValue(x: UInt256, n: nat)
    requires n < 4
    ensures Value(LimbsDown(x, n)) == Value(x) / Weight(n)
  {
  }

  lemma ShrLimbOr(lo: Limb, hi: Limb, k: nat, g: nat, m: nat)
    requires g == Pow2(k) && m * g == W1
    ensures m > 0 && Keep(hi, g) == hi % m * g
    ensures BitOr(ShrLimb(lo, m), Keep(hi, g)) == ShrLimb(lo, m) + Keep(hi, g) < W1
  {
    hide Pow2, BitOr;
    ScaleDivMod(hi, m, g);
    var r, q := hi % m, ShrLimb(lo, m);
    assert g * m == W1;
    DivGalois(lo, m, g);
    BitOrDisjoint(r, q, k);
    BitOrComm(q, r * g);
    RoomFor(r, q, m, g);
  }

  lemma ShrLimbOr64(lo: Limb, hi: Limb, b: nat)
    requires b < 64
    ensures BitOr(ShrLimb(lo, Pow2(b)), Keep(hi, Pow2(64 - b))) == ShrLimb(lo, Pow2(b)) + Keep(hi, Pow2(64 - b)) < W1
  {
    hide Pow2, BitOr;
    Split64(b);
    ShrLimbOr(lo, hi, 64 - b, Pow2(64 - b), Pow2(b));
  }

  ghost function ShrAt(y: UInt256, m: nat, g: nat, j: nat): nat
    requires j < 4 && m > 0
  {
    ShrLimb(y[j], m) + (if j < 3 then Keep(y[j + 1], g) else 0)
  }

  /** One limb of the product of the shifted number with m. */
  lemma ShrAtScaled(lo: Limb, hi: Limb, k: nat, g: nat, m: nat, limb: nat)
    requires g == Pow2(k) && m * g == W1 && m > 0
    requires limb == ShrLimb(lo, m) + Keep(hi, g)
    ensures limb * m == lo - lo % m + W1 * (hi % m)
  {
    KeepHigh(hi, g, m);
    DivModSum(lo, m);
    ScaledSum(lo / m, hi % m, g, m, W1, limb);
  }

  lemma DivModSum(n: nat, m: nat)
    requires m > 0
    ensures n == n / m * m + n % m
  {
  }

  lemma KeepHigh(hi: Limb, g: nat, m: nat)
    requires m * g == W1 && m > 0
    ensures Keep(hi, g) == hi % m * g
  {
    ScaleDivMod(hi, m, g);
  }

  lemma ScaledSum(q: nat, r: nat, g: nat, m: nat, w: nat, sum: nat)
    requires m * g == w && sum == q + r * g
    ensures sum * m == q * m + w * r
  {
  }

  lemma ShrBits(y: UInt256, k: nat, m: nat, g: nat, out: UInt256)
    requires g == Pow2(k) && m * g == W1 && m > 0
    requires forall j :: 0 <= j < 4 ==> out[j] == ShrAt(y, m, g, j)
    ensures Value(out) == Value(y) / m
  {
    hide Pow2, Keep;
    assert out[0] == ShrAt(y, m, g, 0) && out[1] == ShrAt(y, m, g, 1);
    assert out[2] == ShrAt(y, m, g, 2) && out[3] == ShrAt(y, m, g, 3);
    ShrAtScaled(y[0], y[1], k, g, m, out[0]);
    ShrAtScaled(y[1], y[2], k, g, m, out[1]);
    ShrAtScaled(y[2], y[3], k, g, m, out[2]);
    DivModSum(y[3], m);
    DistributeValue(out, m);
    ShrTelescope(y, out[0] * m, out[1] * m, out[2] * m, out[3] * m, y[0] % m, y[1] % m, y[2] % m, y[3] % m);
    DivModUnique(Value(y), m, Value(out), y[0] % m);
  }

  /** The bits that each limb hands down are the ones the next one takes in. */
  lemma ShrTelescope(y: UInt256, p0: int, p1: int, p2: int, p3: int, r0: int, r1: int, r2: int, r3: int)
    requires p0 == y[0] - r0 + W1 * r1 && p1 == y[1] - r1 + W1 * r2
    requires p2 == y[2] - r2 + W1 * r3 && p3 == y[3] - r3
    ensures p0 + W1 * p1 + W2 * p2 + W3 * p3 + r0 == Value(y)
  {
  }

  method ShrLimbs(x: UInt256, src: nat, b: nat) returns (value: Limb)
    requires src < 4 && b < 64
    ensures value == ShrLimb(x[src], Pow2(b)) + (if src < 3 then Keep(x[src + 1], Pow2(64 - b)) else 0)
  {
    value := ShrLimb(x[src], Pow2(b));
    if b != 0 && src + 1 <= 3 {
      ShrLimbOr64(x[src], x[src + 1], b);
      value := BitOr(value, Keep(x[src + 1], Pow2(64 - b)));
    } else if src < 3 {
      KeepNothing(x[src + 1]);
    }
  }

  lemma KeepNothing(limb: Limb)
    ensures Keep(limb, Pow2(64)) == 0
  {
    Pow2Of64();
    DivModUnique(limb * W1, W1, limb, 0);
  }

  lemma ShrBeyond(x: UInt256, n: nat, m: nat, g: nat, dst: nat)
    requires n < 4 && m > 0 && dst + n > 3
    ensures forall j :: dst <= j < 4 ==> ShrAt(LimbsDown(x, n), m, g, j) == 0
  {
  }

  lemma ShrOut(v: nat, shift: nat)
    requires shift >= 256 && v < W4
    ensures v / Pow2(shift) == 0
  {
    WeightIsPow2(4);
    Pow2Mono(256, shift);
    DivModUnique(v, Pow2(shift), 0, v);
  }

  lemma ShrCompose(x: UInt256, shift: nat)
    requires shift < 256
    ensures Value(LimbsDown(x, shift / 64)) / Pow2(shift % 64) == Value(x) / Pow2(shift)
  {
    var n, b := shift / 64, shift % 64;
    LimbsDownValue(x, n);
    WeightIsPow2(n);
    Pow2Add(64 * n, b);
    DivDiv(Value(x), Weight(n), Pow2(b));
  }

  /** Division by 2^shift. */
  method Shr(x: UInt256, shift: nat) returns (out: UInt256)
    ensures Value(out) == Value(x) / Pow2(shift)
  {
    out := ZERO;
    if shift >= 256 {
      ShrOut(Value(x), shift);
      return;
    }
    var limbShift, bitShift := shift / 64, shift % 64;
    ghost var y := LimbsDown(x, limbShift);
    ghost var m, g := Pow2(bitShift), Pow2(64 - bitShift);
    for dst := 0 to 4
      invariant forall j :: 0 <= j < dst ==> out[j] == ShrAt(y, m, g, j)
      invariant forall j :: dst <= j < 4 ==> out[j] == 0
    {
      LimbsDownAt(x, limbShift, dst);
      if dst < 3 { LimbsDownAt(x, limbShift, dst + 1); }
      KeepCarryTrivial(0, g);
      var src := dst + limbShift;
      if src > 3 {
        ShrBeyond(x, limbShift, m, g, dst);
        break;
      }
      var value := ShrLimbs(x, src, bitShift);
      out := out[dst := value];
    }
    Split64(bitShift);
    ShrBits(y, 64 - bitShift, m, g, out);
    ShrCompose(x, shift);
  }
}
