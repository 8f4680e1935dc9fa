/** Restoring long division: UInt256::divide in src/bitcoin/uint256.cpp. */
module Uint256Division {
  import opened Arith
  import opened Uint256

  /** Exact truncating division; division by zero yields zero. */
  method Divide(numerator: UInt256, denominator: UInt256) returns (quotient: UInt256, remainder: UInt256)
    ensures Value(denominator) == 0 ==> Value(quotient) == 0 && Value(remainder) == 0
    ensures Value(denominator) > 0 ==>
      && Value(quotient) == Value(numerator) / Value(denominator)
      && Value(remainder) == Value(numerator) % Value(denominator)
  {
    hide ClearBelow, Pow2, IsPartial;
    quotient, remainder := ZERO, ZERO;
    var noDenominator := IsZero(denominator);
    if noDenominator { return; }

    ghost var n, d := Value(numerator), Value(denominator);
    var bits := 256;
    DivisionStart(n, d, bits);
    while bits > 0
      invariant 0 <= bits <= 256
      invariant IsPartial(n, d, Value(quotient), Value(remainder), Pow2(bits))
      invariant ClearBelow(quotient, bits)
    {
      bits := bits - 1;
      quotient, remainder := DivideBit(numerator, denominator, quotient, remainder, bits);
    }
    DivisionEnd(n, d, Value(quotient), Value(remainder));
  }

  /** The body of the loop, for one bit of the numerator. */
  method DivideBit(numerator: UInt256, denominator: UInt256, quotient: UInt256, remainder: UInt256, bit: nat)
    returns (quotient': UInt256, remainder': UInt256)
    requires bit < 256 && ClearBelow(quotient, bit + 1)
    requires IsPartial(Value(numerator), Value(denominator), Value(quotient), Value(remainder), Pow2(bit + 1))
    ensures ClearBelow(quotient', bit)
    ensures IsPartial(Value(numerator), Value(denominator), Value(quotient'), Value(remainder'), Pow2(bit))
  {
    quotient' := quotient;
    var b := TestBit(numerator, bit);
    DivisionStep(Value(numerator), Value(denominator), Value(quotient), Value(remainder), Pow2(bit), b);
    remainder' := ShiftIn(remainder, b);
    ClearBelowLess(quotient, bit);
    var c := Compare(remainder', denominator);
    if c >= 0 {
      ghost var shifted := Value(remainder');
      remainder' := Minus(remainder', denominator);
      DivModUnique(shifted - Value(denominator), W4, 0, shifted - Value(denominator));
      quotient' := SetBit(quotient, bit);
    }
  }

  /** After the bits from p upwards: the quotient so far, and the remainder of n / p. */
  ghost predicate IsPartial(n: nat, d: nat, q: nat, r: nat, p: nat) {
    p > 0 && q * d + r * p + n % p == n && r < d
  }

  lemma DivisionStart(n: nat, d: nat, bits: nat)
    requires n < W4 && d > 0 && bits == 64 * 4
    ensures IsPartial(n, d, Value(ZERO), Value(ZERO), Pow2(bits)) && ClearBelow(ZERO, bits)
  {
    WeightIsPow2(4);
    DivModUnique(n, W4, 0, n);
  }

  lemma DivisionEnd(n: nat, d: nat, q: nat, r: nat)
    requires IsPartial(n, d, q, r, Pow2(0))
    ensures d > 0 && q == n / d && r == n % d
  {
    DivModUnique(n, d, q, r);
  }

  /** Bringing down one bit: the doubled remainder still fits, for it is at most n. */
  lemma DivisionStep(n: nat, d: nat, q: nat, r: nat, p: nat, b: nat)
    requires p > 0 && IsPartial(n, d, q, r, 2 * p) && b == n / p % 2
    ensures 2 * r + b <= n && 2 * r + b < 2 * d
    ensures 2 * r + b < d ==> IsPartial(n, d, q, 2 * r + b, p)
    ensures 2 * r + b >= d ==> IsPartial(n, d, q + p, 2 * r + b - d, p)
  {
    ModHalve(n, p);
    var r2, low := 2 * r + b, n % p;
    assert r2 * p == r * (2 * p) + b * p;
    MulMono(0, q, d);
    MulMono(1, p, r2);
    assert (q + p) * d == q * d + p * d;
    assert (r2 - d) * p == r2 * p - d * p;
  }

  lemma ModHalve(n: nat, p: nat)
    requires p > 0
    ensures n % (2 * p) == n / p % 2 * p + n % p
  {
    var q, low := n / p, n % p;
    var h, b := q / 2, q % 2;
    assert n == q * p + low;
    assert q == 2 * h + b;
    assert (2 * h + b) * p == h * (2 * p) + b * p;
    MulMono(b, 1, p);
    DivModUnique(n, 2 * p, h, b * p + low);
  }

  /** Shifts one bit into the remainder, without losing the top one. */
  method ShiftIn(rem: UInt256, b: nat) returns (out: UInt256)
    requires b <= 1 && 2 * Value(rem) + b < W4
    ensures Value(out) == 2 * Value(rem) + b
  {
    out := Shl(rem, 1);
    assert Pow2(1) == 2;
    hide Pow2, BitOr, Value;
    DivModUnique(Value(rem) * 2, W4, 0, 2 * Value(rem));
    if b == 1 {
      ghost var doubled := out;
      LowBitClear(doubled, Value(rem));
      var one := FromU64(1);
      out := Or(out, one);
      OrOne(doubled, one, out);
    }
  }

  lemma OrOne(x: UInt256, one: UInt256, out: UInt256)
    requires x[0] % 2 == 0 && Value(one) == 1 && forall j :: 0 <= j < 4 ==> out[j] == BitOr(x[j], one[j])
    ensures Value(out) == Value(x) + 1
  {
    assert one[1] == one[2] == one[3] == 0 && one[0] == 1 by { OneLimb(one); }
    BitOrOne(x[0]);
    BitOrZero(x[1]);
    BitOrZero(x[2]);
    BitOrZero(x[3]);
    hide BitOr;
    assert out[0] == x[0] + 1 && out[1] == x[1] && out[2] == x[2] && out[3] == x[3];
  }

  lemma OneLimb(x: UInt256)
    requires Value(x) < W1
    ensures x[1] == x[2] == x[3] == 0 && x[0] == Value(x)
  {
  }

  lemma BitOrZero(x: nat)
    ensures BitOr(x, 0) == x
  {
  }

  lemma LowBitClear(x: UInt256, half: nat)
    requires Value(x) == 2 * half
    ensures x[0] % 2 == 0
  {
  }

  lemma BitOrOne(x: nat)
    requires x % 2 == 0
    ensures BitOr(x, 1) == x + 1
  {
  }

  /** One bit of a number. */
  method TestBit(x: UInt256, bit: nat) returns (b: nat)
    requires bit < 256
    ensures b == Value(x) / Pow2(bit) % 2
  {
    b := x[bit / 64] / Pow2(bit % 64) % 2;
    LimbsDownAt(x, bit / 64, 0);
    ShrCompose(x, bit);
    LowLimbBit(LimbsDown(x, bit / 64), bit % 64);
  }

  lemma LowLimbBit(y: UInt256, b: nat)
    requires b < 64
    ensures Value(y) / Pow2(b) % 2 == y[0] / Pow2(b) % 2
  {
    var m, h := Pow2(b), Pow2(63 - b);
    Split64(b);
    var rest := y[1] + W1 * y[2] + W2 * y[3];
    assert Value(y) == y[0] + W1 * rest;
    HighPart(y[0], m, h, rest);
  }

  lemma HighPart(low: nat, m: nat, h: nat, rest: nat)
    requires m > 0
    ensures (low + 2 * h * m * rest) / m % 2 == low / m % 2
  {
    var q, r := low / m, low % m;
    assert low == q * m + r;
    assert (q + 2 * h * rest) * m == q * m + 2 * h * m * rest;
    DivModUnique(low + 2 * h * m * rest, m, q + 2 * h * rest, r);
    assert 2 * h * rest == 2 * (h * rest);
  }

  /** Every bit of q below position n is zero. */
  ghost predicate ClearBelow(q: UInt256, n: nat) {
    forall j :: 0 <= j < 4 ==> LimbClear(q[j], j, n)
  }

  ghost predicate LimbClear(limb: nat, j: nat, n: nat) {
    && (64 * (j + 1) <= n ==> limb == 0)
    && (64 * j <= n < 64 * (j + 1) ==> limb % Pow2(n - 64 * j) == 0)
  }

  lemma ClearBelowLess(q: UInt256, n: nat)
    requires n < 256 && ClearBelow(q, n + 1)
    ensures ClearBelow(q, n)
  {
    forall j | 0 <= j < 4 ensures LimbClear(q[j], j, n) {
      assert LimbClear(q[j], j, n + 1);
      if 64 * j <= n < 64 * (j + 1) {
        TopOfClear(q[j], j, n);
      }
    }
  }

  /** The limb of bit n is a multiple of twice that bit. */
  lemma TopOfClear(limb: nat, j: nat, n: nat)
    requires 64 * j <= n < 64 * (j + 1) && LimbClear(limb, j, n + 1)
    ensures limb == limb / Pow2(n - 64 * j + 1) * Pow2(n - 64 * j + 1)
    ensures limb % Pow2(n - 64 * j) == 0
  {
    var p := Pow2(n - 64 * j);
    if n + 1 < 64 * (j + 1) {
      var h := limb / (2 * p);
      assert limb == h * (2 * p);
      MulAssoc(h, 2, p);
      DivModUnique(limb, p, h * 2, 0);
    } else {
      DivModUnique(0, p, 0, 0);
      DivModUnique(0, 2 * p, 0, 0);
    }
  }

  /** Sets one bit of a number that is clear from there down. */
  method SetBit(q: UInt256, bit: nat) returns (out: UInt256)
    requires bit < 256 && ClearBelow(q, bit + 1)
    ensures Value(out) == Value(q) + Pow2(bit) && ClearBelow(out, bit)
  {
    var j, s := bit / 64, bit % 64;
    assert LimbClear(q[j], j, bit + 1);
    TopOfClear(q[j], j, bit);
    SetLimbBit(q[j], s);
    out := q[j := BitOr(q[j], Pow2(s))];
    WeightIsPow2(j);
    Pow2Add(64 * j, s);
    LimbChange(q, j, q[j] + Pow2(s));
    ClearBelowLess(q, bit);
    forall i | 0 <= i < 4 ensures LimbClear(out[i], i, bit) {
      assert LimbClear(q[i], i, bit);
    }
  }

  lemma SetLimbBit(limb: Limb, s: nat)
    requires s < 64 && limb == limb / Pow2(s + 1) * Pow2(s + 1)
    ensures BitOr(limb, Pow2(s)) == limb + Pow2(s) < W1
    ensures (limb + Pow2(s)) % Pow2(s) == 0
  {
    var h, p := limb / Pow2(s + 1), Pow2(s);
    BitOrDisjoint(h, p, s + 1);
    MulAssoc(h, 2, p);
    assert (h * 2 + 1) * p == limb + p;
    DivModUnique(limb + p, p, h * 2 + 1, 0);
    Pow2Of64();
    Pow2Mono(s, 63);
    BitOrBound(limb, p, 64);
  }

  lemma LimbChange(q: UInt256, j: nat, limb: Limb)
    requires j < 4
    ensures Value(q[j := limb]) == Value(q) + Weight(j) * (limb - q[j])
  {
  }
}
