/** Share targets and share difficulties: the rest of src/bitcoin/difficulty.cpp. */
module ShareDifficulty {
  import opened Arith
  import opened Bytes
  import opened Uint256
  import opened Uint256Division
  import opened Uint256Hash
  import CompactBits

  /** A difficulty as the pool sends it; finite doubles are modelled by the reals they denote. */
  datatype Double = NaN | Infinity(negative: bool) | Finite(value: real)

  /** 0x00000000FFFF0000...0000 */
  const DIFFICULTY_ONE: UInt256 := [0, 0, 0, 0xFFFF_0000]

  const D1: nat := 0xFFFF_0000 * W3
  const SCALE: nat := 0x1_0000_0000

  lemma DifficultyOneValue()
    ensures Value(DIFFICULTY_ONE) == D1 && D1 * SCALE < W4
  {
  }

  /**
   * The unit of difficulty: the target that the compact form 0x1d00ffff denotes, 0xFFFF followed by 208 zero bits, is the
   * target of difficulty one.
   */
  lemma UnitOfDifficulty()
    ensures D1 == 0xFFFF * Pow2(208) && CompactBits.NetworkTarget(0x1d00ffff) == D1
    ensures ShareTarget(Finite(1.0)) == D1 && Achieved(D1) == 1 && AchievedFixed32(D1) == SCALE
  {
    hide Pow2, Pow256;
    UnitIsPower();
    CompactUnit();
    DifficultyOneValue();
    assert Scaled(1.0) == 4294967296.0 && Floor(Scaled(1.0)) == SCALE;
    DivModUnique(D1 * SCALE, SCALE, D1, 0);
    DivModUnique(D1, D1, 1, 0);
    DivModUnique(D1 * SCALE, D1, SCALE, 0);
  }

  lemma UnitIsPower()
    ensures D1 == 0xFFFF * Pow2(208)
  {
    assert Pow2(4) == 16;
    hide Pow2;
    Pow2Twice(4, 16);
    Pow2Twice(8, 256);
    WeightIsPow2(3);
    Pow2Add(64 * 3, 16);
  }

  lemma CompactUnit()
    ensures CompactBits.NetworkTarget(0x1d00ffff) == 0xFFFF * Pow2(208)
  {
    hide Pow2, Pow256;
    Pow256Is(0x1d - 3);
    UnitIsPower();
    DifficultyOneValue();
  }

  /** A hash meets a target that is not zero and not below it. */
  predicate Meets(hash: nat, target: nat) { target != 0 && hash <= target }

  method HashMeetsTarget(hash: Hash256, target: UInt256) returns (meets: bool)
    ensures meets <==> Value(target) != 0 && LeValue(hash) <= Value(target)
  {
    var zero := IsZero(target);
    if zero { return false; }
    var v := FromHash(hash);
    var c := Compare(v, target);
    return c <= 0;
  }

  /** floor(x) of a non-negative real */
  function Floor(x: real): (n: nat)
    requires x >= 0.0
    ensures n as real <= x < (n + 1) as real
  {
    x.Floor
  }

  function Scaled(d: real): real { d * 4294967296.0 }

  /** The share target as a number. */
  ghost function ShareTarget(d: Double): nat
    requires d.Finite? ==> d.value < 18446744073709551616.0
  {
    if !d.Finite? || d.value <= 0.0 then 0
    else if Scaled(d.value) < 1.0 then W4 - 1
    else if Scaled(d.value) >= 18446744073709551616.0 then D1 / Floor(d.value)
    else D1 * SCALE / Floor(Scaled(d.value))
  }

  method TargetFromShareDifficulty(difficulty: Double) returns (target: UInt256)
    requires difficulty.Finite? ==> difficulty.value < 18446744073709551616.0
    ensures Value(target) == ShareTarget(difficulty)
  {
    DifficultyOneValue();
    match difficulty {
      case NaN => return ZERO;
      case Infinity(_) => return ZERO;
      case Finite(d) =>
        if !(d > 0.0) { return ZERO; }
        var scaledDouble := Scaled(d);
        if scaledDouble < 1.0 { return MAX; }
        if scaledDouble >= 18446744073709551616.0 {
          var denominator := FromU64(Floor(d));
          var zero := IsZero(denominator);
          if zero { return ZERO; }
          var quotient, _ := Divide(DIFFICULTY_ONE, denominator);
          return quotient;
        }
        var denominator := FromU64(Floor(scaledDouble));
        var numerator := ScaledDifficultyOne();
        var quotient, _ := Divide(numerator, denominator);
        return quotient;
    }
  }

  /** Difficulty one shifted left by 32 bits, which loses nothing. */
  method ScaledDifficultyOne() returns (out: UInt256)
    ensures Value(out) == D1 * SCALE
  {
    DifficultyOneValue();
    out := Shl(DIFFICULTY_ONE, 32);
    assert Pow2(4) == 16;
    Pow2Add(4, 4);
    Pow2Add(8, 8);
    Pow2Add(16, 16);
    DivModUnique(D1 * SCALE, W4, 0, D1 * SCALE);
  }

  /** The difficulty a hash achieved, truncated to an integer. */
  ghost function Achieved(hash: nat): nat { if hash == 0 then W4 - 1 else D1 / hash }

  /** The same in units of 2^-32. */
  ghost function AchievedFixed32(hash: nat): nat { if hash == 0 then W4 - 1 else D1 * SCALE / hash }

  method ShareDifficultyOfHash(hash: Hash256) returns (difficulty: UInt256)
    ensures Value(difficulty) == Achieved(LeValue(hash))
  {
    DifficultyOneValue();
    var value := FromHash(hash);
    var zero := IsZero(value);
    if zero { return MAX; }
    var quotient, _ := Divide(DIFFICULTY_ONE, value);
    return quotient;
  }

  method ShareDifficultyOfHashFixed32(hash: Hash256) returns (difficulty: UInt256)
    ensures Value(difficulty) == AchievedFixed32(LeValue(hash))
  {
    var value := FromHash(hash);
    var zero := IsZero(value);
    if zero { return MAX; }
    var numerator := ScaledDifficultyOne();
    var quotient, _ := Divide(numerator, value);
    return quotient;
  }

  /** h <= n / d exactly when d <= n / h. */
  lemma QuotientSwap(n: nat, d: nat, h: nat)
    requires d > 0 && h > 0
    ensures h <= n / d <==> d <= n / h
  {
    DivGalois(n, d, h);
    DivGalois(n, h, d);
    assert h * d == d * h;
  }

  lemma QuotientPositive(n: nat, d: nat)
    requires 0 < d <= n
    ensures n / d > 0
  {
  }

  /** Below 2^32, a hash meets the share target exactly when its fixed-point difficulty reaches floor(d * 2^32). */
  lemma MeetsIffFixed32(hash: nat, d: real)
    requires hash < W4
    requires 1.0 <= Scaled(d) && d < 4294967296.0
    ensures Meets(hash, ShareTarget(Finite(d))) <==> AchievedFixed32(hash) >= Floor(Scaled(d))
  {
    var f := Floor(Scaled(d));
    assert 0 < f < W1;
    QuotientPositive(D1 * SCALE, f);
    if hash > 0 {
      QuotientSwap(D1 * SCALE, f, hash);
    }
  }

  /** From 2^32 on, exactly when its integer difficulty reaches floor(d). */
  lemma MeetsIffInteger(hash: nat, d: real)
    requires hash < W4
    requires 4294967296.0 <= d < 18446744073709551616.0
    ensures Meets(hash, ShareTarget(Finite(d))) <==> Achieved(hash) >= Floor(d)
  {
    var f := Floor(d);
    assert 0 < f < W1;
    QuotientPositive(D1, f);
    if hash > 0 {
      QuotientSwap(D1, f, hash);
    }
  }

  /** Below 2^-32 every hash meets the clamped target. */
  lemma MeetsClamped(hash: nat, d: real)
    requires hash < W4 && 0.0 < d && Scaled(d) < 1.0
    ensures Meets(hash, ShareTarget(Finite(d)))
  {
  }

  /** A positive difficulty has a target of its own. */
  lemma PositiveTarget(d: real)
    requires 0.0 < d < 18446744073709551616.0
    ensures ShareTarget(Finite(d)) != 0
  {
    if Scaled(d) >= 18446744073709551616.0 {
      QuotientPositive(D1, Floor(d));
    } else if Scaled(d) >= 1.0 {
      QuotientPositive(D1 * SCALE, Floor(Scaled(d)));
    }
  }

  lemma DivAntitone(n: nat, d: nat, e: nat)
    requires 0 < d <= e
    ensures n / e <= n / d
  {
    DivGalois(n, e, n / e);
    MulMono(d, e, n / e);
    DivGalois(n, d, n / e);
  }

  lemma FloorMono(x: real, y: real)
    requires 0.0 <= x <= y
    ensures Floor(x) <= Floor(y)
  {
  }

  /** A harder share has a smaller target, across all three branches. */
  lemma TargetAntitone(d: real, e: real)
    requires 0.0 < d <= e < 18446744073709551616.0
    ensures ShareTarget(Finite(e)) <= ShareTarget(Finite(d))
  {
    DifficultyOneValue();
    ShareTargetBound(Finite(e));
    if Scaled(d) >= 1.0 {
      if Scaled(e) < 18446744073709551616.0 {
        FloorMono(Scaled(d), Scaled(e));
        DivAntitone(D1 * SCALE, Floor(Scaled(d)), Floor(Scaled(e)));
      } else if Scaled(d) >= 18446744073709551616.0 {
        FloorMono(d, e);
        DivAntitone(D1, Floor(d), Floor(e));
      } else {
        ScaleDivMod(D1, Floor(e), SCALE);
        assert Floor(Scaled(d)) <= SCALE * SCALE <= Floor(e) * SCALE;
        DivAntitone(D1 * SCALE, Floor(Scaled(d)), Floor(e) * SCALE);
      }
    }
  }

  lemma ShareTargetBound(d: Double)
    requires d.Finite? ==> d.value < 18446744073709551616.0
    ensures ShareTarget(d) < W4
  {
  }
}
