/** The pool's own test of a share against the miner's: target_for_difficulty and handle_submit of scripts/mock_pool.py. */
module PoolVerdict {
  import opened Arith
  import opened ShareDifficulty
  import opened Uint256

  const DIFF1_TARGET: nat := 0xFFFF0000_00000000_00000000_00000000_00000000_00000000_00000000

  /** int(DIFF1_TARGET / difficulty), with the quotient taken exactly rather than in floating point. */
  function TargetForDifficulty(difficulty: real): nat
    requires difficulty > 0.0
  {
    Floor(DIFF1_TARGET as real / difficulty)
  }

  /** The pool accepts a share; anything else is a "Low difficulty share". */
  predicate Accepts(hash: nat, difficulty: real)
    requires difficulty > 0.0
  {
    hash <= TargetForDifficulty(difficulty)
  }

  /** The miner submits a share. */
  ghost predicate Submits(hash: nat, difficulty: real)
    requires 0.0 < difficulty < 18446744073709551616.0
  {
    Meets(hash, ShareTarget(Finite(difficulty)))
  }

  lemma AcceptsIffProduct(hash: nat, d: real)
    requires d > 0.0
    ensures Accepts(hash, d) <==> hash as real * d <= D1 as real
  {
    var q := DIFF1_TARGET as real / d;
    assert q * d == DIFF1_TARGET as real;
    RealMulMono(hash as real, q, d);
  }

  lemma RealMulMono(a: real, b: real, d: real)
    requires d > 0.0
    ensures a <= b <==> a * d <= b * d
  {
  }

  /** A difficulty in the units that the miner truncates it to: 2^-32 below 2^32, one from there on. */
  function Units(d: real): real { if d < 4294967296.0 then d * 4294967296.0 else d }

  /** The miner's target in those units: the unit target over the whole units. */
  function UnitTarget(d: real): nat { if d < 4294967296.0 then D1 * SCALE else D1 }

  lemma SubmitsIff(hash: nat, d: real)
    requires 0.0 < d < 18446744073709551616.0 && Units(d) >= 1.0 && hash < W4
    ensures Floor(Units(d)) > 0 && (Submits(hash, d) <==> hash * Floor(Units(d)) <= UnitTarget(d))
  {
    PositiveTarget(d);
    DivGalois(UnitTarget(d), Floor(Units(d)), hash);
  }

  lemma AcceptsIff(hash: nat, d: real)
    requires 0.0 < d < 18446744073709551616.0
    ensures Accepts(hash, d) <==> hash as real * Units(d) <= UnitTarget(d) as real
  {
    AcceptsIffProduct(hash, d);
    if d < 4294967296.0 {
      RealMulMono(hash as real * d, D1 as real, 4294967296.0);
    }
  }

  /** No share that the pool would accept is withheld. */
  lemma NoShareWithheld(hash: nat, d: real)
    requires 0.0 < d < 18446744073709551616.0 && hash < W4
    ensures Accepts(hash, d) ==> Submits(hash, d)
  {
    if Units(d) < 1.0 {
      MeetsClamped(hash, d);
    } else if Accepts(hash, d) {
      hide Floor, Accepts, Submits, Units, UnitTarget;
      AcceptsIff(hash, d);
      SubmitsIff(hash, d);
      RoundingHelps(hash, Floor(Units(d)), Units(d), UnitTarget(d));
    }
  }

  lemma RoundingHelps(hash: nat, f: nat, u: real, n: nat)
    requires f as real <= u && hash as real * u <= n as real
    ensures hash * f <= n
  {
    assert hash as real * f as real <= hash as real * u;
    assert (hash * f) as real == hash as real * f as real;
  }

  /** Every double from 1 on is a multiple of 2^-52, and so are the units of every difficulty that is one. */
  const FINE: nat := 0x10_0000_0000_0000

  ghost predicate Agree(d: real)
    requires 0.0 < d < 18446744073709551616.0
  {
    forall hash: nat :: hash < W4 ==> (Accepts(hash, d) <==> Submits(hash, d))
  }

  /**
   * The pool and the miner agree on every hash exactly when the units of the difficulty are whole, or, below 2^-32, when
   * the pool's target covers all hashes. In all other cases the miner submits shares that the pool refuses, as it rounds
   * the difficulty down. m stands for a difficulty that is a double.
   */
  lemma AgreeExactly(d: real, m: nat)
    requires 0.0 < d < 18446744073709551616.0 && (Units(d) >= 1.0 ==> Units(d) * FINE as real == m as real)
    ensures Agree(d) <==> if Units(d) < 1.0 then d * (W4 - 1) as real <= D1 as real else m % FINE == 0
  {
    hide Accepts, Submits;
    if Units(d) < 1.0 {
      ClampedAgree(d);
    } else {
      UnitsOfDouble(d, m);
      if m % FINE == 0 {
        forall hash: nat | hash < W4 ensures Accepts(hash, d) <==> Submits(hash, d) {
          WholeAgree(hash, d, m);
        }
      } else {
        EagerShare(d, m);
      }
    }
  }

  /** With the mock pool's default, the double nearest to 0.001, the two do not agree. */
  lemma DefaultDifficulty()
    ensures !Agree(1152921504606847.0 / 1152921504606846976.0)
  {
    AgreeExactly(1152921504606847.0 / 1152921504606846976.0, 1152921504606847 * 0x100_0000);
  }

  /** Whole units: any multiple of 2^-32, and from 2^32 on any whole number. */
  predicate Whole(d: real)
    requires d > 0.0
  {
    Units(d) == Floor(Units(d)) as real
  }

  /** With whole units the pool accepts exactly what the miner submits. */
  lemma WholeUnitsAgree(hash: nat, d: real)
    requires 0.0 < d < 18446744073709551616.0 && Whole(d) && hash < W4
    ensures Accepts(hash, d) <==> Submits(hash, d)
  {
    hide Agree, Accepts, Submits;
    WholeAgree(hash, d, Floor(Units(d)) * FINE);
  }

  lemma ClampedAgree(d: real)
    requires 0.0 < d && Units(d) < 1.0
    ensures Agree(d) <==> d * (W4 - 1) as real <= D1 as real
  {
    hide Accepts;
    AcceptsIffProduct(W4 - 1, d);
    forall hash: nat | hash < W4 ensures Submits(hash, d) && (Accepts(W4 - 1, d) ==> Accepts(hash, d)) {
      MeetsClamped(hash, d);
      AcceptsBelow(hash, W4 - 1, d);
    }
  }

  lemma AcceptsBelow(a: nat, b: nat, d: real)
    requires a <= b && d > 0.0
    ensures Accepts(b, d) ==> Accepts(a, d)
  {
  }

  lemma UnitsOfDouble(d: real, m: nat)
    requires 0.0 < d < 18446744073709551616.0 && Units(d) >= 1.0 && Units(d) * FINE as real == m as real
    ensures Floor(Units(d)) == m / FINE && FINE <= m < W1 * FINE
  {
    var u, q, r := Units(d), m / FINE, m % FINE;
    assert q as real * FINE as real <= u * FINE as real < (q + 1) as real * FINE as real;
    assert q as real <= u < (q + 1) as real;
  }

  /** The two tests as products of whole numbers. */
  lemma WholeTests(hash: nat, d: real, m: nat)
    requires 0.0 < d < 18446744073709551616.0 && Units(d) >= 1.0 && Units(d) * FINE as real == m as real && hash < W4
    ensures Accepts(hash, d) <==> hash * m <= UnitTarget(d) * FINE
    ensures m / FINE > 0 && (Submits(hash, d) <==> hash * (m / FINE) <= UnitTarget(d))
  {
    hide Accepts, Submits, Floor, UnitTarget, Units;
    UnitsOfDouble(d, m);
    SubmitsIff(hash, d);
    AcceptsIff(hash, d);
    var u, n := Units(d), UnitTarget(d);
    RealMulMono(hash as real * u, n as real, FINE as real);
    FineProducts(hash, u, m, n);
  }

  lemma FineProducts(hash: nat, u: real, m: nat, n: nat)
    requires u * FINE as real == m as real
    ensures hash as real * u * FINE as real <= n as real * FINE as real <==> hash * m <= n * FINE
  {
    assert hash as real * u * FINE as real == hash as real * m as real;
    assert (hash * m) as real == hash as real * m as real && (n * FINE) as real == n as real * FINE as real;
  }

  lemma WholeAgree(hash: nat, d: real, m: nat)
    requires 0.0 < d < 18446744073709551616.0 && Units(d) >= 1.0 && Units(d) * FINE as real == m as real && hash < W4
    requires m % FINE == 0
    ensures Accepts(hash, d) <==> Submits(hash, d)
  {
    hide Accepts, Submits, Units, UnitTarget;
    WholeTests(hash, d, m);
    assert hash * m == hash * (m / FINE) * FINE;
  }

  /** When the units are not whole, the highest hash that the miner submits is refused. */
  lemma EagerShare(d: real, m: nat)
    requires 0.0 < d < 18446744073709551616.0 && Units(d) >= 1.0 && Units(d) * FINE as real == m as real
    requires m % FINE != 0
    ensures ShareTarget(Finite(d)) < W4 && Submits(ShareTarget(Finite(d)), d) && !Accepts(ShareTarget(Finite(d)), d)
  {
    hide Accepts;
    UnitsOfDouble(d, m);
    var hash, n := ShareTarget(Finite(d)), UnitTarget(d);
    ShareTargetBound(Finite(d));
    PositiveTarget(d);
    WholeTests(hash, d, m);
    RoundedDown(n, m, FINE);
  }

  /** The quotient by the rounded divisor is too large for the divisor itself. */
  lemma RoundedDown(n: nat, m: nat, p: nat)
    requires 0 < p <= m && m % p != 0 && m / p * m <= n
    ensures m / p > 0 && n / (m / p) * m > n * p
  {
    var f, r := m / p, m % p;
    QuotientRemainder(m, p);
    DivGalois(n, f, m);
    DivGalois(n, f, n / f + 1);
    assert m * f == f * m;
    RoundedProduct(n, f, r, n / f, p);
  }

  lemma QuotientRemainder(m: nat, p: nat)
    requires 0 < p <= m
    ensures m / p > 0 && m == m / p * p + m % p
  {
  }

  lemma RoundedProduct(n: nat, f: nat, r: nat, h: nat, p: nat)
    requires r > 0 && p > 0 && n < (h + 1) * f && f * p + r <= h
    ensures n * p < h * (f * p + r)
  {
    MulMono(n + 1, (h + 1) * f, p);
    assert (n + 1) * p == n * p + p && (h + 1) * f * p == h * (f * p) + f * p;
    assert h * (f * p + r) == h * (f * p) + h * r;
    MulMono(1, r, h);
  }
}
