/** What FIPS 180-4 says of the constants and the bitwise functions of SHA-256, checked against Sha256Spec. */
module Sha256Constants {
  import opened Arith
  import opened Sha256Spec
  import opened GenesisRounds

  // ---- The first 64 primes -----------------------------------------------

  ghost predicate IsPrime(n: nat) {
    n >= 2 && forall d :: 2 <= d < n ==> n % d != 0
  }

  const PRIMES: seq<nat> :=
    [2, 3, 5, 7, 11, 13, 17, 19]
    + [23, 29, 31, 37, 41, 43, 47, 53]
    + [59, 61, 67, 71, 73, 79, 83, 89]
    + [97, 101, 103, 107, 109, 113, 127, 131]
    + [137, 139, 149, 151, 157, 163, 167, 173]
    + [179, 181, 191, 193, 197, 199, 211, 223]
    + [227, 229, 233, 239, 241, 251, 257, 263]
    + [269, 271, 277, 281, 283, 293, 307, 311]

  /** No divisor but itself among the primes below 19. */
  predicate Sieved(n: nat) {
    && n >= 2
    && (n % 2 != 0 || n == 2) && (n % 3 != 0 || n == 3) && (n % 5 != 0 || n == 5) && (n % 7 != 0 || n == 7)
    && (n % 11 != 0 || n == 11) && (n % 13 != 0 || n == 13) && (n % 17 != 0 || n == 17)
  }

  /** Below 19 * 19 that is what it takes to be prime. */
  lemma SievedIsPrime(n: nat)
    requires n < 361
    ensures Sieved(n) <==> IsPrime(n)
  {
    hide Sieved;
    if IsPrime(n) {
      PrimeIsSieved(n);
    } else if n >= 2 {
      var d :| 2 <= d < n && n % d == 0;
      Quotient(n, d);
      var e := n / d;
      LargeFactors(d, e);
      if d < 19 { SmallFactor(n, d, e); } else { SmallFactor(n, e, d); }
    } else {
      NotSieved(n);
    }
  }

  lemma PrimeIsSieved(n: nat)
    requires IsPrime(n)
    ensures Sieved(n)
  {
  }

  lemma NotSieved(n: nat)
    requires n < 2
    ensures !Sieved(n)
  {
  }

  lemma Quotient(n: nat, d: nat)
    requires 2 <= d < n && n % d == 0
    ensures n == d * (n / d) && n / d >= 2
  {
    var e := n / d;
    assert n == d * e;
    if e <= 1 { MulMono(e, 1, d); }
  }

  lemma LargeFactors(d: nat, e: nat)
    requires d * e < 361
    ensures d < 19 || e < 19
  {
    if d >= 19 && e >= 19 {
      MulMono(19, d, 19);
      MulMono(19, e, d);
    }
  }

  /** A proper factor below 19 has a prime factor below 19. */
  lemma SmallFactor(n: nat, d: nat, e: nat)
    requires n == d * e && 2 <= d < 19 && e >= 2
    ensures !Sieved(n)
  {
    hide Sieved;
    if d % 2 == 0 {
      Multiple(2, d / 2, e);
    } else if d % 3 == 0 {
      Multiple(3, d / 3, e);
    } else {
      Multiple(d, 1, e);
    }
    Caught(n);
  }

  lemma Multiple(q: nat, r: nat, e: nat)
    requires q >= 2 && r >= 1 && e >= 2
    ensures q * r * e % q == 0 && q * r * e > q
  {
    MulAssoc(q, r, e);
    MulMono(1, r, e);
    assert q * (r * e) == r * e * q;
    MulMono(2, r * e, q);
    DivModUnique(q * (r * e), q, r * e, 0);
  }

  lemma Caught(n: nat)
    ensures n % 2 == 0 && n > 2 ==> !Sieved(n)
    ensures n % 3 == 0 && n > 3 ==> !Sieved(n)
    ensures n % 5 == 0 && n > 5 ==> !Sieved(n)
    ensures n % 7 == 0 && n > 7 ==> !Sieved(n)
    ensures n % 11 == 0 && n > 11 ==> !Sieved(n)
    ensures n % 13 == 0 && n > 13 ==> !Sieved(n)
    ensures n % 17 == 0 && n > 17 ==> !Sieved(n)
  {
  }

  lemma Primes1()
    ensures forall n :: 2 <= n < 20 ==>
      (Sieved(n) <==> n == 2 || n == 3 || n == 5 || n == 7 || n == 11 || n == 13 || n == 17 || n == 19)
  {
  }

  lemma Primes2()
    ensures forall n :: 20 <= n < 54 ==>
      (Sieved(n) <==> n == 23 || n == 29 || n == 31 || n == 37 || n == 41 || n == 43 || n == 47 || n == 53)
  {
  }

  lemma Primes3()
    ensures forall n :: 54 <= n < 90 ==>
      (Sieved(n) <==> n == 59 || n == 61 || n == 67 || n == 71 || n == 73 || n == 79 || n == 83 || n == 89)
  {
  }

  lemma Primes4()
    ensures forall n :: 90 <= n < 108 ==> (Sieved(n) <==> n == 97 || n == 101 || n == 103 || n == 107)
  {
  }

  lemma Primes5()
    ensures forall n :: 108 <= n < 132 ==> (Sieved(n) <==> n == 109 || n == 113 || n == 127 || n == 131)
  {
  }

  lemma Primes6()
    ensures forall n :: 132 <= n < 152 ==> (Sieved(n) <==> n == 137 || n == 139 || n == 149 || n == 151)
  {
  }

  lemma Primes7()
    ensures forall n :: 152 <= n < 174 ==> (Sieved(n) <==> n == 157 || n == 163 || n == 167 || n == 173)
  {
  }

  lemma Primes8()
    ensures forall n :: 174 <= n < 194 ==> (Sieved(n) <==> n == 179 || n == 181 || n == 191 || n == 193)
  {
  }

  lemma Primes9()
    ensures forall n :: 194 <= n < 224 ==> (Sieved(n) <==> n == 197 || n == 199 || n == 211 || n == 223)
  {
  }

  lemma Primes10()
    ensures forall n :: 224 <= n < 240 ==> (Sieved(n) <==> n == 227 || n == 229 || n == 233 || n == 239)
  {
  }

  lemma Primes11()
    ensures forall n :: 240 <= n < 264 ==> (Sieved(n) <==> n == 241 || n == 251 || n == 257 || n == 263)
  {
  }

  lemma Primes12()
    ensures forall n :: 264 <= n < 282 ==> (Sieved(n) <==> n == 269 || n == 271 || n == 277 || n == 281)
  {
  }

  lemma Primes13()
    ensures forall n :: 282 <= n < 298 ==> (Sieved(n) <==> n == 283 || n == 293)
  {
  }

  lemma Primes14()
    ensures forall n :: 298 <= n < 312 ==> (Sieved(n) <==> n == 307 || n == 311)
  {
  }

  lemma InPrimes(n: nat)
    ensures n in PRIMES <==>
      || n == 2 || n == 3 || n == 5 || n == 7 || n == 11 || n == 13 || n == 17 || n == 19
      || n == 23 || n == 29 || n == 31 || n == 37 || n == 41 || n == 43 || n == 47 || n == 53
      || n == 59 || n == 61 || n == 67 || n == 71 || n == 73 || n == 79 || n == 83 || n == 89
      || n == 97 || n == 101 || n == 103 || n == 107 || n == 109 || n == 113 || n == 127 || n == 131
      || n == 137 || n == 139 || n == 149 || n == 151 || n == 157 || n == 163 || n == 167 || n == 173
      || n == 179 || n == 181 || n == 191 || n == 193 || n == 197 || n == 199 || n == 211 || n == 223
      || n == 227 || n == 229 || n == 233 || n == 239 || n == 241 || n == 251 || n == 257 || n == 263
      || n == 269 || n == 271 || n == 277 || n == 281 || n == 283 || n == 293 || n == 307 || n == 311
  {
  }

  lemma Increase1()
    ensures forall i :: 0 <= i < 16 ==> PRIMES[i] < PRIMES[i + 1]
  {
  }

  lemma Increase2()
    ensures forall i :: 16 <= i < 32 ==> PRIMES[i] < PRIMES[i + 1]
  {
  }

  lemma Increase3()
    ensures forall i :: 32 <= i < 48 ==> PRIMES[i] < PRIMES[i + 1]
  {
  }

  lemma Increase4()
    ensures forall i :: 48 <= i < 63 ==> PRIMES[i] < PRIMES[i + 1]
  {
  }

  lemma PrimesIncrease()
    ensures |PRIMES| == 64 && forall i, j :: 0 <= i < j < 64 ==> PRIMES[i] < PRIMES[j]
  {
    Increase1();
    Increase2();
    Increase3();
    Increase4();
    assert |PRIMES| == 64;
    hide PRIMES;
    forall i, j | 0 <= i < j < 64 ensures PRIMES[i] < PRIMES[j] {
      Sorted(PRIMES, i, j);
    }
  }

  lemma {:induction false} Sorted(s: seq<nat>, i: nat, j: nat)
    requires i < j < |s| && forall k :: 0 <= k < |s| - 1 ==> s[k] < s[k + 1]
    ensures s[i] < s[j]
    decreases j
  {
    if i < j - 1 { Sorted(s, i, j - 1); }
  }

  /** PRIMES lists the first 64 primes in order. */
  lemma FirstPrimes()
    ensures |PRIMES| == 64 && forall i, j :: 0 <= i < j < 64 ==> PRIMES[i] < PRIMES[j]
    ensures forall n :: 0 <= n <= 311 ==> (IsPrime(n) <==> n in PRIMES)
  {
    hide Sieved, IsPrime, PRIMES;
    PrimesIncrease();
    Primes1();
    Primes2();
    Primes3();
    Primes4();
    Primes5();
    Primes6();
    Primes7();
    Primes8();
    Primes9();
    Primes10();
    Primes11();
    Primes12();
    Primes13();
    Primes14();
    forall n: nat | n <= 311 ensures IsPrime(n) <==> n in PRIMES {
      SievedIsPrime(n);
      InPrimes(n);
      if n < 2 { NotSieved(n); }
    }
  }

  // ---- Roots -------------------------------------------------------------

  /** A number with integer part q and the 32 bits k behind the point, in units of 2^-32. */
  function Fixed(q: nat, k: nat): nat { q * 0x1_0000_0000 + k }

  /** k is the first 32 bits of the fraction of the cube root of p: r is that root in units of 2^-32. */
  ghost predicate CubeRootBits(p: nat, k: bv32) {
    exists r: nat :: IsCubeRoot(r, p) && r % 0x1_0000_0000 == k as nat
  }

  ghost predicate IsCubeRoot(r: nat, p: nat) {
    r * r * r <= p * 0x1_0000_0000_0000_0000_0000_0000 < (r + 1) * (r + 1) * (r + 1)
  }

  /** The same for the square root. */
  ghost predicate SquareRootBits(p: nat, k: bv32) {
    exists r: nat :: IsSquareRoot(r, p) && r % 0x1_0000_0000 == k as nat
  }

  ghost predicate IsSquareRoot(r: nat, p: nat) {
    r * r <= p * 0x1_0000_0000_0000_0000 < (r + 1) * (r + 1)
  }

  lemma LowBits(q: nat, k: nat)
    requires k < 0x1_0000_0000
    ensures Fixed(q, k) % 0x1_0000_0000 == k
  {
  }

  lemma CubeRoot(t: nat, q: nat, k: bv32, p: nat)
    requires t < 64 && ROUND_CONSTANTS[t] == k && PRIMES[t] == p
    requires IsCubeRoot(Fixed(q, k as nat), p)
    ensures CubeRootBits(PRIMES[t], ROUND_CONSTANTS[t])
  {
    hide ROUND_CONSTANTS, PRIMES, IsCubeRoot, Fixed;
    LowBits(q, k as nat);
  }

  lemma CubeRoots1()
    ensures forall t :: 0 <= t < 8 ==> CubeRootBits(PRIMES[t], ROUND_CONSTANTS[t])
  {
    hide ROUND_CONSTANTS, CubeRootBits;
    Constants1();
    CubeRoot(0, 1, 0x428a2f98, 2);
    CubeRoot(1, 1, 0x71374491, 3);
    CubeRoot(2, 1, 0xb5c0fbcf, 5);
    CubeRoot(3, 1, 0xe9b5dba5, 7);
    CubeRoot(4, 2, 0x3956c25b, 11);
    CubeRoot(5, 2, 0x59f111f1, 13);
    CubeRoot(6, 2, 0x923f82a4, 17);
    CubeRoot(7, 2, 0xab1c5ed5, 19);
  }

  lemma CubeRoots2()
    ensures forall t :: 8 <= t < 16 ==> CubeRootBits(PRIMES[t], ROUND_CONSTANTS[t])
  {
    hide ROUND_CONSTANTS, CubeRootBits;
    Constants1();
    CubeRoot(8, 2, 0xd807aa98, 23);
    CubeRoot(9, 3, 0x12835b01, 29);
    CubeRoot(10, 3, 0x243185be, 31);
    CubeRoot(11, 3, 0x550c7dc3, 37);
    CubeRoot(12, 3, 0x72be5d74, 41);
    CubeRoot(13, 3, 0x80deb1fe, 43);
    CubeRoot(14, 3, 0x9bdc06a7, 47);
    CubeRoot(15, 3, 0xc19bf174, 53);
  }

  lemma CubeRoots3()
    ensures forall t :: 16 <= t < 24 ==> CubeRootBits(PRIMES[t], ROUND_CONSTANTS[t])
  {
    hide ROUND_CONSTANTS, CubeRootBits;
    Constants2();
    CubeRoot(16, 3, 0xe49b69c1, 59);
    CubeRoot(17, 3, 0xefbe4786, 61);
    CubeRoot(18, 4, 0x0fc19dc6, 67);
    CubeRoot(19, 4, 0x240ca1cc, 71);
    CubeRoot(20, 4, 0x2de92c6f, 73);
    CubeRoot(21, 4, 0x4a7484aa, 79);
    CubeRoot(22, 4, 0x5cb0a9dc, 83);
    CubeRoot(23, 4, 0x76f988da, 89);
  }

  lemma CubeRoots4()
    ensures forall t :: 24 <= t < 32 ==> CubeRootBits(PRIMES[t], ROUND_CONSTANTS[t])
  {
    hide ROUND_CONSTANTS, CubeRootBits;
    Constants2();
    CubeRoot(24, 4, 0x983e5152, 97);
    CubeRoot(25, 4, 0xa831c66d, 101);
    CubeRoot(26, 4, 0xb00327c8, 103);
    CubeRoot(27, 4, 0xbf597fc7, 107);
    CubeRoot(28, 4, 0xc6e00bf3, 109);
    CubeRoot(29, 4, 0xd5a79147, 113);
    CubeRoot(30, 5, 0x06ca6351, 127);
    CubeRoot(31, 5, 0x14292967, 131);
  }

  lemma CubeRoots5()
    ensures forall t :: 32 <= t < 40 ==> CubeRootBits(PRIMES[t], ROUND_CONSTANTS[t])
  {
    hide ROUND_CONSTANTS, CubeRootBits;
    Constants3();
    CubeRoot(32, 5, 0x27b70a85, 137);
    CubeRoot(33, 5, 0x2e1b2138, 139);
    CubeRoot(34, 5, 0x4d2c6dfc, 149);
    CubeRoot(35, 5, 0x53380d13, 151);
    CubeRoot(36, 5, 0x650a7354, 157);
    CubeRoot(37, 5, 0x766a0abb, 163);
    CubeRoot(38, 5, 0x81c2c92e, 167);
    CubeRoot(39, 5, 0x92722c85, 173);
  }

  lemma CubeRoots6()
    ensures forall t :: 40 <= t < 48 ==> CubeRootBits(PRIMES[t], ROUND_CONSTANTS[t])
  {
    hide ROUND_CONSTANTS, CubeRootBits;
    Constants3();
    CubeRoot(40, 5, 0xa2bfe8a1, 179);
    CubeRoot(41, 5, 0xa81a664b, 181);
    CubeRoot(42, 5, 0xc24b8b70, 191);
    CubeRoot(43, 5, 0xc76c51a3, 193);
    CubeRoot(44, 5, 0xd192e819, 197);
    CubeRoot(45, 5, 0xd6990624, 199);
    CubeRoot(46, 5, 0xf40e3585, 211);
    CubeRoot(47, 6, 0x106aa070, 223);
  }

  lemma CubeRoots7()
    ensures forall t :: 48 <= t < 56 ==> CubeRootBits(PRIMES[t], ROUND_CONSTANTS[t])
  {
    hide ROUND_CONSTANTS, CubeRootBits;
    Constants4();
    CubeRoot(48, 6, 0x19a4c116, 227);
    CubeRoot(49, 6, 0x1e376c08, 229);
    CubeRoot(50, 6, 0x2748774c, 233);
    CubeRoot(51, 6, 0x34b0bcb5, 239);
    CubeRoot(52, 6, 0x391c0cb3, 241);
    CubeRoot(53, 6, 0x4ed8aa4a, 251);
    CubeRoot(54, 6, 0x5b9cca4f, 257);
    CubeRoot(55, 6, 0x682e6ff3, 263);
  }

  lemma CubeRoots8()
    ensures forall t :: 56 <= t < 64 ==> CubeRootBits(PRIMES[t], ROUND_CONSTANTS[t])
  {
    hide ROUND_CONSTANTS, CubeRootBits;
    Constants4();
    CubeRoot(56, 6, 0x748f82ee, 269);
    CubeRoot(57, 6, 0x78a5636f, 271);
    CubeRoot(58, 6, 0x84c87814, 277);
    CubeRoot(59, 6, 0x8cc70208, 281);
    CubeRoot(60, 6, 0x90befffa, 283);
    CubeRoot(61, 6, 0xa4506ceb, 293);
    CubeRoot(62, 6, 0xbef9a3f7, 307);
    CubeRoot(63, 6, 0xc67178f2, 311);
  }

  /** Section 4.2.2: the round constants are the first 32 bits of the fractions of the cube roots of the first 64 primes. */
  lemma RoundConstants()
    ensures |ROUND_CONSTANTS| == 64
    ensures forall t :: 0 <= t < 64 ==> CubeRootBits(PRIMES[t], ROUND_CONSTANTS[t])
  {
    hide CubeRootBits;
    CubeRoots1();
    CubeRoots2();
    CubeRoots3();
    CubeRoots4();
    CubeRoots5();
    CubeRoots6();
    CubeRoots7();
    CubeRoots8();
  }

  /** Section 5.3.3: the initial hash value holds those of the square roots of the first eight primes. */
  lemma InitialHash()
    ensures forall i :: 0 <= i < 8 ==> SquareRootBits(PRIMES[i], INITIAL[i])
  {
    hide SquareRootBits;
    SquareRoot(1, 0x6a09e667, 2);
    SquareRoot(1, 0xbb67ae85, 3);
    SquareRoot(2, 0x3c6ef372, 5);
    SquareRoot(2, 0xa54ff53a, 7);
    SquareRoot(3, 0x510e527f, 11);
    SquareRoot(3, 0x9b05688c, 13);
    SquareRoot(4, 0x1f83d9ab, 17);
    SquareRoot(4, 0x5be0cd19, 19);
  }

  lemma SquareRoot(q: nat, k: bv32, p: nat)
    requires IsSquareRoot(Fixed(q, k as nat), p)
    ensures SquareRootBits(p, k)
  {
    hide IsSquareRoot, Fixed;
    LowBits(q, k as nat);
  }

  // ---- Bits --------------------------------------------------------------

  /** Ch takes the bits of y where x has ones, and those of z where it has zeros; m is any selection of bits. */
  lemma ChBits(x: bv32, y: bv32, z: bv32, m: bv32)
    ensures x & m == m ==> Ch(x, y, z) & m == y & m
    ensures x & m == 0 ==> Ch(x, y, z) & m == z & m
  {
  }

  /** Maj has the bits that two of the three agree on, whichever two. */
  lemma MajBits(x: bv32, y: bv32, z: bv32, m: bv32)
    ensures x & m == y & m ==> Maj(x, y, z) & m == x & m
    ensures Maj(x, y, z) == Maj(y, z, x) == Maj(x, z, y)
  {
    assert Maj(x, y, z) & m == (x & m & (y & m)) ^ (x & m & (z & m)) ^ (y & m & (z & m));
  }
}
