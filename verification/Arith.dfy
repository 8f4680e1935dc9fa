/** Powers of two, division and the bitwise "or" that the fixed-width code relies on. */
module Arith {

  function Pow2(n: nat): (p: nat)
    ensures p > 0
  {
    if n == 0 then 1 else 2 * Pow2(n - 1)
  }

  lemma {:induction false} Pow2Add(a: nat, b: nat)
    ensures Pow2(a + b) == Pow2(a) * Pow2(b)
  {
    if a == 0 {
    } else {
      Pow2Add(a - 1, b);
      assert Pow2(a + b) == 2 * Pow2(a - 1 + b);
      MulAssoc(2, Pow2(a - 1), Pow2(b));
    }
  }

  lemma {:induction false} Pow2Mono(a: nat, b: nat)
    requires a <= b
    ensures Pow2(a) <= Pow2(b)
    ensures a < b ==> 2 * Pow2(a) <= Pow2(b)
    decreases b - a
  {
    if a < b {
      Pow2Mono(a + 1, b);
    }
  }

  lemma MulAssoc(a: int, b: int, c: int)
    ensures a * b * c == a * (b * c)
  {
  }

  lemma MulMono(a: int, b: int, c: int)
    requires a <= b && 0 <= c
    ensures a * c <= b * c
  {
  }

  lemma DivModUnique(n: int, d: int, q: int, r: int)
    requires 0 <= r < d
    requires n == q * d + r
    ensures n / d == q && n % d == r
  {
    var q', r' := n / d, n % d;
    assert n == q' * d + r';
    assert (q + 1) * d == q * d + d;
    assert (q' + 1) * d == q' * d + d;
    if q < q' {
      MulMono(q + 1, q', d);
    } else if q' < q {
      MulMono(q' + 1, q, d);
    }
  }

  lemma DivDiv(n: nat, a: nat, b: nat)
    requires a > 0 && b > 0
    ensures a * b > 0 && n / a / b == n / (a * b)
  {
    var q, r := n / a, n % a;
    var q', r' := q / b, q % b;
    assert n == (q' * b + r') * a + r;
    assert (q' * b + r') * a == q' * (a * b) + r' * a;
    MulMono(r' + 1, b, a);
    assert (r' + 1) * a == r' * a + a;
    MulMono(0, r', a);
    assert a * b == b * a;
    DivModUnique(n, a * b, q', r' * a + r);
  }

  /** k * d <= n exactly when k is at most the quotient. */
  lemma DivGalois(n: nat, d: nat, k: nat)
    requires d > 0
    ensures k * d <= n <==> k <= n / d
  {
    var q, r := n / d, n % d;
    assert n == q * d + r;
    if k <= q {
      MulMono(k, q, d);
    } else {
      MulMono(q + 1, k, d);
      assert (q + 1) * d == q * d + d;
    }
  }

  lemma DivMono(a: nat, b: nat, d: nat)
    requires d > 0 && a <= b
    ensures a / d <= b / d
  {
    DivGalois(a, d, a / d);
    DivGalois(b, d, a / d);
  }

  /** Bitwise "or" of two natural numbers. */
  function BitOr(x: nat, y: nat): (r: nat)
    ensures x <= r && y <= r
  {
    if x == 0 then y
    else if y == 0 then x
    else 2 * BitOr(x / 2, y / 2) + (if x % 2 == 1 || y % 2 == 1 then 1 else 0)
  }

  /** Bit k of a number. */
  predicate Bit(x: nat, k: nat) {
    x / Pow2(k) % 2 == 1
  }

  /** Each bit of the "or" is set exactly when it is set in one of the two. */
  lemma {:induction false} BitsOfOr(x: nat, y: nat, k: nat)
    ensures Bit(BitOr(x, y), k) <==> Bit(x, k) || Bit(y, k)
    decreases k
  {
    if k > 0 {
      BitsOfOr(x / 2, y / 2, k - 1);
      DivDiv(x, 2, Pow2(k - 1));
      DivDiv(y, 2, Pow2(k - 1));
      DivDiv(BitOr(x, y), 2, Pow2(k - 1));
    }
  }

  /** On disjoint bit ranges "or" is addition. */
  lemma {:induction false} BitOrDisjoint(hi: nat, lo: nat, k: nat)
    requires lo < Pow2(k)
    ensures BitOr(hi * Pow2(k), lo) == hi * Pow2(k) + lo
    decreases k
  {
    var x := hi * Pow2(k);
    if k > 0 && x != 0 && lo != 0 {
      assert x == 2 * (hi * Pow2(k - 1)) by {
        assert Pow2(k) == 2 * Pow2(k - 1);
        MulAssoc(hi, 2, Pow2(k - 1));
      }
      assert lo / 2 < Pow2(k - 1);
      BitOrDisjoint(hi, lo / 2, k - 1);
    } else if k == 0 {
      assert lo == 0;
    }
  }

  lemma {:induction false} BitOrBound(x: nat, y: nat, k: nat)
    requires x < Pow2(k) && y < Pow2(k)
    ensures BitOr(x, y) < Pow2(k)
    decreases k
  {
    if k > 0 && x != 0 && y != 0 {
      BitOrBound(x / 2, y / 2, k - 1);
    }
  }

  lemma {:induction false} BitOrComm(x: nat, y: nat)
    ensures BitOr(x, y) == BitOr(y, x)
    decreases x
  {
    if x != 0 && y != 0 {
      BitOrComm(x / 2, y / 2);
    }
  }

  /** Scaling dividend and divisor scales the remainder and keeps the quotient. */
  lemma ScaleDivMod(a: nat, g: nat, m: nat)
    requires g > 0 && m > 0
    ensures g * m > 0 && a * m / (g * m) == a / g && a * m % (g * m) == a % g * m
  {
    var q, r := a / g, a % g;
    assert a == q * g + r;
    assert (q * g + r) * m == q * g * m + r * m;
    MulAssoc(q, g, m);
    MulMono(r + 1, g, m);
    assert (r + 1) * m == r * m + m;
    MulMono(0, r, m);
    DivModUnique(a * m, g * m, q, r * m);
  }

  lemma ModMulLeft(a: nat, b: nat, m: nat)
    requires m > 0
    ensures a % m * b % m == a * b % m
  {
    var q, r := a / m, a % m;
    assert a == q * m + r;
    assert (q * m + r) * b == q * b * m + r * b;
    var q', r' := r * b / m, r * b % m;
    assert r * b == q' * m + r';
    assert (q * b + q') * m == q * b * m + q' * m;
    DivModUnique(a * b, m, q * b + q', r');
  }

  /** 256^k */
  function Pow256(k: nat): (p: nat)
    ensures p > 0
  {
    if k == 0 then 1 else 256 * Pow256(k - 1)
  }

  lemma {:induction false} Pow256Is(k: nat)
    ensures Pow256(k) == Pow2(8 * k)
  {
    if k > 0 {
      Pow256Is(k - 1);
      Pow2Add(8, 8 * (k - 1));
      assert Pow2(8) == 256;
    }
  }

  lemma {:induction false} Pow256Add(a: nat, b: nat)
    ensures Pow256(a + b) == Pow256(a) * Pow256(b)
  {
    if a > 0 {
      Pow256Add(a - 1, b);
      MulAssoc(256, Pow256(a - 1), Pow256(b));
    }
  }

  lemma {:induction false} Pow256Less(a: nat, b: nat)
    requires Pow256(a) < Pow256(b)
    ensures a < b
    decreases a + b
  {
    if a > 0 && b > 0 {
      Pow256Less(a - 1, b - 1);
    }
  }

  /** A 32-bit number from its four base-256 digits, and back. */
  lemma FourDigits(w: nat)
    ensures w == w / 0x100_0000 * 0x100_0000 + w / 0x1_0000 % 0x100 * 0x1_0000 + w / 0x100 % 0x100 * 0x100 + w % 0x100
  {
    var a := w / 0x100;
    var b := a / 0x100;
    assert b == w / 0x1_0000 && b / 0x100 == w / 0x100_0000;
    assert w == a * 0x100 + w % 0x100 && a == b * 0x100 + a % 0x100 && b == b / 0x100 * 0x100 + b % 0x100;
  }

  lemma DigitsOf(b3: nat, b2: nat, b1: nat, b0: nat)
    requires b3 < 0x100 && b2 < 0x100 && b1 < 0x100 && b0 < 0x100
    ensures var w := b3 * 0x100_0000 + b2 * 0x1_0000 + b1 * 0x100 + b0;
      w / 0x100_0000 == b3 && w / 0x1_0000 % 0x100 == b2 && w / 0x100 % 0x100 == b1 && w % 0x100 == b0
  {
    var w := b3 * 0x100_0000 + b2 * 0x1_0000 + b1 * 0x100 + b0;
    var a := b3 * 0x1_0000 + b2 * 0x100 + b1;
    var b := b3 * 0x100 + b2;
    assert w == a * 0x100 + b0 && a == b * 0x100 + b1;
    assert w / 0x100 == a && w / 0x1_0000 == b && w / 0x100_0000 == b3;
  }
}
