/** Greatest common divisors, and the largest gap between a number's remainders by two divisors. */
module Divisors {
  /** Euclid's algorithm by subtraction. */
  function Gcd(a: nat, b: nat): (g: nat)
    requires a > 0 && b > 0
    ensures 0 < g <= a && g <= b
    decreases a + b
  {
    if a == b then a else if a < b then Gcd(a, b - a) else Gcd(a - b, b)
  }

  // ----- Products -----

  lemma Distribute(k: int, x: int, y: int)
    ensures k * (x + y) == k * x + k * y
  {
  }

  lemma DistributeMinus(k: int, x: int, y: int)
    ensures k * (x - y) == k * x - k * y
  {
  }

  lemma Regroup(x: int, y: int, z: int)
    ensures (x * y) * z == x * (y * z) == (x * z) * y
  {
  }

  lemma MulLe(k: int, x: int, y: int)
    requires k >= 0 && x <= y
    ensures k * x <= k * y
  {
  }

  lemma SmallMultiple(k: int, d: nat)
    requires 0 - d < k * d < d
    ensures k == 0
  {
    if k >= 1 {
      MulLe(d, 1, k);
    }
    if k <= -1 {
      MulLe(d, k, -1);
    }
  }

  lemma MultipleBelow(g: nat, k: int, x: int)
    requires g * k < g * x
    ensures g * k <= g * x - g
  {
    if k >= x {
      MulLe(g, x, k);
    } else {
      MulLe(g, k, x - 1);
      DistributeMinus(g, x, 1);
    }
  }

  lemma DivMod(n: nat, d: nat, q: nat, r: nat)
    requires n == d * q + r && r < d
    ensures n % d == r
  {
    var p := n / d;
    assert n == d * p + n % d;
    DistributeMinus(d, p, q);
    SmallMultiple(p - q, d);
  }

  // ----- Divisors -----

  lemma {:induction false} GcdDivides(a: nat, b: nat) returns (x: nat, y: nat)
    requires a > 0 && b > 0
    ensures a == Gcd(a, b) * x && b == Gcd(a, b) * y
    decreases a + b
  {
    if a == b {
      x, y := 1, 1;
    } else if a < b {
      x, y := GcdDivides(a, b - a);
      Distribute(Gcd(a, b), x, y);
      y := x + y;
    } else {
      x, y := GcdDivides(a - b, b);
      Distribute(Gcd(a, b), x, y);
      x := x + y;
    }
  }

  /** Some multiple of `a` is `Gcd(a, b)` above a multiple of `b`, with small factors. */
  lemma {:induction false} Bezout(a: nat, b: nat) returns (m: nat, q: nat)
    requires a > 0 && b > 0
    ensures a * m == b * q + Gcd(a, b)
    ensures m > 0 && Gcd(a, b) * m <= b && Gcd(a, b) * (q + 1) <= a
    decreases a + b
  {
    if a == b {
      m, q := 1, 0;
    } else if a < b {
      m, q := Bezout(a, b - a);
      BezoutLeft(a, b, Gcd(a, b), m, q);
      m := m + q;
    } else {
      m, q := Bezout(a - b, b);
      BezoutRight(a, b, Gcd(a, b), m, q);
      q := q + m;
    }
  }

  lemma BezoutLeft(a: nat, b: nat, g: nat, m: nat, q: nat)
    requires a * m == (b - a) * q + g && g * m <= b - a && g * (q + 1) <= a
    ensures a * (m + q) == b * q + g && g * (m + q) <= b
  {
    Distribute(a, m, q);
    DistributeMinus(q, b, a);
    Distribute(g, m, q);
    Distribute(g, q, 1);
  }

  lemma BezoutRight(a: nat, b: nat, g: nat, m: nat, q: nat)
    requires (a - b) * m == b * q + g && g * m <= b && g * (q + 1) <= a - b
    ensures a * m == b * (q + m) + g && g * (q + m + 1) <= a
  {
    DistributeMinus(m, a, b);
    Distribute(b, q, m);
    Distribute(g, q + 1, m);
  }

  /** Two remainders differ by a multiple of the divisor, so by at most `a - Gcd(a, b)`. */
  lemma RemainderGap(h: nat, a: nat, b: nat)
    requires a > 0 && b > 0
    ensures h % a - h % b <= a - Gcd(a, b)
  {
    var g := Gcd(a, b);
    var x, y := GcdDivides(a, b);
    hide Gcd;
    DivisionSteps(h, a);
    DivisionSteps(h, b);
    GapOfMultiples(Gcd(a, b), x, h / a, h % a, y, h / b, h % b);
  }

  lemma DivisionSteps(n: nat, d: nat)
    requires d > 0
    ensures n == d * (n / d) + n % d && 0 <= n % d < d
  {
  }

  lemma GapOfMultiples(g: nat, x: int, p: int, r: nat, y: int, q: int, s: nat)
    requires (g * x) * p + r == (g * y) * q + s && r < g * x
    ensures r - s <= g * x - g
  {
    Regroup(g, x, p);
    Regroup(g, y, q);
    DistributeMinus(g, y * q, x * p);
    MultipleBelow(g, y * q - x * p, x);
  }

  /** The bound is reached, below the least common multiple. */
  lemma WidestGap(a: nat, b: nat) returns (h: nat)
    requires a > 0 && b > 0
    ensures h % a - h % b == a - Gcd(a, b)
    ensures Gcd(a, b) * (h + 1) <= a * b
  {
    var g := Gcd(a, b);
    var m, q := Bezout(a, b);
    hide Gcd;
    MulLe(a, 1, m);
    DistributeMinus(a, m, 1);
    h := a * m - 1;
    DivMod(h, a, m - 1, a - 1);
    DivMod(h, b, q, g - 1);
    Regroup(g, a, m);
    MulLe(a, g * m, b);
  }
}
