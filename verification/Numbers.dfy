/** Facts about products, quotients and powers that the other modules share. */
module Numbers {

  lemma Monotone(a: nat, b: nat, k: nat)
    requires a <= b
    ensures a * k <= b * k
  {
  }

  /** Different multiples are a whole `m` apart. */
  lemma Spaced(p: int, q: int, m: nat)
    requires p < q
    ensures p * m + m <= q * m
  {
    assert (q - p - 1) * m >= 0;
    assert (q - p - 1) * m == q * m - p * m - m;
  }

  lemma ModIs(n: int, m: nat, q: int, r: nat)
    requires n == q * m + r && r < m
    ensures n % m == r && n / m == q
  {
    var (p, s) := (n / m, n % m);
    assert n == p * m + s;
    if p > q {
      Spaced(q, p, m);
    } else if p < q {
      Spaced(p, q, m);
    }
  }

  lemma Multiple(n: nat, m: nat)
    requires m > 0 && n % m == 0
    ensures n == n / m * m
  {
  }

  lemma DivTwice(v: nat, a: nat, b: nat)
    requires a > 0 && b > 0
    ensures a * b > 0 && v / (a * b) == v / a / b
  {
    var (q, s, r) := (v / a / b, v / a % b, v % a);
    assert v / a == q * b + s;
    assert v == v / a * a + r;
    assert (q * b + s) * a == q * (a * b) + s * a;
    Monotone(s, b - 1, a);
    assert (b - 1) * a + a == a * b;
    ModIs(v, a * b, q, s * a + r);
  }

  function Power(b: nat, n: nat): (p: nat)
    ensures b > 0 ==> p > 0
  {
    if n == 0 then 1 else b * Power(b, n - 1)
  }

  // ---- Bits ----

  /** Bitwise and. */
  function And(a: nat, b: nat): nat {
    if a == 0 || b == 0 then 0 else 2 * And(a / 2, b / 2) + (a % 2) * (b % 2)
  }

  function Pow2(k: nat): (p: nat)
    ensures p > 0
  {
    if k == 0 then 1 else 2 * Pow2(k - 1)
  }

  lemma {:induction false} Pow2Monotone(j: nat, k: nat)
    requires j <= k
    ensures Pow2(j) <= Pow2(k)
  {
    if j < k {
      Pow2Monotone(j, k - 1);
    }
  }

  lemma {:induction false} Pow2Divides(j: nat, k: nat, n: nat)
    requires j <= k && n % Pow2(k) == 0
    ensures n % Pow2(j) == 0
  {
    if j < k {
      var p := Pow2(k - 1);
      var q := n / Pow2(k);
      assert n == q * (2 * p);
      ModIs(n, p, 2 * q, 0);
      Pow2Divides(j, k - 1, n);
    }
  }

  /** The low bits of a number are its last bit and those of its half. */
  lemma LowBits(v: nat, k: nat)
    ensures v % Pow2(k + 1) == v % 2 + 2 * (v / 2 % Pow2(k))
  {
    var p := Pow2(k);
    var (q, s) := (v / 2 / p, v / 2 % p);
    assert v / 2 == q * p + s;
    assert v == q * (2 * p) + (2 * s + v % 2);
    ModIs(v, 2 * p, q, 2 * s + v % 2);
  }

  lemma {:induction false} AndAll(v: nat, w: nat)
    requires v < Pow2(w)
    ensures And(v, Pow2(w) - 1) == v
  {
    if w > 0 {
      AndAll(v / 2, w - 1);
      assert (Pow2(w) - 1) / 2 == Pow2(w - 1) - 1 && (Pow2(w) - 1) % 2 == 1;
    }
  }

  /** One bit of a mask at a time. */
  lemma AndBit(v: nat, m: nat, bit: nat)
    requires bit <= 1
    ensures And(v, 2 * m + bit) == 2 * And(v / 2, m) + if bit == 1 then v % 2 else 0
  {
    var mask := 2 * m + bit;
    assert mask / 2 == m && mask % 2 == bit;
    if v == 0 || mask == 0 {
    } else if bit == 1 {
      assert (v % 2) * 1 == v % 2;
    } else {
      assert (v % 2) * 0 == 0;
    }
  }

  /** Masking with the low bits takes the remainder. */
  lemma {:induction false} AndLow(v: nat, k: nat)
    ensures And(v, Pow2(k) - 1) == v % Pow2(k)
  {
    hide And;
    if k == 0 {
      AndNone(v);
    } else {
      AndLow(v / 2, k - 1);
      LowBits(v, k - 1);
      AndBit(v, Pow2(k - 1) - 1, 1);
    }
  }

  lemma AndNone(v: nat)
    ensures And(v, 0) == 0
  {
  }

  lemma AndDouble(v: nat, m: nat)
    ensures And(v, 2 * m) == 2 * And(v / 2, m)
  {
    AndBit(v, m, 0);
  }

  lemma AndOne(v: nat)
    ensures And(v, 1) == v % 2
  {
    AndBit(v, 0, 1);
    AndNone(v / 2);
  }
}
