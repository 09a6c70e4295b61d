/** Division with remainder by a variable modulus, and powers of two. */
module Modular {

  lemma MulAtLeast(m: int, d: int)
    requires m > 0 && d >= 1
    ensures m * d >= m
  {
    assert m * d == m * (d - 1) + m;
    assert m * (d - 1) >= 0;
  }

  lemma Gap(m: int, q: int, q': int)
    requires m > 0 && q > q'
    ensures m * q >= m * q' + m
  {
    MulAtLeast(m, q - q');
    assert m * (q - q') == m * q - m * q';
  }

  lemma SameQuotient(m: int, q: int, r: int, q': int, r': int)
    requires m > 0 && m * q + r == m * q' + r' && 0 <= r < m && 0 <= r' < m
    ensures q == q' && r == r'
  {
    if q > q' {
      Gap(m, q, q');
    } else if q < q' {
      Gap(m, q', q);
    }
  }

  lemma DivModUnique(a: int, m: int, q: int, r: int)
    requires m > 0 && a == m * q + r && 0 <= r < m
    ensures a / m == q && a % m == r
  {
    SameQuotient(m, q, r, a / m, a % m);
  }

  lemma ModSucc(a: nat, m: nat)
    requires m > 0
    ensures (a % m + 1) % m == (a + 1) % m
  {
    var q, r := a / m, a % m;
    if r + 1 < m {
      DivModUnique(a + 1, m, q, r + 1);
      DivModUnique(r + 1, m, 0, r + 1);
    } else {
      assert m * (q + 1) == m * q + m;
      DivModUnique(a + 1, m, q + 1, 0);
      DivModUnique(m, m, 1, 0);
    }
  }

  lemma ModDistinct(a: nat, b: nat, m: nat)
    requires a < b < a + m
    ensures a % m != b % m
  {
    var d := b - a;
    if a % m + d < m {
      DivModUnique(b, m, a / m, a % m + d);
    } else {
      assert m * (a / m + 1) == m * (a / m) + m;
      DivModUnique(b, m, a / m + 1, a % m + d - m);
    }
  }

  lemma ModShift(a: int, k: int, m: int)
    requires m > 0
    ensures (a + m * k) % m == a % m
  {
    assert m * (a / m + k) == m * (a / m) + m * k;
    DivModUnique(a + m * k, m, a / m + k, a % m);
  }

  function Pow2(n: nat): (p: nat)
    ensures p > 0
  {
    if n == 0 then 1 else 2 * Pow2(n - 1)
  }

  lemma Regroup(a: int, b: int, c: int)
    ensures a * (b * c) == (a * b) * c
  {
  }

  lemma {:induction false} Pow2Add(a: nat, b: nat)
    ensures Pow2(a + b) == Pow2(a) * Pow2(b)
  {
    if a > 0 {
      Pow2Add(a - 1, b);
      Regroup(2, Pow2(a - 1), Pow2(b));
    }
  }

  lemma DivBelow(t: nat, p: nat, m: nat)
    requires p > 0 && t < p * m
    ensures t / p < m
  {
    MulMonotone(p, m, if t / p >= m then t / p else m);
  }

  lemma DivNat(v: nat, p: nat)
    requires p > 0
    ensures v / p >= 0
  {
  }

  lemma DivOfMod(a: nat, p: nat, m: nat)
    requires p > 0 && m > 0
    ensures p * m > 0 && (a % (p * m)) / p == (a / p) % m
  {
    MulAtLeast(p, m);
    var q, t := a / (p * m), a % (p * m);
    var u, v := t / p, t % p;
    DivBelow(t, p, m);
    Regroup(p, m, q);
    assert p * (m * q + u) == p * (m * q) + p * u;
    DivModUnique(a, p, m * q + u, v);
    DivModUnique(a / p, m, q, u);
  }

  lemma MulMonotone(p: nat, a: nat, b: nat)
    requires a <= b
    ensures p * a <= p * b
  {
  }

  lemma ModOfMod(a: nat, p: nat, m: nat)
    requires p > 0 && m > 0
    ensures p * m > 0 && (a % (p * m)) % p == a % p
  {
    MulAtLeast(p, m);
    ModOfMultiple(a, p * m, p, m);
  }

  lemma ModOfMultiple(a: nat, n: nat, p: nat, m: nat)
    requires p > 0 && n > 0 && n == p * m
    ensures (a % n) % p == a % p
  {
    var q, t := a / n, a % n;
    var u, v := t / p, t % p;
    DivMod(a, n);
    DivMod(t, p);
    Regroup(p, m, q);
    Combine(p, m * q, u, v, a, t);
    DivModUnique(a, p, m * q + u, v);
  }

  lemma DivMod(a: nat, n: nat)
    requires n > 0
    ensures a == n * (a / n) + a % n && 0 <= a % n < n && a / n >= 0
  {
  }

  lemma Combine(p: nat, x: nat, u: nat, v: nat, a: nat, t: nat)
    requires a == p * x + t && t == p * u + v
    ensures a == p * (x + u) + v
  {
  }

  lemma ModScaled(a: nat, p: nat, m: nat)
    requires p > 0 && m > 0
    ensures m * p > 0 && (a * p) % (m * p) == (a % m) * p
  {
    MulAtLeast(m, p);
    var q, r := a / m, a % m;
    assert a * p == (m * p) * q + r * p by {
      Distribute(m * q, r, p);
      Regroup(m, p, q);
      Regroup(m, q, p);
    }
    assert r * p < m * p by {
      MulStrict(p, r, m);
    }
    DivModUnique(a * p, m * p, q, r * p);
  }

  lemma Distribute(a: int, b: int, p: int)
    ensures (a + b) * p == a * p + b * p
  {
  }

  lemma MulStrict(p: nat, a: nat, b: nat)
    requires p > 0 && a < b
    ensures a * p < b * p
  {
  }

  lemma ModWithTail(a: nat, p: nat, x: nat, t: nat)
    requires p > 0 && t < x
    ensures p * x > 0 && (a * x + t) % (p * x) == (a % p) * x + t
  {
    MulAtLeast(p, x);
    var q, r := a / p, a % p;
    assert a * x + t == (p * x) * q + (r * x + t) by {
      Distribute(p * q, r, x);
      Regroup(p, x, q);
      Regroup(p, q, x);
    }
    assert r * x + t < p * x by {
      Distribute(p - 1, 1, x);
      MulMonotone(x, r, p - 1);
    }
    DivModUnique(a * x + t, p * x, q, r * x + t);
  }
}
