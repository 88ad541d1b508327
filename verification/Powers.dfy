/** Powers of two and what they divide. */
module Powers {
  const TWO_TO_64: nat := 0x1_0000_0000_0000_0000

  predicate IsPowerOfTwo(n: nat) {
    n == 1 || (n > 0 && n % 2 == 0 && IsPowerOfTwo(n / 2))
  }

  function Power(e: nat): (p: nat)
    ensures p > 0
  {
    if e == 0 then 1 else 2 * Power(e - 1)
  }

  lemma Doubled(p: nat, q: nat)
    ensures (2 * p) * q == 2 * (p * q)
  {
  }

  lemma {:induction false} PowerSum(a: nat, b: nat)
    ensures Power(a + b) == Power(a) * Power(b)
  {
    if a > 0 {
      PowerSum(a - 1, b);
      Doubled(Power(a - 1), Power(b));
    }
  }

  lemma Squared(a: nat, p: nat)
    requires Power(a) == p
    ensures Power(2 * a) == p * p
  {
    PowerSum(a, a);
    assert a + a == 2 * a;
  }

  lemma PowerIs64()
    ensures Power(64) == TWO_TO_64
  {
    assert Power(2) == 4;
    Squared(2, 4);
    Squared(4, 16);
    Squared(8, 0x100);
    Squared(16, 0x1_0000);
    Squared(32, 0x1_0000_0000);
  }

  // ---- Division ----

  lemma AtLeastOneMultiple(d: int, n: nat)
    requires d != 0
    ensures d * n >= n || d * n <= -(n as int)
  {
    if d >= 1 {
      assert (d - 1) * n >= 0;
      assert d * n == (d - 1) * n + n;
    } else {
      assert (-1 - d) * n >= 0;
      assert d * n == -((-1 - d) * n) - n;
    }
  }

  lemma DivisionIs(x: nat, q: int, r: nat, n: nat)
    requires r < n && x == q * n + r
    ensures x / n == q && x % n == r
  {
    var p := x / n;
    assert x == p * n + x % n;
    assert (q - p) * n == q * n - p * n;
    if q != p {
      AtLeastOneMultiple(q - p, n);
    }
  }

  lemma AddMultiple(a: nat, q: nat, n: nat)
    requires n > 0
    ensures a + q * n >= 0 && (a + q * n) % n == a % n
  {
    var p := a / n;
    assert (p + q) * n == p * n + q * n;
    assert q * n >= 0;
    DivisionIs(a + q * n, p + q, a % n, n);
  }

  // Going through a modulus that is a multiple changes nothing.
  lemma ModOfMod(x: nat, m: nat, n: nat)
    requires m > 0 && n > 0 && m % n == 0
    ensures (x % m) % n == x % n
  {
    var q, k := x / m, m / n;
    assert m == k * n;
    assert x == x % m + q * m;
    assert q * m == (q * k) * n;
    AddMultiple(x % m, q * k, n);
  }

  lemma Halved(p: nat, n: nat)
    requires n > 0
    ensures (2 * p) % (2 * n) == 2 * (p % n)
  {
    var q := p / n;
    assert p == q * n + p % n;
    assert q * (2 * n) == 2 * (q * n);
    DivisionIs(2 * p, q, 2 * (p % n), 2 * n);
  }

  lemma OddDividesHalf(p: nat, n: nat)
    requires n % 2 == 1 && (2 * p) % n == 0
    ensures p % n == 0
  {
    var r, q := p % n, p / n;
    assert p == q * n + r;
    assert (2 * q) * n == 2 * (q * n);
    if n <= 2 * r {
      assert (2 * q + 1) * n == (2 * q) * n + n;
      DivisionIs(2 * p, 2 * q + 1, 2 * r - n, n);
    } else {
      DivisionIs(2 * p, 2 * q, 2 * r, n);
    }
  }

  // The divisors of a power of two are the smaller powers of two.
  lemma {:induction false} DividesPowerExactlyIf(e: nat, n: nat)
    requires 0 < n <= Power(e)
    ensures Power(e) % n == 0 <==> IsPowerOfTwo(n)
    decreases e
  {
    if e > 0 {
      if n % 2 == 0 {
        EvenDivides(Power(e - 1), n);
        DividesPowerExactlyIf(e - 1, n / 2);
      } else {
        OddDivides(e, n);
      }
    }
  }

  lemma EvenDivides(p: nat, n: nat)
    requires n > 0 && n % 2 == 0
    ensures (2 * p) % n == 0 <==> p % (n / 2) == 0
  {
    Halved(p, n / 2);
  }

  lemma {:induction false} OddDivides(e: nat, n: nat)
    requires n % 2 == 1
    ensures Power(e) % n == 0 <==> n == 1
  {
    if e > 0 {
      OddDivides(e - 1, n);
      if Power(e) % n == 0 {
        OddDividesHalf(Power(e - 1), n);
      } else {
        assert n != 1;
      }
    } else {
      OneIsSmall(n);
    }
  }

  lemma OneIsSmall(n: nat)
    requires n > 0
    ensures 1 % n == 0 <==> n == 1
  {
    if n > 1 {
      assert 1 % n == 1;
    }
  }
}
