/** The few facts about remainders that the hash length counters need. */
module ModArith {
  lemma {:induction false} Multiple(d: nat, n: nat)
    requires d > 0
    ensures d * n >= n
    decreases d
  {
    if d > 1 {
      Multiple(d - 1, n);
      assert d * n == (d - 1) * n + n;
    }
  }

  lemma ModUnique(a: nat, n: nat, q: int, r: nat)
    requires r < n && a == q * n + r
    ensures a % n == r
  {
    var q', r' := a / n, a % n;
    assert (q' - q) * n == r - r';
    if q' > q {
      Multiple(q' - q, n);
    } else if q' < q {
      Multiple(q - q', n);
    }
  }

  lemma ModAdd(x: nat, y: nat, m: nat)
    requires m > 0
    ensures (x % m + y) % m == (x + y) % m
  {
    var q := (x % m + y) / m;
    assert x + y == (x / m + q) * m + (x % m + y) % m;
    ModUnique(x + y, m, x / m + q, (x % m + y) % m);
  }

  /** Wrapping at a multiple of `n` keeps the remainder modulo `n`. */
  lemma ModOfWrap(x: nat, modulus: nat, n: nat)
    requires n > 0 && modulus > 0 && modulus % n == 0
    ensures (x % modulus) % n == x % n
  {
    var q, r, k := x / modulus, x % modulus, modulus / n;
    assert q * modulus == q * k * n;
    assert x == x / n * n + x % n;
    assert r == (x / n - q * k) * n + x % n;
    ModUnique(r, n, x / n - q * k, x % n);
  }

  lemma DivMod(a: nat, n: nat)
    requires n > 0
    ensures a == a / n * n + a % n && a % n < n
  {
  }

  /** Counting whole blocks down one at a time. */
  lemma BlocksLeft(length: nat, n: nat)
    requires n > 0
    ensures length < n <==> length / n == 0
    ensures length >= n ==> length / n == 1 + (length - n) / n
  {
    DivMod(length, n);
    if length >= n {
      OneBlockLess(length, n);
    } else {
      DivUnique(length, n, 0, length);
    }
  }

  lemma OneBlockLess(length: nat, n: nat)
    requires 0 < n <= length
    ensures length / n == 1 + (length - n) / n
  {
    var q, r := (length - n) / n, (length - n) % n;
    DivMod(length - n, n);
    assert (1 + q) * n == n + q * n;
    DivUnique(length, n, 1 + q, r);
  }

  lemma DivUnique(a: nat, n: nat, q: int, r: nat)
    requires r < n && a == q * n + r
    ensures a / n == q
  {
    var q', r' := a / n, a % n;
    assert (q' - q) * n == r - r';
    if q' > q {
      Multiple(q' - q, n);
    } else if q' < q {
      Multiple(q - q', n);
    }
  }

  /** Taking a number apart in two steps or in one. */
  lemma ModJoin(n: nat, a: nat, b: nat)
    requires a > 0 && b > 0
    ensures a * b > 0 && n % (a * b) == a * (n / a % b) + n % a
  {
    var q := n / a;
    DivMod(n, a);
    DivMod(q, b);
    Positive(a, b);
    Within(a, b, q % b, n % a);
    assert n == (q / b * b + q % b) * a + n % a;
    Regroup(q / b, b, q % b, a);
    ModUnique(n, a * b, q / b, a * (q % b) + n % a);
  }

  lemma Positive(a: nat, b: nat)
    requires a > 0 && b > 0
    ensures a * b > 0
  {
  }

  lemma Within(a: nat, b: nat, q: nat, r: nat)
    requires q < b && r < a
    ensures a * q + r < a * b
  {
    Grows(a, q + 1, b);
  }

  lemma Grows(a: nat, x: nat, y: nat)
    requires x <= y
    ensures a * x <= a * y
  {
  }

  lemma Regroup(x: nat, b: nat, y: nat, a: nat)
    ensures (x * b + y) * a == x * (a * b) + a * y
  {
  }
}
