/** The machine's word sizes, and facts about remainders that the solver does not find by itself. */
module Arithmetic {
  type Byte = n: nat | n < 256

  const TWO_32 := 0x1_0000_0000
  const TWO_64 := 0x1_0000_0000_0000_0000

  lemma SameRemainder(a: int, b: int, n: nat)
    requires n > 0
    ensures a % n == b % n <==> (a - b) % n == 0
  {
    var qa, ra, qb, rb := a / n, a % n, b / n, b % n;
    assert a - b == (qa - qb) * n + (ra - rb);
    if ra == rb {
      Multiple(qa - qb, n);
    }
    if (a - b) % n == 0 {
      var q := (a - b) / n;
      assert a - b == q * n;
      assert ra - rb == (q - (qa - qb)) * n;
      SmallMultiple(q - (qa - qb), n, ra - rb);
    }
  }

  lemma Multiple(k: int, n: nat)
    requires n > 0
    ensures (k * n) % n == 0
  {
    var r, q := (k * n) % n, (k * n) / n;
    assert r == (k - q) * n;
    SmallMultiple(k - q, n, r);
  }

  lemma SmallMultiple(k: int, n: int, r: int)
    requires n > 0 && r == k * n && -n < r < n
    ensures r == 0
  {
    if k > 0 {
      AtLeast(k, n);
    } else if k < 0 {
      assert (-k) * n == -r;
      AtLeast(-k, n);
    }
  }

  lemma {:induction false} AtLeast(k: int, n: int)
    requires k > 0 && n > 0
    ensures k * n >= n
    decreases k
  {
    if k > 1 {
      AtLeast(k - 1, n);
      assert k * n == (k - 1) * n + n;
    }
  }

  lemma ModShift(x: int, k: int, m: nat)
    requires m > 0
    ensures (x + k * m) % m == x % m
  {
    Multiple(k, m);
    SameRemainder(x + k * m, x, m);
  }

  lemma ModProduct(a: nat, b: nat, m: nat)
    requires m > 0
    ensures (a % m) * b % m == a * b % m
  {
    var q := a / m;
    assert a * b == (a % m) * b + (q * b) * m by {
      assert a == q * m + a % m;
      assert (q * m) * b == (q * b) * m;
    }
    ModShift((a % m) * b, q * b, m);
  }
}
