/** Facts about counters that wrap: remainders for an arbitrary modulus. */
module Modular {
  lemma ModUnique(n: int, m: nat, q: int, r: int)
    requires m > 0 && 0 <= r < m && n == q * m + r
    ensures n % m == r && n / m == q
  {
    var d, e := n / m, n % m;
    assert n == d * m + e;
    assert (q - d) * m == e - r;
    MulBound(q - d, m);
  }

  lemma MulBound(k: int, m: int)
    requires m > 0
    ensures k >= 1 ==> k * m >= m
    ensures k <= -1 ==> k * m <= -m
  {}

  /** Adding before or after wrapping. */
  lemma AddMod(n: int, d: int, m: nat)
    requires m > 0
    ensures (n % m + d) % m == (n + d) % m
  {
    var r := n % m + d;
    assert n + d == (n / m + r / m) * m + r % m by {
      assert n == n / m * m + n % m && r == r / m * m + r % m;
    }
    ModUnique(n + d, m, n / m + r / m, r % m);
  }

  /** The quotient of a sum. */
  lemma DivAdd(x: int, y: int, m: nat)
    requires m > 0
    ensures x / m + y / m <= (x + y) / m <= x / m + y / m + 1
  {
    var q, r := x / m + y / m, x % m + y % m;
    assert x + y == q * m + r by {
      assert x == x / m * m + x % m && y == y / m * m + y % m;
    }
    if r < m {
      ModUnique(x + y, m, q, r);
    } else {
      assert (q + 1) * m == q * m + m;
      ModUnique(x + y, m, q + 1, r - m);
    }
  }

  /** Wrapping first at a multiple of the modulus changes nothing. */
  lemma NestMod(n: int, big: nat, m: nat, c: nat)
    requires m > 0 && c > 0 && big == c * m
    ensures n % big % m == n % m
    ensures n % big / m == n / m - n / big * c
  {
    assert big > 0;
    var r := n % big;
    assert n == (n / big * c + r / m) * m + r % m by {
      assert n == n / big * big + r && r == r / m * m + r % m;
      assert n / big * big == n / big * c * m;
    }
    ModUnique(n, m, n / big * c + r / m, r % m);
  }

  /** The wrapped distance of two counters less than one period apart. */
  lemma DistanceMod(x: int, y: int, m: nat)
    requires m > 0 && x <= y < x + m
    ensures (y % m - x % m) % m == y - x
  {
    var d := y % m - x % m;
    assert d == (x / m - y / m) * m + (y - x) by {
      assert x == x / m * m + x % m && y == y / m * m + y % m;
    }
    ModUnique(d, m, x / m - y / m, y - x);
  }

  /** Counters less than one period apart do not collide. */
  lemma DistinctMod(x: int, y: int, m: nat)
    requires m > 0 && x < y < x + m
    ensures x % m != y % m
  {
    DistanceMod(x, y, m);
    if x % m == y % m {
      ModUnique(0, m, 0, 0);
    }
  }

  lemma EqualMod(x: int, y: int, m: nat)
    requires m > 0
    ensures x % m == y % m <==> (x - y) % m == 0
  {
    var d := x - y;
    assert d == (x / m - y / m) * m + (x % m - y % m) by {
      assert x == x / m * m + x % m && y == y / m * m + y % m;
    }
    if x % m == y % m {
      ModUnique(d, m, x / m - y / m, 0);
    } else if x % m > y % m {
      ModUnique(d, m, x / m - y / m, x % m - y % m);
    } else {
      assert d == (x / m - y / m - 1) * m + (x % m - y % m + m) by {
        assert (x / m - y / m - 1) * m == (x / m - y / m) * m - m;
      }
      ModUnique(d, m, x / m - y / m - 1, x % m - y % m + m);
    }
  }

  /** A factor common to counter and modulus. */
  lemma ScaleMod(n: int, m: nat, c: nat)
    requires m > 0 && c > 0
    ensures c * m > 0 && c * n % (c * m) == c * (n % m)
  {
    assert c * m > 0;
    assert c * n == n / m * (c * m) + c * (n % m) by {
      assert n == n / m * m + n % m;
      assert c * (n / m * m + n % m) == c * (n / m * m) + c * (n % m);
      assert c * (n / m * m) == n / m * (c * m);
    }
    assert 0 <= c * (n % m) < c * m by {
      assert c * m - c * (n % m) == c * (m - n % m) && m - n % m >= 1;
      assert c * (m - n % m) >= c;
    }
    ModUnique(c * n, c * m, n / m, c * (n % m));
  }
}
