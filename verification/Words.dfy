/** Machine words and the modular arithmetic of ring indices.

    The rings of the repository index with `counter % capacity` (or `counter & (capacity - 1)`)
    and compare counters that are `size_t`.  A `Width` says whether counters are read as
    unbounded naturals or as w-bit words that wrap; every ring machine takes one, so the same
    transition function is both the idealised queue and the one the hardware runs. */
module Words {

  datatype Option<+T> = None | Some(value: T)

  datatype Width = Unbounded | Bits(w: nat)

  function Pow2(k: nat): (r: nat)
    ensures 1 <= r
  {
    if k == 0 then 1 else 2 * Pow2(k - 1)
  }

  /** The value a counter variable holds after being assigned `x`. */
  function Norm(width: Width, x: nat): nat {
    match width
    case Unbounded => x
    case Bits(w) => x % Pow2(w)
  }

  /** The two's-complement reading of a w-bit word. */
  function Signed(w: nat, u: nat): int {
    if 2 * u < Pow2(w) then u else u - Pow2(w)
  }

  /** `(intptr_t)a - (intptr_t)b` */
  function Diff(width: Width, a: nat, b: nat): int {
    match width
    case Unbounded => a - b
    case Bits(w) => Signed(w, (a - b) % Pow2(w))
  }

  /** `a - b` on unsigned counters */
  function UDiff(width: Width, a: nat, b: nat): int {
    match width
    case Unbounded => a - b
    case Bits(w) => (a - b) % Pow2(w)
  }

  /** The ring cell of a counter value. */
  function Cell(p: int, n: nat): (c: nat)
    requires 0 < n
    ensures c < n
  {
    p % n
  }

  // ----- modular arithmetic -----

  lemma MulPositive(k: int, n: int)
    requires 1 <= k && 0 < n
    ensures n <= k * n
  {
  }

  lemma MulDistributes(a: int, b: int, n: int)
    ensures (a + b) * n == a * n + b * n
  {
  }

  lemma ModUnique(x: int, n: int, q: int, r: int)
    requires 0 < n && 0 <= r < n && x == q * n + r
    ensures x % n == r && x / n == q
  {
    var q', r' := x / n, x % n;
    assert x == q' * n + r';
    assert (q - q') * n == r' - r;
    if q' < q {
      MulPositive(q - q', n);
    } else if q < q' {
      MulPositive(q' - q, n);
    }
  }

  lemma ModShift(x: int, n: int, k: int)
    requires 0 < n
    ensures (x + k * n) % n == x % n
  {
    assert x + k * n == (x / n + k) * n + x % n;
    ModUnique(x + k * n, n, x / n + k, x % n);
  }

  /** Two numbers in one cell are a whole number of laps apart. */
  lemma SameCell(p: int, q: int, n: nat)
    requires 0 < n && Cell(p, n) == Cell(q, n)
    ensures p == q || p + n <= q || q + n <= p
  {
    assert p - q == (p / n - q / n) * n;
    var k := p / n - q / n;
    if 1 <= k {
      MulPositive(k, n);
    } else if k <= -1 {
      MulPositive(-k, n);
      assert q - p == (-k) * n;
    }
  }

  lemma CellNextLap(p: int, n: nat)
    requires 0 < n
    ensures Cell(p + n, n) == Cell(p, n) && Cell(p - n, n) == Cell(p, n)
  {
    ModShift(p, n, 1);
    ModShift(p, n, -1);
  }

  lemma CellSmall(p: nat, n: nat)
    requires p < n
    ensures Cell(p, n) == p
  {
    ModUnique(p, n, 0, p);
  }

  /** The one number of the window `lo .. lo + n` that falls in the cell of `p`. */
  function InWindow(p: int, lo: int, n: nat): (r: int)
    requires 0 < n
    ensures lo <= r < lo + n
    ensures Cell(r, n) == Cell(p, n)
  {
    var d := (p - lo) % n;
    assert lo + d == p + (-((p - lo) / n)) * n;
    ModShift(p, n, -((p - lo) / n));
    lo + d
  }

  // ----- wrap-around -----

  lemma ModOfDifference(a: int, b: int, m: int)
    requires 0 < m
    ensures (a % m - b % m) % m == (a - b) % m
  {
    assert a - b == (a % m - b % m) + (a / m - b / m) * m;
    ModShift(a % m - b % m, m, a / m - b / m);
  }

  /** The wrapped signed difference equals the true one exactly inside half the word range. */
  lemma SignedExact(w: nat, d: int)
    ensures Signed(w, d % Pow2(w)) == d <==> 0 <= 2 * d + Pow2(w) < 2 * Pow2(w)
  {
    var m := Pow2(w);
    if 0 <= 2 * d + m && d < 0 {
      ModUnique(d, m, -1, d + m);
    } else if 0 <= 2 * d < m {
      ModUnique(d, m, 0, d);
    }
  }

  lemma DiffWraps(w: nat, a: nat, b: nat)
    ensures Diff(Bits(w), Norm(Bits(w), a), Norm(Bits(w), b)) == a - b
        <==> 0 <= 2 * (a - b) + Pow2(w) < 2 * Pow2(w)
  {
    ModOfDifference(a, b, Pow2(w));
    SignedExact(w, a - b);
  }

  lemma NormNorm(w: nat, x: nat, y: nat)
    ensures Norm(Bits(w), Norm(Bits(w), x) + y) == Norm(Bits(w), x + y)
  {
    var m := Pow2(w);
    assert x % m + y == x + y + (-(x / m)) * m;
    ModShift(x + y, m, -(x / m));
  }

  /** Equal words are equal counters when the counters are less than a word apart. */
  lemma NormInjective(w: nat, x: nat, y: nat)
    requires x <= y < x + Pow2(w) || y <= x < y + Pow2(w)
    ensures Norm(Bits(w), x) == Norm(Bits(w), y) <==> x == y
  {
    if x % Pow2(w) == y % Pow2(w) {
      SameCell(x, y, Pow2(w));
    }
  }

  lemma Pow2Grows(j: nat, k: nat)
    requires j <= k
    ensures Pow2(k) == Pow2(k - j) * Pow2(j)
    ensures Pow2(j) <= Pow2(k)
    decreases k - j
  {
    if j < k {
      Pow2Grows(j, k - 1);
    }
  }

  predicate Divides(n: nat, m: nat) {
    0 < n && m % n == 0
  }

  /** Wrapping does not disturb the cell when the capacity divides the word range. */
  lemma CellOfNorm(w: nat, x: nat, n: nat)
    requires Divides(n, Pow2(w))
    ensures Cell(Norm(Bits(w), x), n) == Cell(x, n)
  {
    var m := Pow2(w);
    var q := m / n;
    assert m == q * n;
    assert x % m == x + (-(x / m)) * m;
    calc {
      (-(x / m)) * m;
      (-(x / m)) * (q * n);
      ((-(x / m)) * q) * n;
    }
    ModShift(x, n, (-(x / m)) * q);
  }

  lemma PowersDivide(k: nat, w: nat)
    requires k <= w
    ensures Divides(Pow2(k), Pow2(w))
  {
    Pow2Grows(k, w);
    ModUnique(Pow2(w), Pow2(k), Pow2(w - k), 0);
  }

  /** The low k bits of x: what `x & (2^k - 1)` keeps. */
  function LowBits(x: nat, k: nat): nat {
    if k == 0 then 0 else x % 2 + 2 * LowBits(x / 2, k - 1)
  }

  /** `counter & (capacity - 1)` is `counter % capacity` for a power-of-two capacity. */
  lemma {:induction false} MaskIsCell(x: nat, k: nat)
    ensures LowBits(x, k) == Cell(x, Pow2(k))
  {
    if k != 0 {
      MaskIsCell(x / 2, k - 1);
      var n := Pow2(k - 1);
      var q, r := (x / 2) / n, (x / 2) % n;
      assert x == 2 * (q * n + r) + x % 2;
      assert x == q * (2 * n) + (2 * r + x % 2);
      ModUnique(x, 2 * n, q, 2 * r + x % 2);
    }
  }
}
