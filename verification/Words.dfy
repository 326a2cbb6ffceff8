/** The 32-bit words of the guest drivers: `ULONG`, `GLuint` and the ring counters. */
module Words {

  const WORD: int := 0x1_0000_0000
  const HALF: int := 0x8000_0000

  type u32 = x: int | 0 <= x < 0x1_0000_0000

  /** Wrapping addition and subtraction of C's `unsigned` words. */
  function Add32(a: int, b: int): u32 {
    (a + b) % WORD
  }

  function Sub32(a: int, b: int): u32 {
    (a - b) % WORD
  }

  /** The table capacities of the frontend: powers of two, so `x & (n - 1)` is `x % n`. */
  ghost predicate PowerOfTwo(n: nat)
  {
    n == 1 || (n > 1 && n % 2 == 0 && PowerOfTwo(n / 2))
  }

  ghost function Exponent(n: nat): (k: nat)
    requires PowerOfTwo(n)
  {
    if n == 1 then 0 else 1 + Exponent(n / 2)
  }

  ghost function Pow2(k: nat): (p: nat)
    ensures p > 0
  {
    if k == 0 then 1 else 2 * Pow2(k - 1)
  }

  lemma {:induction false} Pow2Exponent(n: nat)
    requires PowerOfTwo(n)
    ensures Pow2(Exponent(n)) == n
  {
    if n != 1 {
      Pow2Exponent(n / 2);
    }
  }

  lemma {:induction false} Pow2Product(a: nat, b: nat)
    ensures Pow2(a + b) == Pow2(a) * Pow2(b)
  {
    if a != 0 {
      Pow2Product(a - 1, b);
      assert Pow2(a) * Pow2(b) == 2 * (Pow2(a - 1) * Pow2(b));
    }
  }

  lemma {:induction false} Pow2Monotonic(a: nat, b: nat)
    requires a < b
    ensures Pow2(a) < Pow2(b)
  {
    if a + 1 < b {
      Pow2Monotonic(a, b - 1);
    }
  }

  lemma WordIsPow2()
    ensures Pow2(32) == WORD
  {
    Pow2Product(16, 16);
    Pow2Product(8, 8);
    assert Pow2(8) == 256;
  }

  /** Every power-of-two capacity divides the word, so masking ignores the wrap. */
  lemma PowerOfTwoDividesWord(n: nat) returns (k: nat)
    requires PowerOfTwo(n) && n <= WORD
    ensures n > 0 && WORD == n * k
  {
    Pow2Exponent(n);
    WordIsPow2();
    var e := Exponent(n);
    if e > 32 {
      Pow2Monotonic(32, e);
    }
    k := Pow2(32 - e);
    Pow2Product(e, 32 - e);
  }

  lemma {:induction false} ModOfMultiple(x: int, n: nat, k: nat)
    requires n > 0 && k > 0
    ensures x % (n * k) % n == x % n
  {
    var q, r := x / (n * k), x % (n * k);
    assert x == (k * q) * n + r by {
      assert x == (n * k) * q + r;
      assert (n * k) * q == (k * q) * n;
    }
    ModPlusMultiple(r, k * q, n);
  }

  lemma ModPlusMultiple(r: int, m: int, n: nat)
    requires n > 0
    ensures (m * n + r) % n == r % n
  {
    var a := r % n;
    var q := r / n;
    assert m * n + r == (m + q) * n + a;
    ModUnique(m * n + r, m + q, a, n);
  }

  /** Quotient and remainder are unique. */
  lemma EuclidUnique(q: int, r: int, q': int, r': int, n: nat)
    requires q * n + r == q' * n + r' && 0 <= r < n && 0 <= r' < n
    ensures q == q' && r == r'
  {
    var d := q - q';
    assert d * n == r' - r;
    assert d >= 1 ==> d * n >= n;
    assert d <= -1 ==> d * n + n <= 0;
  }

  lemma ModUnique(x: int, q: int, r: int, n: nat)
    requires n > 0 && x == q * n + r && 0 <= r < n
    ensures x % n == r && x / n == q
  {
    var q', r' := x / n, x % n;
    assert x == q' * n + r';
    EuclidUnique(q, r, q', r', n);
  }

  /** `x & (n - 1)` of a wrapped word is the unwrapped remainder. */
  lemma MaskedWord(x: int, n: nat)
    requires PowerOfTwo(n) && n <= WORD
    ensures n > 0 && x % WORD % n == x % n
  {
    var k := PowerOfTwoDividesWord(n);
    assert k != 0;
    ModOfMultiple(x, n, k);
  }

  lemma WrappedSum(x: int, y: int)
    ensures Add32(x % WORD, y) == (x + y) % WORD
    ensures Sub32(x % WORD, y) == (x - y) % WORD
    ensures Sub32(x % WORD, y % WORD) == (x - y) % WORD
  {
    ModPlusMultiple(x % WORD + y, x / WORD, WORD);
    ModPlusMultiple(x % WORD - y, x / WORD, WORD);
    ModPlusMultiple(x % WORD - y % WORD, x / WORD - y / WORD, WORD);
  }

  lemma SmallWord(x: int)
    requires 0 <= x < WORD
    ensures x % WORD == x
  {
  }

  /** Indices less than n apart have different remainders. */
  lemma ModDistinct(n: nat, i: nat, j: nat)
    requires 0 < n && i < j < i + n
    ensures i % n != j % n
  {
    var q, r := i / n, i % n;
    var q', r' := j / n, j % n;
    var d := q' - q;
    assert i == q * n + r && j == q' * n + r';
    assert j - i == d * n + (r' - r);
    assert d >= 1 ==> d * n >= n;
    assert d <= 0 ==> d * n <= 0;
  }
}
