/** Machine-word arithmetic of the i386 target: 16/32/64-bit wrap-around,
    powers of two and the rounding helpers the kernel's macros expand to. */
module Words {
  const TWO8: nat := 0x100
  const TWO16: nat := 0x1_0000
  const TWO32: nat := 0x1_0000_0000
  const TWO64: nat := 0x1_0000_0000_0000_0000

  /** Truncation of an integer expression to a C `unsigned long` (32 bits). */
  function U32(x: int): (r: nat)
    ensures r < TWO32
    ensures 0 <= x < TWO32 ==> r == x
    ensures (r - x) % TWO32 == 0
  {
    x % TWO32
  }

  /** A 32-bit counter bumped in steps wraps the same as one bump by the total. */
  lemma U32Add(a: int, b: int)
    ensures U32(U32(a) + b) == U32(a + b)
  {
    DivModBasics(a, TWO32);
    DivModBasics(U32(a) + b, TWO32);
    DivModUnique(a + b, TWO32, a / TWO32 + (U32(a) + b) / TWO32, U32(U32(a) + b));
  }

  /** Truncation to a C `unsigned long long` (64 bits). */
  function U64(x: int): (r: nat)
    ensures r < TWO64
    ensures 0 <= x < TWO64 ==> r == x
  {
    x % TWO64
  }

  /** Two's-complement reading of a 16-, 32- or 64-bit pattern, as a C cast
      to `short`, `int`/`long` or `long long` does on i386. */
  function S16(x: nat): (r: int)
    requires x < TWO16
    ensures -(TWO16 / 2) <= r < TWO16 / 2 && (r - x) % TWO16 == 0
  {
    if x >= TWO16 / 2 then x - TWO16 else x
  }

  function S32(x: nat): (r: int)
    requires x < TWO32
    ensures -(TWO32 / 2) <= r < TWO32 / 2 && (r - x) % TWO32 == 0
  {
    if x >= TWO32 / 2 then x - TWO32 else x
  }

  function S64(x: nat): (r: int)
    requires x < TWO64
    ensures -(TWO64 / 2) <= r < TWO64 / 2 && (r - x) % TWO64 == 0
  {
    if x >= TWO64 / 2 then x - TWO64 else x
  }

  function Pow2(k: nat): (r: nat)
    ensures r >= 1
  {
    if k == 0 then 1 else 2 * Pow2(k - 1)
  }

  lemma {:induction false} Pow2Add(a: nat, b: nat)
    ensures Pow2(a + b) == Pow2(a) * Pow2(b)
  {
    if b > 0 {
      Pow2Add(a, b - 1);
      assert Pow2(a + b) == 2 * Pow2(a + b - 1);
    }
  }

  lemma {:induction false} Pow2Monotone(a: nat, b: nat)
    requires a <= b
    ensures Pow2(a) <= Pow2(b)
  {
    if a < b {
      Pow2Monotone(a, b - 1);
    }
  }

  lemma MulNonneg(a: int, b: int)
    requires a >= 0 && b >= 0
    ensures a * b >= 0
  {}

  lemma MulAtLeast(x: int, b: int)
    requires x >= 1 && b > 0
    ensures x * b >= b
  {
    MulNonneg(x - 1, b);
    assert x * b == (x - 1) * b + b;
  }

  /** Cancelling a positive factor from both sides of `<`. */
  lemma MulLtCancel(a: int, c: int, b: int)
    requires b > 0 && a * b < c * b
    ensures a < c
  {
    if a >= c {
      MulNonneg(a - c, b);
    }
  }

  lemma DivModBasics(n: int, b: int)
    requires b > 0
    ensures n == (n / b) * b + n % b && 0 <= n % b < b
  {}

  /** Division with remainder is unique: the quotient and remainder of any
      decomposition `n == q * b + m` with `0 <= m < b` are `n / b` and `n % b`. */
  lemma DivModUnique(n: int, b: int, q: int, m: int)
    requires b > 0 && 0 <= m < b && n == q * b + m
    ensures n / b == q && n % b == m
  {
    var q', m' := n / b, n % b;
    DivModBasics(n, b);
    assert (q' - q) * b == m - m';
    if q' > q {
      MulAtLeast(q' - q, b);
    } else if q' < q {
      MulAtLeast(q - q', b);
    }
  }

  /** Dividing a positive number by 2 or more makes it smaller. */
  lemma DivLess(n: int, b: int)
    requires n > 0 && b >= 2
    ensures 0 <= n / b < n
  {
    var q := n / b;
    DivModBasics(n, b);
    MulNonneg(q, b - 2);
    assert q * b == q * (b - 2) + 2 * q;
  }

  /** Number of `m`-sized units needed to hold `x` (the C idiom `(x + m - 1) / m`). */
  function CeilDiv(x: nat, m: nat): (r: nat)
    requires m > 0
    ensures r * m >= x
    ensures r == 0 || (r - 1) * m < x
  {
    var r := (x + m - 1) / m;
    DivModBasics(x + m - 1, m);
    assert (r - 1) * m == r * m - m;
    r
  }

  /** `x` rounded up to the next multiple of `m`. */
  function RoundUp(x: nat, m: nat): (r: nat)
    requires m > 0
    ensures r >= x && r % m == 0
    ensures r - x < m
  {
    var c := CeilDiv(x, m);
    DivModUnique(c * m, m, c, 0);
    assert c == 0 || c * m == (c - 1) * m + m;
    c * m
  }
}
