/** include/asm-i386/div64.h: `do_div(n, base)` divides the 64-bit lvalue `n`
    by a 32-bit `base` with two 32-bit steps, stores the quotient back into
    `n` and yields the remainder. */
module Div64 {
  import opened Words

  /** The registers of the macro after both steps. */
  datatype DivSteps = DivSteps(
    high: nat,     // quotient's high word, `__high` after the first step
    upper: nat,    // dividend's high word fed to `divl` (edx)
    low: nat,      // quotient's low word, `__low` after `divl` (eax)
    mod: nat)      // remainder left in edx by `divl`

  /** The two-step division: the high word alone first (only when it is
      nonzero), then `divl` on the 64-bit pair `upper:low`. */
  function Divide(n: nat, base: nat): DivSteps
    requires n < TWO64 && 0 < base < TWO32
  {
    var high := n / TWO32;
    var low := n % TWO32;
    var upper := if high != 0 then high % base else high;
    var high' := if high != 0 then high / base else high;
    MulNonneg(upper, TWO32);
    var wide: nat := upper * TWO32 + low;
    DivSteps(high', upper, wide / base, wide % base)
  }

  /** What makes `divl` safe (no divide error): the high word fed to it is
      below the divisor, so its quotient fits in 32 bits; and the two words
      together are the exact 64-bit quotient, the remainder the exact one. */
  lemma DivideCorrect(n: nat, base: nat)
    requires n < TWO64 && 0 < base < TWO32
    ensures var r := Divide(n, base);
      && r.upper < base
      && r.upper == (n / TWO32) % base
      && r.high == (n / TWO32) / base
      && r.low == (r.upper * TWO32 + n % TWO32) / base
      && r.low < TWO32 && r.high < TWO32
      && r.high * TWO32 + r.low == n / base
      && r.mod == n % base && r.mod < base
  {
    var r := Divide(n, base);
    var high0, low0 := n / TWO32, n % TWO32;
    DivModBasics(n, TWO32);
    DivModBasics(high0, base);
    if high0 == 0 {
      DivModUnique(high0, base, 0, 0);
    }
    assert r.upper == high0 % base && r.high == high0 / base;
    var wide := r.upper * TWO32 + low0;
    DivModBasics(wide, base);
    assert n == (r.high * base + r.upper) * TWO32 + low0;
    assert n == r.high * base * TWO32 + wide;
    assert n == (r.high * TWO32 + r.low) * base + r.mod;
    DivModUnique(n, base, r.high * TWO32 + r.low, r.mod);
    assert wide < base * TWO32 by {
      MulNonneg(base - 1 - r.upper, TWO32);
      assert (base - 1 - r.upper) * TWO32 == base * TWO32 - TWO32 - r.upper * TWO32;
    }
    assert r.low * base < TWO32 * base;
    MulLtCancel(r.low, TWO32, base);
    assert high0 < TWO32 by {
      assert high0 * TWO32 < TWO32 * TWO32;
      MulLtCancel(high0, TWO32, TWO32);
    }
    if r.high > 0 {
      MulAtLeast(base, r.high);
      assert r.high * base <= high0;
    }
  }

  /** The macro itself: `n` is replaced by the quotient and the remainder is
      the macro's value. */
  method DoDiv(n: nat, base: nat) returns (quotient: nat, mod: nat)
    requires n < TWO64 && 0 < base < TWO32
    ensures quotient == n / base && mod == n % base
    ensures mod < base && quotient < TWO64
  {
    var steps := Divide(n, base);
    DivideCorrect(n, base);
    quotient := steps.high * TWO32 + steps.low;
    mod := steps.mod;
  }
}
