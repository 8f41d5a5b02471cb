/** lib/vsprintf.c: the kernel's `vsprintf`, its helper `number` that
    renders one integer, and `skip_atoi` that reads a decimal field width or
    precision out of the format.  The conversions follow a subset of section
    7.19.6.1 of ISO/IEC 9899:1999 plus the non-standard `Z` qualifier. */
module Vsprintf {
  import opened Words
  import KString
  import Div64
  import opened Wrappers

  /* Flag bits of the `type`/`flags` word. */
  const ZEROPAD: bv32 := 1
  const SIGN: bv32 := 2
  const PLUS: bv32 := 4
  const SPACE: bv32 := 8
  const LEFT: bv32 := 16
  const SPECIAL: bv32 := 32
  const LARGE: bv32 := 64

  predicate Has(flags: bv32, f: bv32) {
    flags & f != 0
  }

  lemma FlagsUnion(t: bv32)
    ensures (t & (ZEROPAD | LEFT) == 0) == (!Has(t, ZEROPAD) && !Has(t, LEFT))
  {}

  /** Clearing `ZEROPAD` leaves every other flag as it was. */
  lemma AdjustedFlags(typ: bv32)
    ensures !Has(typ, LEFT) ==> Adjusted(typ) == typ
    ensures Has(typ, LEFT) ==> !Has(Adjusted(typ), ZEROPAD)
    ensures Has(Adjusted(typ), LEFT) == Has(typ, LEFT)
    ensures Has(Adjusted(typ), SIGN) == Has(typ, SIGN)
    ensures Has(Adjusted(typ), PLUS) == Has(typ, PLUS)
    ensures Has(Adjusted(typ), SPACE) == Has(typ, SPACE)
    ensures Has(Adjusted(typ), SPECIAL) == Has(typ, SPECIAL)
    ensures Has(Adjusted(typ), LARGE) == Has(typ, LARGE)
  {}

  const TWO63: int := TWO64 / 2

  const LOWER_DIGITS: string := "0123456789abcdefghijklmnopqrstuvwxyz"
  const UPPER_DIGITS: string := "0123456789ABCDEFGHIJKLMNOPQRSTUVWXYZ"

  /** `digits[d]`, from the upper-case table under `LARGE`. */
  function DigitChar(d: nat, large: bool): char
    requires d < 36
  {
    if large then UPPER_DIGITS[d] else LOWER_DIGITS[d]
  }

  /** The value of a digit character in bases up to 36, either case. */
  function DigitValue(c: char): nat {
    if '0' <= c <= '9' then c as nat - '0' as nat
    else if 'a' <= c <= 'z' then c as nat - 'a' as nat + 10
    else if 'A' <= c <= 'Z' then c as nat - 'A' as nat + 10
    else 0
  }

  lemma DigitCharValue(d: nat, large: bool)
    requires d < 36
    ensures DigitValue(DigitChar(d, large)) == d
  {
    if large {
      assert UPPER_DIGITS[d] == (if d < 10 then ('0' as int + d) as char else ('A' as int + d - 10) as char);
    } else {
      assert LOWER_DIGITS[d] == (if d < 10 then ('0' as int + d) as char else ('a' as int + d - 10) as char);
    }
  }

  /** Digits of `n` least-significant first, in the order the digit loop
      stores them into `tmp`. */
  function LowDigits(n: nat, base: nat, large: bool): seq<char>
    requires 2 <= base <= 36
    decreases n
  {
    if n == 0 then []
    else
      DivLess(n, base);
      [DigitChar(n % base, large)] + LowDigits(n / base, base, large)
  }

  /** One digit off the low end. */
  lemma LowDigitsStep(n: nat, base: nat, large: bool)
    requires 2 <= base <= 36 && n != 0
    ensures LowDigits(n, base, large) == [DigitChar(n % base, large)] + LowDigits(n / base, base, large)
  {
  }

  function Reverse(s: seq<char>): (r: seq<char>)
    ensures |r| == |s|
  {
    if s == [] then [] else Reverse(s[1..]) + [s[0]]
  }

  /** The digits `number` prints for the magnitude `n`: "0" for zero,
      otherwise most-significant first. */
  function DigitString(n: nat, base: nat, large: bool): seq<char>
    requires 2 <= base <= 36
  {
    if n == 0 then "0" else Reverse(LowDigits(n, base, large))
  }

  /** Reading a digit string back, most-significant digit first. */
  function ParseDigits(s: seq<char>, base: nat): nat {
    if s == [] then 0 else ParseDigits(s[..|s| - 1], base) * base + DigitValue(s[|s| - 1])
  }

  lemma {:induction false} LowDigitsValue(n: nat, base: nat, large: bool)
    requires 2 <= base <= 36
    ensures ParseDigits(Reverse(LowDigits(n, base, large)), base) == n
    decreases n
  {
    if n != 0 {
      var q, d := n / base, n % base;
      DivLess(n, base);
      var t := LowDigits(n, base, large);
      LowDigitsValue(q, base, large);
      DigitCharValue(d, large);
      assert t[1..] == LowDigits(q, base, large);
      var r := Reverse(t);
      assert r == Reverse(t[1..]) + [t[0]];
      assert r[..|r| - 1] == Reverse(t[1..]) && r[|r| - 1] == t[0];
      assert ParseDigits(r, base) == ParseDigits(r[..|r| - 1], base) * base + DigitValue(r[|r| - 1]);
      assert ParseDigits(r, base) == q * base + d;
      DivModBasics(n, base);
    }
  }

  /** Round trip: the digits `number` prints for `n` read back as `n`, in
      either case and every base it accepts. */
  lemma DigitStringRoundTrip(n: nat, base: nat, large: bool)
    requires 2 <= base <= 36
    ensures ParseDigits(DigitString(n, base, large), base) == n
  {
    if n == 0 {
      assert DigitString(n, base, large) == "0";
      assert "0"[..0] == [];
    } else {
      LowDigitsValue(n, base, large);
    }
  }

  function Repeat(c: char, k: int): (r: seq<char>)
    ensures |r| == if k > 0 then k else 0
    ensures forall i :: 0 <= i < |r| ==> r[i] == c
  {
    if k <= 0 then [] else Repeat(c, k - 1) + [c]
  }

  function Max(a: int, b: int): int { if a > b then a else b }

  /** The `type` word `number` works with: `LEFT` cancels `ZEROPAD`. */
  function Adjusted(typ: bv32): bv32 {
    if Has(typ, LEFT) then typ & !ZEROPAD else typ
  }

  /** The sign character, present only for signed conversions. */
  function SignText(num: int, typ: bv32): seq<char> {
    if !Has(typ, SIGN) then []
    else if num < 0 then "-"
    else if Has(typ, PLUS) then "+"
    else if Has(typ, SPACE) then " "
    else []
  }

  /** The `#` prefix: "0" in octal, "0x"/"0X" in hexadecimal. */
  function PrefixText(base: int, typ: bv32): seq<char> {
    if !Has(typ, SPECIAL) then []
    else if base == 16 then ['0', DigitChar(33, Has(typ, LARGE))]
    else if base == 8 then "0"
    else []
  }

  /** The 64-bit magnitude `number` divides: the value's bit pattern, after
      negation when it prints a '-' (so the most negative value gives 2^63). */
  function Magnitude(num: int, typ: bv32): nat {
    U64(if Has(typ, SIGN) && num < 0 then -num else num)
  }

  /** The text `number` writes for `num`, described by its layout:
      `[pad] sign prefix [zeros] digits [pad]`.  The pad brings the text up
      to `size`; it goes on the right under `LEFT`, is made of zeros after the
      prefix under `ZEROPAD`, and of spaces before the sign otherwise.  The
      digits are first zero-extended to `precision`. */
  function NumberText(num: int, base: int, size: int, precision: int, typ: bv32): seq<char>
    requires 2 <= base <= 36
  {
    var t := Adjusted(typ);
    var sign := SignText(num, t);
    var prefix := PrefixText(base, t);
    var digits := DigitString(Magnitude(num, t), base, Has(t, LARGE));
    var prec := Max(precision, |digits|);
    var pad := size - |sign| - |prefix| - prec;
    var body := Repeat('0', prec - |digits|) + digits;
    Layout(sign, prefix, body, pad, Has(t, LEFT), Has(t, ZEROPAD))
  }

  /** Where the `pad` fill characters of a field go around its sign, prefix
      and zero-extended digits. */
  function Layout(sign: seq<char>, prefix: seq<char>, body: seq<char>, pad: int,
                  left: bool, zero: bool): seq<char>
  {
    if left then sign + prefix + body + Repeat(' ', pad)
    else if zero then sign + prefix + Repeat('0', pad) + body
    else Repeat(' ', pad) + sign + prefix + body
  }

  /** The field is never shorter than `size`, and is exactly as long as
      sign, prefix and the precision-extended digits when those are longer. */
  lemma NumberTextLength(num: int, base: int, size: int, precision: int, typ: bv32)
    requires 2 <= base <= 36
    ensures var t := Adjusted(typ);
      var digits := DigitString(Magnitude(num, t), base, Has(t, LARGE));
      |NumberText(num, base, size, precision, typ)|
        == Max(size, |SignText(num, t)| + |PrefixText(base, t)| + Max(precision, |digits|))
  {
  }

  /** The digits at the end of an unpadded or right-aligned field read back
      as the magnitude: the field's last characters are exactly its digits. */
  lemma NumberTextEndsWithDigits(num: int, base: int, size: int, precision: int, typ: bv32)
    requires 2 <= base <= 36 && !Has(typ, LEFT)
    ensures var text := NumberText(num, base, size, precision, typ);
      var digits := DigitString(Magnitude(num, Adjusted(typ)), base, Has(typ, LARGE));
      |digits| <= |text| && text[|text| - |digits|..] == digits
      && ParseDigits(text[|text| - |digits|..], base) == Magnitude(num, Adjusted(typ))
  {
    var t := Adjusted(typ);
    assert t == typ;
    var sign, prefix := SignText(num, t), PrefixText(base, t);
    var digits := DigitString(Magnitude(num, t), base, Has(t, LARGE));
    var prec := Max(precision, |digits|);
    var pad := size - |sign| - |prefix| - prec;
    var zeros := Repeat('0', prec - |digits|);
    NumberTextIsLayout(num, base, size, precision, typ, t, sign, prefix, digits, prec, pad);
    var front := if Has(t, ZEROPAD) then sign + prefix + Repeat('0', pad) + zeros
      else Repeat(' ', pad) + sign + prefix + zeros;
    assert NumberText(num, base, size, precision, typ) == front + digits;
    assert (front + digits)[|front|..] == digits;
    DigitStringRoundTrip(Magnitude(num, t), base, Has(t, LARGE));
  }

  lemma Assoc3(a: seq<char>, b: seq<char>, c: seq<char>)
    ensures a + b + c == a + (b + c)
  {
  }

  lemma Assoc(a: seq<char>, b: seq<char>, c: seq<char>, d: seq<char>, e: seq<char>)
    ensures a + b + c + d + e == a + (b + c + d + e)
  {
  }

  /** The field as `number` writes it, one optional piece after another,
      is the layout: `pre` is the leading space pad, `mid` the zero pad after
      the prefix, `post` the trailing space pad. */
  lemma LayoutPieces(str: seq<char>, sign: seq<char>, prefix: seq<char>, body: seq<char>, pad: int,
                     left: bool, zero: bool, pre: seq<char>, mid: seq<char>, post: seq<char>)
    requires pre == (if !left && !zero then Repeat(' ', pad) else [])
    requires mid == (if !left && zero then Repeat('0', pad) else [])
    requires post == (if left then Repeat(' ', pad) else [])
    ensures str + pre + sign + prefix + mid + body + post == str + Layout(sign, prefix, body, pad, left, zero)
  {
    var whole := str + pre + sign + prefix + mid + body + post;
    if left {
      assert whole == str + Layout(sign, prefix, body, pad, left, zero) by {
        assert str + pre == str && str + sign + prefix + mid == str + sign + prefix;
        Assoc(str, sign, prefix, body, post);
      }
    } else if zero {
      assert whole == str + Layout(sign, prefix, body, pad, left, zero) by {
        assert str + pre == str && str + sign + prefix + mid + body + post == str + sign + prefix + mid + body;
        Assoc(str, sign, prefix, mid, body);
      }
    } else {
      assert whole == str + Layout(sign, prefix, body, pad, left, zero) by {
        assert str + pre + sign + prefix + mid == str + pre + sign + prefix;
        assert str + pre + sign + prefix + body + post == str + pre + sign + prefix + body;
        Assoc(str, pre, sign, prefix, body);
      }
    }
  }

  /** `NumberText` with its local definitions named. */
  lemma NumberTextIsLayout(num: int, base: int, size: int, precision: int, typ: bv32, t: bv32,
                           sign: seq<char>, prefix: seq<char>, digits: seq<char>, prec: int, pad: int)
    requires 2 <= base <= 36 && t == Adjusted(typ)
    requires sign == SignText(num, t) && prefix == PrefixText(base, t)
    requires digits == DigitString(Magnitude(num, t), base, Has(t, LARGE))
    requires prec == Max(precision, |digits|) && pad == size - |sign| - |prefix| - prec
    ensures NumberText(num, base, size, precision, typ)
      == Layout(sign, prefix, Repeat('0', prec - |digits|) + digits, pad, Has(t, LEFT), Has(t, ZEROPAD))
  {
  }

  /** The padding idiom `while (size-- > 0) *str++ = c;`: writes `size`
      copies of `c` when `size` is positive and leaves `size` negative. */
  method PadLoop(str: seq<char>, c: char, size: int) returns (out: seq<char>, left: int)
    ensures out == str + Repeat(c, size)
    ensures left == (if size > 0 then 0 else size) - 1 && left < 0
  {
    out := str;
    left := size;
    while left > 0
      invariant out == str + Repeat(c, size - left) && left <= size && (left == size || left >= 0)
    {
      left := left - 1;
      out := out + [c];
    }
    left := left - 1;
  }

  /** The digit loop of `number`: '0' for zero, otherwise one `do_div` per
      digit, least-significant first, into `tmp`. */
  method ConvertDigits(mag: nat, base: int, large: bool) returns (tmp: seq<char>)
    requires 2 <= base <= 36 && mag < TWO64
    ensures Reverse(tmp) == DigitString(mag, base, large)
  {
    var n: nat := mag;
    tmp := [];
    if n == 0 {
      tmp := ['0'];
      assert Reverse(tmp) == Reverse([]) + ['0'];
    } else {
      while n != 0
        invariant tmp + LowDigits(n, base, large) == LowDigits(mag, base, large)
        invariant n < TWO64
        decreases n
      {
        var d;
        ghost var m := n;
        DivLess(n, base);
        n, d := Div64.DoDiv(n, base);
        LowDigitsStep(m, base, large);
        assert (tmp + [DigitChar(d, large)]) + LowDigits(n, base, large) == tmp + LowDigits(m, base, large);
        tmp := tmp + [DigitChar(d, large)];
      }
      assert tmp == LowDigits(mag, base, large);
    }
  }

  /** `while (i < precision--) *str++ = '0';` */
  method ZeroFill(str: seq<char>, i: int, precision: int) returns (out: seq<char>)
    ensures out == str + Repeat('0', precision - i)
  {
    out := str;
    var prec := precision;
    while i < prec
      invariant out == str + Repeat('0', precision - prec) && prec <= precision
      invariant prec >= i || prec == precision
    {
      prec := prec - 1;
      out := out + ['0'];
    }
  }

  /** `while (i-- > 0) *str++ = tmp[i];`: the digits in reverse storage order. */
  method CopyDigits(str: seq<char>, tmp: seq<char>) returns (out: seq<char>)
    ensures out == str + Reverse(tmp)
  {
    out := str;
    var i := |tmp|;
    while i > 0
      invariant 0 <= i <= |tmp|
      invariant out == str + Reverse(tmp[i..])
    {
      i := i - 1;
      assert tmp[i..][1..] == tmp[i + 1..];
      out := out + [tmp[i]];
    }
    assert tmp[0..] == tmp;
  }

  /** The writing half of `number`, once the sign, the size left over and
      the digits are known: pad, sign, prefix, pad, zeros, digits, pad. */
  method EmitField(str: seq<char>, t: bv32, base: int, c: char, sign: char,
                   size: int, prec: int, tmp: seq<char>) returns (out: seq<char>)
    requires !(Has(t, LEFT) && Has(t, ZEROPAD))
    requires c == (if Has(t, ZEROPAD) then '0' else ' ')
    ensures out == str + Layout(if sign != KString.NUL then [sign] else [], PrefixText(base, t),
                                Repeat('0', prec - |tmp|) + Reverse(tmp), size, Has(t, LEFT), Has(t, ZEROPAD))
  {
    FlagsUnion(t);
    var large := Has(t, LARGE);
    var sz := size;
    var i := |tmp|;
    ghost var signText: seq<char> := if sign != KString.NUL then [sign] else [];
    ghost var prefix := PrefixText(base, t);
    ghost var left := Has(t, LEFT);
    ghost var zero := Has(t, ZEROPAD);
    ghost var pre: seq<char> := if !left && !zero then Repeat(' ', size) else [];
    ghost var mid: seq<char> := if !left && zero then Repeat('0', size) else [];
    ghost var post: seq<char> := if left then Repeat(' ', size) else [];
    ghost var body := Repeat('0', prec - i) + Reverse(tmp);
    out := str;
    if t & (ZEROPAD | LEFT) == 0 {
      out, sz := PadLoop(out, ' ', sz);
    }
    assert out == str + pre;
    assert sz == size || sz < 0;
    if sign != KString.NUL {
      out := out + [sign];
    }
    assert out == str + pre + signText;
    if Has(t, SPECIAL) {
      if base == 8 {
        out := out + ['0'];
      } else if base == 16 {
        out := out + ['0', DigitChar(33, large)];
      }
    }
    assert out == str + pre + signText + prefix;
    if !Has(t, LEFT) {
      out, sz := PadLoop(out, c, sz);
    }
    assert out == str + pre + signText + prefix + mid;
    assert sz == (if left then size else -1) || sz < 0;
    ghost var fill := out;
    out := ZeroFill(out, i, prec);
    out := CopyDigits(out, tmp);
    Assoc3(fill, Repeat('0', prec - i), Reverse(tmp));
    assert out == fill + body;
    out, sz := PadLoop(out, ' ', sz);
    assert out == str + pre + signText + prefix + mid + body + post;
    LayoutPieces(str, signText, prefix, body, size, left, zero, pre, mid, post);
  }

  /** The sign step of `number`: the sign character (NUL for none), the
      value whose digits are printed, and the size left after the sign. */
  method SignOf(num: int, size: int, t: bv32) returns (sign: char, n: int, sz: int)
    ensures (if sign != KString.NUL then [sign] else []) == SignText(num, t)
    ensures n == if Has(t, SIGN) && num < 0 then -num else num
    ensures sz == size - |SignText(num, t)|
  {
    sign := KString.NUL;
    n := num;
    sz := size;
    if Has(t, SIGN) {
      if n < 0 {
        sign := '-';
        n := -n;
        sz := sz - 1;
      } else if Has(t, PLUS) {
        sign := '+';
        sz := sz - 1;
      } else if Has(t, SPACE) {
        sign := ' ';
        sz := sz - 1;
      }
    }
  }

  /** `number(str, num, base, size, precision, type)`: appends the rendered
      integer to the output `str`; a base outside [2, 36] gives NULL. */
  method Number(str: seq<char>, num: int, base: int, size: int, precision: int, typ: bv32)
    returns (r: Option<seq<char>>)
    requires -TWO63 <= num < TWO63
    ensures 2 <= base <= 36 ==> r == Some(str + NumberText(num, base, size, precision, typ))
    ensures !(2 <= base <= 36) ==> r == None
  {
    var large := Has(typ, LARGE);
    var t := typ;
    if Has(t, LEFT) {
      t := t & !ZEROPAD;
    }
    AdjustedFlags(typ);
    assert t == Adjusted(typ);
    if base < 2 || base > 36 {
      return None;
    }
    FlagsUnion(t);
    var c := if Has(t, ZEROPAD) then '0' else ' ';
    var sign, n, sz := SignOf(num, size, t);
    ghost var signText: seq<char> := if sign != KString.NUL then [sign] else [];
    if Has(t, SPECIAL) {
      if base == 16 {
        sz := sz - 2;
      } else if base == 8 {
        sz := sz - 1;
      }
    }
    ghost var prefix := PrefixText(base, t);
    assert sz == size - |signText| - |prefix|;
    var tmp := ConvertDigits(U64(n), base, large);
    assert U64(n) == Magnitude(num, t);
    var i := |tmp|;
    var prec := precision;
    if i > prec {
      prec := i;
    }
    sz := sz - prec;
    var out := EmitField(str, t, base, c, sign, sz, prec, tmp);
    NumberTextIsLayout(num, base, size, precision, typ, t, signText, prefix, Reverse(tmp), prec, sz);
    r := Some(out);
  }

  /* ---------------- skip_atoi ---------------- */

  /** `isdigit`, on the characters '0'..'9'. */
  predicate IsDigit(c: char) {
    '0' <= c <= '9'
  }

  /** The format character at `i`, reading the terminating NUL past the end. */
  function At(fmt: seq<char>, i: nat): char {
    if i < |fmt| then fmt[i] else KString.NUL
  }

  /** What `skip_atoi` computes from `pos` with `acc` already accumulated:
      the position after the run of digits and the accumulated value. */
  function Atoi(fmt: seq<char>, pos: nat, acc: int): (r: (nat, int))
    requires pos <= |fmt|
    ensures pos <= r.0 <= |fmt| && !IsDigit(At(fmt, r.0))
    ensures forall i :: pos <= i < r.0 ==> IsDigit(fmt[i])
    ensures acc >= 0 ==> r.1 >= acc
    decreases |fmt| - pos
  {
    if pos < |fmt| && IsDigit(fmt[pos]) then Atoi(fmt, pos + 1, acc * 10 + (fmt[pos] as int - '0' as int))
    else (pos, acc)
  }

  /** The value `skip_atoi` returns is the decimal reading of exactly the
      digits it skips. */
  lemma {:induction false} AtoiValue(fmt: seq<char>, start: nat, pos: nat)
    requires start <= pos <= |fmt|
    requires forall i :: start <= i < pos ==> IsDigit(fmt[i])
    ensures var r := Atoi(fmt, pos, ParseDigits(fmt[start..pos], 10));
      r.1 == ParseDigits(fmt[start..r.0], 10)
    decreases |fmt| - pos
  {
    if pos < |fmt| && IsDigit(fmt[pos]) {
      var t := fmt[start..pos + 1];
      assert t[..|t| - 1] == fmt[start..pos];
      assert ParseDigits(t, 10) == ParseDigits(fmt[start..pos], 10) * 10 + (fmt[pos] as int - '0' as int);
      AtoiValue(fmt, start, pos + 1);
    }
  }

  /** Decimal digits only, as `number` prints them in base 10. */
  lemma {:induction false} LowDigitsDecimal(n: nat)
    ensures forall i :: 0 <= i < |LowDigits(n, 10, false)| ==> IsDigit(LowDigits(n, 10, false)[i])
    decreases n
  {
    if n != 0 {
      LowDigitsDecimal(n / 10);
      var t := LowDigits(n, 10, false);
      assert t == [LOWER_DIGITS[n % 10]] + LowDigits(n / 10, 10, false);
      forall i | 0 <= i < |t| ensures IsDigit(t[i]) {
        if i > 0 { assert t[i] == LowDigits(n / 10, 10, false)[i - 1]; }
      }
    }
  }

  lemma {:induction false} ReverseElements(s: seq<char>)
    ensures forall i :: 0 <= i < |s| ==> Reverse(s)[i] == s[|s| - 1 - i]
    decreases |s|
  {
    if s != [] {
      ReverseElements(s[1..]);
    }
  }

  /** Round trip with `number`: `skip_atoi` reads a decimal field that
      `number` printed back as the same value, and stops right after it. */
  lemma AtoiDigitString(n: nat, rest: seq<char>)
    requires rest == [] || !IsDigit(rest[0])
    ensures var d := DigitString(n, 10, false);
      Atoi(d + rest, 0, 0) == (|d|, n)
  {
    var d := DigitString(n, 10, false);
    var fmt := d + rest;
    assert forall i :: 0 <= i < |d| ==> IsDigit(d[i]) by {
      if n != 0 {
        LowDigitsDecimal(n);
        ReverseElements(LowDigits(n, 10, false));
      }
    }
    assert fmt[0..0] == [];
    AtoiValue(fmt, 0, 0);
    var r := Atoi(fmt, 0, 0);
    assert forall i :: 0 <= i < |d| ==> IsDigit(fmt[i]);
    assert !IsDigit(At(fmt, |d|));
    assert r.0 == |d|;
    assert fmt[0..r.0] == d;
    DigitStringRoundTrip(n, 10, false);
  }

  /** `skip_atoi(&fmt)`: accumulates decimal digits and advances the cursor. */
  method SkipAtoi(fmt: seq<char>, pos: nat) returns (i: int, p: nat)
    requires pos <= |fmt|
    ensures (p, i) == Atoi(fmt, pos, 0)
  {
    i := 0;
    p := pos;
    while p < |fmt| && IsDigit(fmt[p])
      invariant p <= |fmt| && Atoi(fmt, p, i) == Atoi(fmt, pos, 0)
      decreases |fmt| - p
    {
      i := i * 10 + (fmt[p] as int - '0' as int);
      p := p + 1;
    }
  }

  /* ---------------- vsprintf ---------------- */

  /** One variadic argument as `va_arg` finds it on the stack: `value` is the
      integer or pointer it holds; for `%s`, a non-zero `value` points at the
      characters `text`, which are followed in memory by a NUL. */
  datatype Arg = Arg(value: int, text: seq<char>)

  /** The `k`-th argument; reading past the caller's arguments gives zero. */
  function ArgAt(args: seq<Arg>, k: nat): Arg {
    if k < |args| then args[k] else Arg(0, [])
  }

  /** `va_arg(args, int)` on a 32-bit stack slot. */
  function IntArg(a: Arg): int {
    S32(U32(a.value))
  }

  /** The flag bit a flag character selects in the `goto repeat` switch, or 0. */
  function FlagOf(c: char): bv32 {
    if c == '-' then LEFT
    else if c == '+' then PLUS
    else if c == ' ' then SPACE
    else if c == '#' then SPECIAL
    else if c == '0' then ZEROPAD
    else 0
  }

  /** The `goto repeat` loop: flag characters from `pos` on, or-ed into `flags`. */
  function ScanFlags(fmt: seq<char>, pos: nat, flags: bv32): (r: (nat, bv32))
    requires pos <= |fmt|
    ensures pos <= r.0 <= |fmt| && FlagOf(At(fmt, r.0)) == 0
    ensures forall i :: pos <= i < r.0 ==> FlagOf(fmt[i]) != 0
    decreases |fmt| - pos
  {
    if pos < |fmt| && FlagOf(fmt[pos]) != 0 then ScanFlags(fmt, pos + 1, flags | FlagOf(fmt[pos]))
    else (pos, flags)
  }

  /** A field width or precision: where parsing goes on, the value, and the
      index of the next unread argument. */
  datatype Field = Field(pos: nat, value: int, arg: nat)

  /** The field width: decimal digits, or `*` taking an `int` argument whose
      negative value means `LEFT` and its absolute value; -1 when absent. */
  function ScanWidth(fmt: seq<char>, pos: nat, flags: bv32, args: seq<Arg>, ai: nat): (r: (Field, bv32))
    requires pos <= |fmt|
    ensures pos <= r.0.pos <= |fmt| && ai <= r.0.arg <= ai + 1
    ensures r.0.value >= -1 && (r.0.value == -1 <==> r.0.pos == pos)
    ensures r.1 == flags || r.1 == flags | LEFT
  {
    if pos < |fmt| && IsDigit(fmt[pos]) then
      var (e, v) := Atoi(fmt, pos, 0);
      (Field(e, v, ai), flags)
    else if At(fmt, pos) == '*' then
      var w := IntArg(ArgAt(args, ai));
      if w < 0 then (Field(pos + 1, -w, ai + 1), flags | LEFT) else (Field(pos + 1, w, ai + 1), flags)
    else (Field(pos, -1, ai), flags)
  }

  /** The precision: '.' then digits or `*`; negative becomes 0, and it is
      -1 only when there is no '.'. */
  function ScanPrecision(fmt: seq<char>, pos: nat, args: seq<Arg>, ai: nat): (r: Field)
    requires pos <= |fmt|
    ensures pos <= r.pos <= |fmt| && ai <= r.arg <= ai + 1
    ensures (r.value == -1 <==> At(fmt, pos) != '.') && r.value >= -1
  {
    if At(fmt, pos) != '.' then Field(pos, -1, ai)
    else
      var p := pos + 1;
      var f :=
        if p < |fmt| && IsDigit(fmt[p]) then var (e, v) := Atoi(fmt, p, 0); Field(e, v, ai)
        else if At(fmt, p) == '*' then Field(p + 1, IntArg(ArgAt(args, ai)), ai + 1)
        else Field(p, -1, ai);
      if f.value < 0 then f.(value := 0) else f
  }

  /** A parsed conversion specification. `conv` is the index of the
      conversion character (`|fmt|` when the format ends first). */
  datatype Directive = Directive(flags: bv32, width: int, precision: int,
                                 qualifier: Option<char>, conv: nat, arg: nat)

  /** Everything between the `%` (just before `pos`) and the conversion character. */
  function ParseDirective(fmt: seq<char>, pos: nat, args: seq<Arg>, ai: nat): (d: Directive)
    requires pos <= |fmt|
    ensures pos <= d.conv <= |fmt| && ai <= d.arg <= ai + 2
  {
    var (p, flags) := ScanFlags(fmt, pos, 0);
    var (w, f) := ScanWidth(fmt, p, flags, args, ai);
    var pr := ScanPrecision(fmt, w.pos, args, w.arg);
    var q := At(fmt, pr.pos);
    if q == 'h' || q == 'l' || q == 'L' || q == 'Z' then
      Directive(f, w.value, pr.value, Some(q), pr.pos + 1, pr.arg)
    else Directive(f, w.value, pr.value, None, pr.pos, pr.arg)
  }

  /** The integer `number` receives for a conversion with this qualifier:
      the argument narrowed to the type the qualifier names and, for signed
      conversions, sign-extended. */
  function NumArg(v: int, qualifier: Option<char>, signed: bool): (r: int)
    ensures -TWO63 <= r < TWO63
  {
    if qualifier == Some('L') then S64(U64(v))
    else if qualifier == Some('Z') then U32(v)
    else if qualifier == Some('h') then (if signed then S16(v % TWO16) else v % TWO16)
    else if signed then S32(U32(v)) else U32(v)
  }

  /** `%c`: the character is `(unsigned char)` of the `int` argument. */
  function CharOf(v: int): char {
    (v % 256) as char
  }

  /** `%c` with field width `width`: spaces before, or after under `LEFT`. */
  function CharField(ch: char, width: int, left: bool): seq<char> {
    if left then [ch] + Repeat(' ', width - 1) else Repeat(' ', width - 1) + [ch]
  }

  /** The string `%s` prints: the argument's, or "<NULL>" for a null pointer. */
  function StrOf(a: Arg): seq<char> {
    if a.value == 0 then "<NULL>" else a.text
  }

  /** `%s`: at most `precision` characters (as an unsigned count, so -1 means
      no limit) up to the string's NUL, padded with spaces to `width`. */
  function StringField(s: seq<char>, width: int, precision: int, left: bool): seq<char> {
    var mem := s + [KString.NUL];
    var len := KString.BoundedLength(mem, U32(precision));
    var text := mem[..len];
    if left then text + Repeat(' ', width - len) else Repeat(' ', width - len) + text
  }

  /** The conversion base `number` gets for an integer conversion character. */
  function BaseOf(c: char): int {
    if c == 'o' then 8 else if c == 'X' || c == 'x' then 16 else 10
  }

  /** The flags `number` gets: `X` adds `LARGE`, `d` and `i` add `SIGN`. */
  function ConvFlags(c: char, flags: bv32): bv32 {
    if c == 'X' then flags | LARGE else if c == 'd' || c == 'i' then flags | SIGN else flags
  }

  predicate IsIntConv(c: char) {
    c == 'o' || c == 'X' || c == 'x' || c == 'd' || c == 'i' || c == 'u'
  }

  /** Where `vsprintf` stands: the format index, the next argument, the text
      written so far and the positions `%n` recorded. */
  datatype Progress = Progress(pos: nat, arg: nat, out: seq<char>, marks: seq<nat>)

  /** The effect of one conversion character on the output. */
  function Render(fmt: seq<char>, d: Directive, args: seq<Arg>, out: seq<char>, marks: seq<nat>): (r: Progress)
    requires d.conv <= |fmt|
    ensures r.pos == (if d.conv < |fmt| then d.conv + 1 else d.conv)
  {
    var c := At(fmt, d.conv);
    var a := ArgAt(args, d.arg);
    var next := d.conv + 1;
    if c == 'c' then
      Progress(next, d.arg + 1, out + CharField(CharOf(IntArg(a)), d.width, Has(d.flags, LEFT)), marks)
    else if c == 's' then
      Progress(next, d.arg + 1, out + StringField(StrOf(a), d.width, d.precision, Has(d.flags, LEFT)), marks)
    else if c == 'p' then
      var w := if d.width == -1 then 8 else d.width;
      var f := if d.width == -1 then d.flags | ZEROPAD else d.flags;
      Progress(next, d.arg + 1, out + NumberText(U32(a.value), 16, w, d.precision, f), marks)
    else if c == 'n' then Progress(next, d.arg + 1, out, marks + [|out|])
    else if c == '%' then Progress(next, d.arg, out + ['%'], marks)
    else if IsIntConv(c) then
      var f := ConvFlags(c, d.flags);
      var num := NumArg(a.value, d.qualifier, Has(f, SIGN));
      Progress(next, d.arg + 1, out + NumberText(num, BaseOf(c), d.width, d.precision, f), marks)
    else if d.conv < |fmt| then Progress(next, d.arg, out + ['%', c], marks)
    else Progress(d.conv, d.arg, out + ['%'], marks)
  }

  /** One turn of `vsprintf`'s loop at a non-NUL format character. */
  function Step(fmt: seq<char>, args: seq<Arg>, st: Progress): (r: Progress)
    requires st.pos < |fmt|
    ensures st.pos < r.pos <= |fmt|
  {
    if fmt[st.pos] != '%' then Progress(st.pos + 1, st.arg, st.out + [fmt[st.pos]], st.marks)
    else Render(fmt, ParseDirective(fmt, st.pos + 1, args, st.arg), args, st.out, st.marks)
  }

  /** The rest of the format from `st` on. */
  function Format(fmt: seq<char>, args: seq<Arg>, st: Progress): Progress
    requires st.pos <= |fmt|
    decreases |fmt| - st.pos
  {
    if st.pos == |fmt| then st else Format(fmt, args, Step(fmt, args, st))
  }

  /** The flag loop of `vsprintf`: from the '%' at `pos`, `++fmt` and
      `goto repeat` while the character is a flag. */
  method ReadFlags(fmt: seq<char>, pos: nat) returns (p: nat, flags: bv32)
    requires pos < |fmt|
    ensures (p, flags) == ScanFlags(fmt, pos + 1, 0)
  {
    flags := 0;
    p := pos + 1;
    while p < |fmt| && FlagOf(fmt[p]) != 0
      invariant p <= |fmt| && ScanFlags(fmt, p, flags) == ScanFlags(fmt, pos + 1, 0)
      decreases |fmt| - p
    {
      flags := flags | FlagOf(fmt[p]);
      p := p + 1;
    }
  }

  /** The field-width step of `vsprintf`. */
  method ReadWidth(fmt: seq<char>, pos: nat, flags: bv32, args: seq<Arg>, ai: nat)
    returns (w: Field, f: bv32)
    requires pos <= |fmt|
    ensures (w, f) == ScanWidth(fmt, pos, flags, args, ai)
  {
    f := flags;
    var fieldWidth := -1;
    var p := pos;
    var a := ai;
    if p < |fmt| && IsDigit(fmt[p]) {
      fieldWidth, p := SkipAtoi(fmt, p);
    } else if At(fmt, p) == '*' {
      p := p + 1;
      fieldWidth := IntArg(ArgAt(args, a));
      a := a + 1;
      if fieldWidth < 0 {
        fieldWidth := -fieldWidth;
        f := f | LEFT;
      }
    }
    w := Field(p, fieldWidth, a);
  }

  /** The precision step of `vsprintf`. */
  method ReadPrecision(fmt: seq<char>, pos: nat, args: seq<Arg>, ai: nat) returns (pr: Field)
    requires pos <= |fmt|
    ensures pr == ScanPrecision(fmt, pos, args, ai)
  {
    var precision := -1;
    var p := pos;
    var a := ai;
    if At(fmt, p) == '.' {
      p := p + 1;
      if p < |fmt| && IsDigit(fmt[p]) {
        precision, p := SkipAtoi(fmt, p);
      } else if At(fmt, p) == '*' {
        p := p + 1;
        precision := IntArg(ArgAt(args, a));
        a := a + 1;
      }
      if precision < 0 {
        precision := 0;
      }
    }
    pr := Field(p, precision, a);
  }

  /** `case 'c'`: `while (--field_width > 0)` pads before unless `LEFT`,
      then the character, then the same loop pads after. */
  method CharConv(out: seq<char>, ch: char, width: int, left: bool) returns (o: seq<char>)
    ensures o == out + CharField(ch, width, left)
  {
    var fieldWidth := width;
    var k: int;
    o := out;
    if !left {
      o, k := PadLoop(o, ' ', fieldWidth - 1);
      fieldWidth := k + 1;
    }
    o := o + [ch];
    o, k := PadLoop(o, ' ', fieldWidth - 1);
  }

  /** `for (i = 0; i < len; ++i) *str++ = *s++;` */
  method CopyChars(out: seq<char>, mem: seq<char>, len: nat) returns (o: seq<char>)
    requires len <= |mem|
    ensures o == out + mem[..len]
  {
    o := out;
    var i := 0;
    while i < len
      invariant i <= len && o == out + mem[..i]
    {
      o := o + [mem[i]];
      i := i + 1;
    }
  }

  /** `case 's'`: `strnlen` bounded by the precision, `while (len <
      field_width--)` padding, and a copy of `len` characters. */
  method StringConv(out: seq<char>, a: Arg, width: int, precision: int, left: bool) returns (o: seq<char>)
    ensures o == out + StringField(StrOf(a), width, precision, left)
  {
    var s := a.text;
    if a.value == 0 {
      s := "<NULL>";
    }
    var mem := s + [KString.NUL];
    var len := KString.Strnlen(mem, U32(precision));
    ghost var text := mem[..len];
    ghost var pad := Repeat(' ', width - len);
    var fieldWidth := width;
    var k: int;
    o := out;
    if !left {
      o, k := PadLoop(o, ' ', fieldWidth - len);
      fieldWidth := len + k;
    }
    assert o == out + (if left then [] else pad);
    assert fieldWidth - len == width - len || fieldWidth - len < 0;
    o := CopyChars(o, mem, len);
    o, k := PadLoop(o, ' ', fieldWidth - len);
    if left {
      assert o == out + text + pad;
      Assoc3(out, text, pad);
    } else {
      assert o == out + pad + text;
      Assoc3(out, pad, text);
    }
    assert StringField(StrOf(a), width, precision, left) == if left then text + pad else pad + text;
  }

  /** `case 'c'` of the conversion switch. */
  method CharCase(fmt: seq<char>, d: Directive, args: seq<Arg>, out: seq<char>, marks: seq<nat>)
    returns (st: Progress)
    requires d.conv < |fmt| && fmt[d.conv] == 'c'
    ensures st == Render(fmt, d, args, out, marks)
  {
    var o := CharConv(out, CharOf(IntArg(ArgAt(args, d.arg))), d.width, Has(d.flags, LEFT));
    st := Progress(d.conv + 1, d.arg + 1, o, marks);
  }

  /** `case 's'` of the conversion switch. */
  method StringCase(fmt: seq<char>, d: Directive, args: seq<Arg>, out: seq<char>, marks: seq<nat>)
    returns (st: Progress)
    requires d.conv < |fmt| && fmt[d.conv] == 's'
    ensures st == Render(fmt, d, args, out, marks)
  {
    var o := StringConv(out, ArgAt(args, d.arg), d.width, d.precision, Has(d.flags, LEFT));
    st := Progress(d.conv + 1, d.arg + 1, o, marks);
  }

  /** `case 'p'`: eight zero-padded hex digits unless a width is given. */
  method PointerCase(fmt: seq<char>, d: Directive, args: seq<Arg>, out: seq<char>, marks: seq<nat>)
    returns (st: Progress)
    requires d.conv < |fmt| && fmt[d.conv] == 'p'
    ensures st == Render(fmt, d, args, out, marks)
  {
    var fieldWidth := d.width;
    var flags := d.flags;
    if fieldWidth == -1 {
      fieldWidth := 8;
      flags := flags | ZEROPAD;
    }
    var r := Number(out, U32(ArgAt(args, d.arg).value), 16, fieldWidth, d.precision, flags);
    st := Progress(d.conv + 1, d.arg + 1, r.value, marks);
  }

  /** The integer cases of the switch: `o` is octal, `X` hex with `LARGE`,
      `x` hex, `d`/`i` decimal with `SIGN`, `u` decimal. */
  method IntBase(c: char, flags0: bv32) returns (base: int, flags: bv32)
    requires IsIntConv(c)
    ensures base == BaseOf(c) && flags == ConvFlags(c, flags0)
  {
    flags := flags0;
    base := 10;
    if c == 'o' {
      base := 8;
    } else if c == 'X' {
      flags := flags | LARGE;
      base := 16;
    } else if c == 'x' {
      base := 16;
    } else if c == 'd' || c == 'i' {
      flags := flags | SIGN;
    }
  }

  /** The integer conversions of the switch: `o`, `X`, `x`, `d`, `i`, `u`
      choose the base and flags, then the argument is fetched by qualifier
      and `number` renders it. */
  method IntCase(fmt: seq<char>, d: Directive, args: seq<Arg>, out: seq<char>, marks: seq<nat>)
    returns (st: Progress)
    requires d.conv < |fmt| && IsIntConv(fmt[d.conv])
    ensures st == Render(fmt, d, args, out, marks)
  {
    var base, flags := IntBase(fmt[d.conv], d.flags);
    var o := IntConv(out, ArgAt(args, d.arg), d.qualifier, base, d.width, d.precision, flags);
    st := Progress(d.conv + 1, d.arg + 1, o, marks);
    RenderInt(fmt, d, args, out, marks);
  }

  lemma RenderInt(fmt: seq<char>, d: Directive, args: seq<Arg>, out: seq<char>, marks: seq<nat>)
    requires d.conv < |fmt| && IsIntConv(fmt[d.conv])
    ensures var c := fmt[d.conv];
      var f := ConvFlags(c, d.flags);
      Render(fmt, d, args, out, marks)
        == Progress(d.conv + 1, d.arg + 1,
                    out + NumberText(NumArg(ArgAt(args, d.arg).value, d.qualifier, Has(f, SIGN)), BaseOf(c),
                                     d.width, d.precision, f), marks)
  {
  }

  /** The conversion switch of `vsprintf`. */
  method Convert(fmt: seq<char>, d: Directive, args: seq<Arg>, out: seq<char>, marks: seq<nat>)
    returns (st: Progress)
    requires d.conv <= |fmt|
    ensures st == Render(fmt, d, args, out, marks)
  {
    var c := At(fmt, d.conv);
    if c == 'c' {
      st := CharCase(fmt, d, args, out, marks);
    } else if c == 's' {
      st := StringCase(fmt, d, args, out, marks);
    } else if c == 'p' {
      st := PointerCase(fmt, d, args, out, marks);
    } else if c == 'n' {
      st := Progress(d.conv + 1, d.arg + 1, out, marks + [|out|]);
    } else if c == '%' {
      st := Progress(d.conv + 1, d.arg, out + ['%'], marks);
    } else if IsIntConv(c) {
      st := IntCase(fmt, d, args, out, marks);
    } else if d.conv < |fmt| {
      st := Progress(d.conv + 1, d.arg, out + ['%', c], marks);
    } else {
      st := Progress(d.conv, d.arg, out + ['%'], marks);
    }
  }

  /** The integer conversions after the switch: the argument fetched and
      converted as the qualifier says, then `number`. */
  method IntConv(out: seq<char>, a: Arg, qualifier: Option<char>, base: int, width: int,
                 precision: int, flags: bv32) returns (o: seq<char>)
    requires base == 8 || base == 10 || base == 16
    ensures o == out + NumberText(NumArg(a.value, qualifier, Has(flags, SIGN)), base, width, precision, flags)
  {
    var num: int;
    if qualifier == Some('L') {
      num := S64(U64(a.value));
    } else if qualifier == Some('l') {
      num := U32(a.value);
      if Has(flags, SIGN) {
        num := S32(num);
      }
    } else if qualifier == Some('Z') {
      num := U32(a.value);
    } else if qualifier == Some('h') {
      num := a.value % TWO16;
      if Has(flags, SIGN) {
        num := S16(num);
      }
    } else {
      num := U32(a.value);
      if Has(flags, SIGN) {
        num := S32(num);
      }
    }
    var r := Number(out, num, base, width, precision, flags);
    o := r.value;
  }

  /** Parsing one conversion specification of `vsprintf`, from the '%' at
      `pos`: flags, width, precision and qualifier. */
  method ReadDirective(fmt: seq<char>, pos: nat, args: seq<Arg>, ai: nat) returns (d: Directive)
    requires pos < |fmt|
    ensures d == ParseDirective(fmt, pos + 1, args, ai)
  {
    var p, flags := ReadFlags(fmt, pos);
    var w, f := ReadWidth(fmt, p, flags, args, ai);
    var pr := ReadPrecision(fmt, w.pos, args, w.arg);
    p := pr.pos;
    var qualifier: Option<char> := None;
    if p < |fmt| && (fmt[p] == 'h' || fmt[p] == 'l' || fmt[p] == 'L' || fmt[p] == 'Z') {
      qualifier := Some(fmt[p]);
      p := p + 1;
    }
    d := Directive(f, w.value, pr.value, qualifier, p, pr.arg);
  }

  /** One conversion specification of `vsprintf`: parse, then the switch. */
  method Conversion(fmt: seq<char>, pos: nat, args: seq<Arg>, ai: nat, out: seq<char>, marks: seq<nat>)
    returns (st: Progress)
    requires pos < |fmt| && fmt[pos] == '%'
    ensures st == Step(fmt, args, Progress(pos, ai, out, marks))
  {
    var d := ReadDirective(fmt, pos, args, ai);
    st := Convert(fmt, d, args, out, marks);
    StepConversion(fmt, args, Progress(pos, ai, out, marks));
  }

  lemma StepConversion(fmt: seq<char>, args: seq<Arg>, st: Progress)
    requires st.pos < |fmt| && fmt[st.pos] == '%'
    ensures Step(fmt, args, st) == Render(fmt, ParseDirective(fmt, st.pos + 1, args, st.arg), args, st.out, st.marks)
  {
  }

  /** `vsprintf(buf, fmt, args)`: `fmt` is the format without its
      terminating NUL; the result is the buffer contents including the NUL
      written at the end, the length returned (the NUL excluded), and the
      output positions `%n` stored. */
  method Vsprintf(fmt: seq<char>, args: seq<Arg>) returns (buf: seq<char>, len: int, marks: seq<nat>)
    requires KString.NUL !in fmt
    ensures var r := Format(fmt, args, Progress(0, 0, [], []));
      buf == r.out + [KString.NUL] && len == |r.out| && marks == r.marks
  {
    var str: seq<char> := [];
    var pos: nat := 0;
    var ai: nat := 0;
    marks := [];
    while pos < |fmt|
      invariant pos <= |fmt|
      invariant Format(fmt, args, Progress(pos, ai, str, marks)) == Format(fmt, args, Progress(0, 0, [], []))
      decreases |fmt| - pos
    {
      if fmt[pos] != '%' {
        str := str + [fmt[pos]];
        pos := pos + 1;
        continue;
      }
      var st := Conversion(fmt, pos, args, ai, str, marks);
      pos, ai, str, marks := st.pos, st.arg, st.out, st.marks;
    }
    buf := str + [KString.NUL];
    len := |str|;
  }

  /* ---------------- properties of the format semantics ---------------- */

  /** Characters other than '%' are copied verbatim. */
  lemma {:induction false} FormatVerbatim(fmt: seq<char>, args: seq<Arg>, st: Progress)
    requires st.pos <= |fmt| && '%' !in fmt[st.pos..]
    ensures Format(fmt, args, st) == Progress(|fmt|, st.arg, st.out + fmt[st.pos..], st.marks)
    decreases |fmt| - st.pos
  {
    if st.pos < |fmt| {
      assert fmt[st.pos] == fmt[st.pos..][0];
      var next := Step(fmt, args, st);
      assert fmt[st.pos + 1..] == fmt[st.pos..][1..];
      FormatVerbatim(fmt, args, next);
      assert st.out + [fmt[st.pos]] + fmt[st.pos + 1..] == st.out + fmt[st.pos..];
    }
  }

  /** A format without conversions is its own output. */
  lemma FormatPlain(fmt: seq<char>, args: seq<Arg>)
    requires '%' !in fmt
    ensures Format(fmt, args, Progress(0, 0, [], [])) == Progress(|fmt|, 0, fmt, [])
  {
    assert fmt[0..] == fmt;
    FormatVerbatim(fmt, args, Progress(0, 0, [], []));
  }

  /** "%%" writes one '%' and takes no argument. */
  lemma PercentPercent(fmt: seq<char>, args: seq<Arg>, st: Progress)
    requires st.pos + 1 < |fmt| && fmt[st.pos] == '%' && fmt[st.pos + 1] == '%'
    ensures Step(fmt, args, st) == Progress(st.pos + 2, st.arg, st.out + ['%'], st.marks)
  {
    StepConversion(fmt, args, st);
    BareDirective(fmt, args, st);
    RenderPercent(fmt, Directive(0, -1, -1, None, st.pos + 1, st.arg), args, st.out, st.marks);
  }

  /** Rendering a `%%` directive writes one '%' and uses no argument. */
  lemma RenderPercent(fmt: seq<char>, d: Directive, args: seq<Arg>, out: seq<char>, marks: seq<nat>)
    requires d.conv < |fmt| && fmt[d.conv] == '%'
    ensures Render(fmt, d, args, out, marks) == Progress(d.conv + 1, d.arg, out + ['%'], marks)
  {
  }

  /** Rendering a `%s` directive writes the string field and uses one argument. */
  lemma RenderString(fmt: seq<char>, d: Directive, args: seq<Arg>, out: seq<char>, marks: seq<nat>)
    requires d.conv < |fmt| && fmt[d.conv] == 's'
    ensures Render(fmt, d, args, out, marks) ==
      Progress(d.conv + 1, d.arg + 1, out + StringField(StrOf(ArgAt(args, d.arg)), d.width, d.precision, Has(d.flags, LEFT)), marks)
  {
  }

  /** An unknown conversion character is written back after a '%'. */
  lemma UnknownConversion(fmt: seq<char>, args: seq<Arg>, st: Progress)
    requires st.pos + 1 < |fmt| && fmt[st.pos] == '%'
    requires var c := fmt[st.pos + 1];
      FlagOf(c) == 0 && !IsDigit(c) && c !in "*.hlLZcspn%" && !IsIntConv(c)
    ensures Step(fmt, args, st) == Progress(st.pos + 2, st.arg, st.out + ['%', fmt[st.pos + 1]], st.marks)
  {
    StepConversion(fmt, args, st);
    BareDirective(fmt, args, st);
  }

  /** A '%' that ends the format is written as is. */
  lemma TrailingPercent(fmt: seq<char>, args: seq<Arg>, st: Progress)
    requires st.pos + 1 == |fmt| && fmt[st.pos] == '%'
    ensures Step(fmt, args, st) == Progress(|fmt|, st.arg, st.out + ['%'], st.marks)
  {
    StepConversion(fmt, args, st);
  }

  /** A negative `*` width is taken by its absolute value and sets `LEFT`. */
  lemma NegativeStarWidth(fmt: seq<char>, pos: nat, flags: bv32, args: seq<Arg>, ai: nat)
    requires pos < |fmt| && fmt[pos] == '*' && IntArg(ArgAt(args, ai)) < 0
    ensures var (w, f) := ScanWidth(fmt, pos, flags, args, ai);
      w.value == -IntArg(ArgAt(args, ai)) > 0 && Has(f, LEFT) && w.pos == pos + 1 && w.arg == ai + 1
  {
  }

  /** `%s` prints at most `precision` characters of the string, up to its
      end, padded to the field width. */
  lemma StringFieldText(s: seq<char>, width: int, precision: int, left: bool)
    requires KString.NUL !in s
    ensures var n := if U32(precision) < |s| then U32(precision) else |s|;
      StringField(s, width, precision, left)
        == if left then s[..n] + Repeat(' ', width - n) else Repeat(' ', width - n) + s[..n]
  {
    var mem := s + [KString.NUL];
    KString.BoundedLengthMeaning(mem, U32(precision));
    var len := KString.BoundedLength(mem, U32(precision));
    assert mem[|s|] == KString.NUL;
    assert len <= |s|;
    assert forall i :: 0 <= i < |s| ==> mem[i] == s[i];
    assert len == if U32(precision) < |s| then U32(precision) else |s|;
    assert mem[..len] == s[..len];
  }

  /** A conversion character straight after the '%' leaves the directive
      without flags, width, precision or qualifier. */
  lemma BareDirective(fmt: seq<char>, args: seq<Arg>, st: Progress)
    requires st.pos + 1 < |fmt| && fmt[st.pos] == '%'
    requires var c := fmt[st.pos + 1]; FlagOf(c) == 0 && !IsDigit(c) && c !in "*.hlLZ"
    ensures ParseDirective(fmt, st.pos + 1, args, st.arg) == Directive(0, -1, -1, None, st.pos + 1, st.arg)
  {
  }

  /** "<NULL>" with no width or precision is printed as it is. */
  lemma NullField()
    ensures StringField("<NULL>", -1, -1, false) == "<NULL>"
  {
    StringFieldText("<NULL>", -1, -1, false);
    assert "<NULL>"[..6] == "<NULL>";
  }

  /** A null `%s` argument prints "<NULL>". */
  lemma NullString(fmt: seq<char>, args: seq<Arg>, st: Progress)
    requires st.pos + 1 < |fmt| && fmt[st.pos] == '%' && fmt[st.pos + 1] == 's'
    requires ArgAt(args, st.arg).value == 0
    ensures Step(fmt, args, st) == Progress(st.pos + 2, st.arg + 1, st.out + "<NULL>", st.marks)
  {
    StepConversion(fmt, args, st);
    BareDirective(fmt, args, st);
    RenderString(fmt, Directive(0, -1, -1, None, st.pos + 1, st.arg), args, st.out, st.marks);
    NullField();
  }

  /** `%d` of a value without width or precision: a '-' for negative values,
      then the decimal digits of its magnitude. */
  lemma DecimalText(v: int)
    requires -TWO63 <= v < TWO63
    ensures NumberText(v, 10, -1, -1, SIGN)
      == (if v < 0 then "-" else "") + DigitString(if v < 0 then -v else v, 10, false)
  {
    AdjustedFlags(SIGN);
    var digits := DigitString(if v < 0 then -v else v, 10, false);
    assert Magnitude(v, SIGN) == if v < 0 then -v else v;
    assert PrefixText(10, SIGN) == [];
    assert Repeat('0', Max(-1, |digits|) - |digits|) == [];
  }
}
