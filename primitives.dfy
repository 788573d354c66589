/** Machine integers, the integer division of the source language, ASCII case
    folding and the Option/Result wrappers shared by the other modules. */
module Primitives {

  const U32_MAX: int := 0xFFFF_FFFF

  /** Rust's `u32`. */
  type u32 = x: int | 0 <= x <= U32_MAX

  /** Rust's `u32 as i32`: the same 32 bits read as two's complement. */
  function U32AsI32(u: u32): (i: int)
    ensures -0x8000_0000 <= i <= 0x7FFF_FFFF
    ensures (i - u) % 0x1_0000_0000 == 0
    ensures u <= 0x7FFF_FFFF ==> i == u
  {
    if u <= 0x7FFF_FFFF then u else u - 0x1_0000_0000
  }

  datatype Option<+T> = None | Some(value: T)

  datatype Result<+T, +E> = Ok(value: T) | Err(error: E)

  /** Rust's `/` on signed integers: the quotient is truncated toward zero,
      so it differs from floor division exactly on the negative numbers that
      are not multiples of the divisor. */
  function TruncDiv(a: int, b: int): (q: int)
    requires b > 0
    ensures a >= 0 || a % b == 0 ==> q == a / b
    ensures a < 0 && a % b != 0 ==> q == a / b + 1
  {
    if a >= 0 then a / b
    else
      NegDiv(-a, b);
      -((-a) / b)
  }

  /** Quotient and remainder are determined by the division equation. */
  lemma DivModUnique(a: int, b: int, q: int, r: int)
    requires b > 0 && 0 <= r < b && a == q * b + r
    ensures a / b == q && a % b == r
  {
    var q0, r0 := a / b, a % b;
    assert q0 * b + r0 == a;
    if q > q0 {
      MulAtLeast(q - q0, b);
    } else if q < q0 {
      MulAtLeast(q0 - q, b);
    }
  }

  lemma MulAtLeast(k: int, b: int)
    requires k >= 1 && b > 0
    ensures k * b >= b
  {
  }

  /** Floor division of a negated dividend. */
  lemma NegDiv(m: int, b: int)
    requires m > 0 && b > 0
    ensures m % b == 0 ==> (-m) / b == -(m / b) && (-m) % b == 0
    ensures m % b != 0 ==> (-m) / b == -(m / b) - 1 && (-m) % b != 0
  {
    var q, r := m / b, m % b;
    assert m == q * b + r;
    if r == 0 {
      DivModUnique(-m, b, -q, 0);
    } else {
      assert -m == (-q - 1) * b + (b - r);
      DivModUnique(-m, b, -q - 1, b - r);
    }
  }

  /** Dividing a multiple of `b` by `b`, truncating or flooring, gives the
      factor back. */
  lemma {:induction false} DivOfMultiple(k: int, b: int)
    requires b > 0
    ensures (k * b) / b == k && (k * b) % b == 0
    ensures TruncDiv(k * b, b) == k
  {
    DivModUnique(k * b, b, k, 0);
  }

  predicate IsUpper(c: char)
  {
    'A' <= c <= 'Z'
  }

  /** ASCII lower-casing of one character. */
  function LowerChar(c: char): (d: char)
    ensures !IsUpper(d)
    ensures IsUpper(c) ==> d as int == c as int + 32
    ensures !IsUpper(c) ==> d == c
  {
    if IsUpper(c) then (c as int + 32) as char else c
  }

  /** `str::to_lowercase`, restricted to ASCII letters. */
  function ToLower(s: string): (t: string)
    ensures |t| == |s|
    ensures forall i :: 0 <= i < |s| ==> t[i] == LowerChar(s[i])
  {
    if s == [] then [] else [LowerChar(s[0])] + ToLower(s[1..])
  }

  /** A string without upper-case letters is its own lower-case form. */
  lemma {:induction false} ToLowerOfLower(s: string)
    requires forall i :: 0 <= i < |s| ==> !IsUpper(s[i])
    ensures ToLower(s) == s
  {
    if s != [] {
      ToLowerOfLower(s[1..]);
    }
  }

  /** Lower-casing twice is lower-casing once. */
  lemma ToLowerIdempotent(s: string)
    ensures ToLower(ToLower(s)) == ToLower(s)
  {
    ToLowerOfLower(ToLower(s));
  }
}
