/** Two's-complement reinterpretation of a non-negative integer. */
module Utils {
  import opened Wrappers
  import opened Bits

  /** `signed_as(x, bits=bits, strict=strict)`: the low `bits` bits of `x`
      read as a two's-complement number. Python's `x & ((1 << bits) - 1)` is
      `x % Pow2(bits)` (Bits.AndLowMask) and `x & (1 << (bits - 1))` tests
      bit `bits - 1` (Bits.BitTest). A negative `x`, a strict `x` that does
      not fit, and a width of zero or less (a negative shift count in
      `1 << bits` or `1 << (bits - 1)`) are ValueError. */
  function SignedAs(x: int, bits: int, strict: bool): (r: Result<int>)
    ensures r.Err? <==> x < 0 || bits <= 0 || (strict && x >= Pow2(bits))
    ensures r.Err? ==> r.error == ValueError
  {
    if x < 0 then Err(ValueError)
    else if bits < 0 then Err(ValueError)
    else if strict && x >= Pow2(bits) then Err(ValueError)
    else if bits == 0 then Err(ValueError)
    else
      var y := x % Pow2(bits);
      Ok(if Bit(x, bits - 1) then y - Pow2(bits) else y)
  }

  /** The result is the low `bits` bits, less 2^bits exactly when they are
      at least 2^(bits-1). */
  lemma SignedAsCases(x: int, bits: int, strict: bool)
    requires SignedAs(x, bits, strict).Ok?
    ensures bits >= 1 && Pow2(bits) == 2 * Pow2(bits - 1)
    ensures var y := x % Pow2(bits);
      SignedAs(x, bits, strict).value == if y < Pow2(bits - 1) then y else y - Pow2(bits)
  {
    BitSplit(x, bits - 1);
  }

  /** The result lies in [-2^(bits-1), 2^(bits-1)). */
  lemma SignedAsRange(x: int, bits: int, strict: bool)
    requires SignedAs(x, bits, strict).Ok?
    ensures bits >= 1
    ensures -(Pow2(bits - 1) as int) <= SignedAs(x, bits, strict).value < Pow2(bits - 1)
  {
    SignedAsCases(x, bits, strict);
  }

  /** The result is congruent to x modulo 2^bits. */
  lemma SignedAsCongruent(x: int, bits: int, strict: bool)
    requires SignedAs(x, bits, strict).Ok?
    ensures bits >= 1
    ensures (SignedAs(x, bits, strict).value - x) % Pow2(bits) == 0
  {
    SignedAsCases(x, bits, strict);
    ModCongruent(x, Pow2(bits));
  }

  /** In strict mode a value below 2^(bits-1) is returned unchanged and a
      value in [2^(bits-1), 2^bits) comes back as x - 2^bits. */
  lemma SignedAsStrict(x: int, bits: int)
    requires bits >= 1 && 0 <= x < Pow2(bits)
    ensures SignedAs(x, bits, true) == Ok(if x < Pow2(bits - 1) then x else x - Pow2(bits))
  {
    SignedAsCases(x, bits, true);
    DivModUnique(x, Pow2(bits), 0, x);
  }
}
