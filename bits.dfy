/** Python's integer bit operators on unbounded integers.

    Python integers behave as infinite two's-complement bit strings:
    `&`, `|`, `^` act bit by bit (a negative number has infinitely many
    leading ones), `x >> n` is floor division by 2^n, `x << n` is
    multiplication by 2^n, and a negative shift count raises ValueError.
    Dafny's `/` and `%` with a positive divisor are floor division and a
    non-negative remainder, which is exactly Python's `>>` and `& (2^k - 1)`. */
module Bits {
  import opened Wrappers

  function Pow2(n: nat): (r: nat)
    ensures r >= 1
  {
    if n == 0 then 1 else 2 * Pow2(n - 1)
  }

  lemma {:induction false} Pow2Add(a: nat, b: nat)
    ensures Pow2(a + b) == Pow2(a) * Pow2(b)
  {
    if a > 0 {
      Pow2Add(a - 1, b);
    }
  }

  lemma {:induction false} Pow2Mono(a: nat, b: nat)
    requires a <= b
    ensures Pow2(a) <= Pow2(b)
  {
    if a < b {
      Pow2Mono(a, b - 1);
    }
  }

  /** 2^8 is 256: one byte. */
  lemma Pow2Byte()
    ensures Pow2(8) == 256
  {
  }

  /** The powers of two of the byte widths 1, 2, 4 and 8. */
  lemma Pow2Widths()
    ensures Pow2(8) == 256 && Pow2(16) == 65536 && Pow2(32) == 4294967296
    ensures Pow2(64) == 18446744073709551616
  {
    Pow2Byte();
    hide Pow2;
    Pow2Add(8, 8); Pow2Add(16, 16); Pow2Add(32, 32);
  }

  /** The powers of two the simulator's widths and field positions use. */
  lemma Pow2Table()
    ensures Pow2(1) == 2 && Pow2(2) == 4 && Pow2(3) == 8 && Pow2(4) == 16
    ensures Pow2(5) == 32 && Pow2(6) == 64 && Pow2(7) == 128
    ensures Pow2(9) == 512 && Pow2(10) == 1024 && Pow2(13) == 8192
    ensures Pow2(8) == 256 && Pow2(11) == 2048 && Pow2(12) == 4096
    ensures Pow2(15) == 32768 && Pow2(16) == 65536 && Pow2(19) == 524288
    ensures Pow2(20) == 1048576 && Pow2(21) == 2097152 && Pow2(25) == 33554432
    ensures Pow2(31) == 2147483648 && Pow2(32) == 4294967296
    ensures Pow2(63) == 9223372036854775808 && Pow2(64) == 18446744073709551616
  {
    assert Pow2(1) == 2 && Pow2(2) == 4 && Pow2(3) == 8 && Pow2(4) == 16;
    hide Pow2;
    Pow2Add(4, 4); Pow2Add(4, 1); Pow2Add(7, 4); Pow2Add(8, 4);
    Pow2Add(8, 7); Pow2Add(8, 8); Pow2Add(16, 3); Pow2Add(16, 4); Pow2Add(16, 5);
    Pow2Add(16, 9); Pow2Add(16, 15); Pow2Add(16, 16); Pow2Add(32, 31); Pow2Add(32, 32);
  }

  lemma {:induction false} MulGe(k: int, d: int)
    requires k >= 1 && d > 0
    ensures k * d >= d
  {
    if k > 1 {
      MulGe(k - 1, d);
      assert k * d == (k - 1) * d + d;
    }
  }

  /** Dividing a non-negative number by a positive one never enlarges it. */
  lemma DivLe(x: int, d: int)
    requires x >= 0 && d > 0
    ensures 0 <= x / d <= x
  {
    var q := x / d;
    if q >= 1 {
      MulGe(q, d);
      assert x == q * d + x % d;
      assert q * d >= q by { MulGe(d, q); MulComm(q, d); }
    }
  }

  /** Quotient and remainder are unique: this is how every field
      extraction below is proved. */
  lemma DivModUnique(x: int, d: int, q: int, r: int)
    requires d > 0 && 0 <= r < d && x == q * d + r
    ensures x / d == q && x % d == r
  {
    var q', r' := x / d, x % d;
    assert x == q' * d + r';
    assert (q - q') * d == q * d - q' * d;
    if q > q' {
      MulGe(q - q', d);
    } else if q < q' {
      assert (q' - q) * d == q' * d - q * d;
      MulGe(q' - q, d);
    }
  }

  lemma MulTwice(p: int, y: int)
    ensures 2 * (p * y) == (2 * p) * y
  {
  }

  lemma MulComm(p: int, y: int)
    ensures p * y == y * p
  {
  }

  lemma MulAssoc(a: int, b: int, c: int)
    ensures (a * b) * c == a * (b * c)
  {
  }

  lemma DivHalfThen(x: int, p: int)
    requires p > 0
    ensures (x / 2) / p == x / (2 * p)
    ensures x % (2 * p) == 2 * ((x / 2) % p) + x % 2
  {
    var q, r := (x / 2) / p, (x / 2) % p;
    assert x / 2 == q * p + r;
    assert x == q * (2 * p) + (2 * r + x % 2);
    DivModUnique(x, 2 * p, q, 2 * r + x % 2);
  }

  /** Dividing by a and then by b is dividing by a * b; the remainder
      modulo a * b is the remainder modulo a below a times the next digit. */
  lemma DivModNest(x: int, a: int, b: int)
    requires a > 0 && b > 0
    ensures (x / a) / b == x / (a * b)
    ensures x % (a * b) == a * ((x / a) % b) + x % a
  {
    var q, r := (x / a) / b, (x / a) % b;
    var lo := a * r + x % a;
    assert x == q * (a * b) + lo by {
      assert x / a == q * b + r;
      assert x == a * (x / a) + x % a;
      Regroup(a, q, b, r);
    }
    assert 0 <= lo < a * b by {
      MulBelow(a, r, b);
    }
    DivModUnique(x, a * b, q, lo);
  }

  lemma Regroup(a: int, q: int, b: int, r: int)
    ensures a * (q * b + r) == q * (a * b) + a * r
  {
  }

  lemma MulBelow(a: int, r: int, b: int)
    requires a > 0 && 0 <= r < b
    ensures 0 <= a * r <= a * b - a
  {
    if r > 0 {
      MulGe(r, a);
      MulComm(r, a);
    }
    if r < b - 1 {
      MulGe(b - 1 - r, a);
      MulComm(b - 1 - r, a);
      assert a * (b - 1 - r) == a * b - a - a * r;
    }
  }

  /** x % p and x % p - p are both congruent to x modulo p. */
  lemma ModCongruent(x: int, p: int)
    requires p > 0
    ensures (x % p - x) % p == 0
    ensures (x % p - p - x) % p == 0
  {
    var q := x / p;
    assert x == q * p + x % p;
    assert x % p - x == (-q) * p;
    DivModUnique(x % p - x, p, -q, 0);
    assert x % p - p - x == (-q - 1) * p;
    DivModUnique(x % p - p - x, p, -q - 1, 0);
  }

  lemma SumOfMultiples(a: int, b: int, p: int)
    requires p > 0 && a % p == 0 && b % p == 0
    ensures (a + b) % p == 0
  {
    var qa, qb := a / p, b / p;
    assert a == qa * p && b == qb * p;
    assert a + b == (qa + qb) * p;
    DivModUnique(a + b, p, qa + qb, 0);
  }

  /** The low k+1 bits of x are bit k above the low k bits. */
  lemma BitSplit(x: int, k: nat)
    ensures Pow2(k + 1) == 2 * Pow2(k)
    ensures x % Pow2(k + 1) == ((x / Pow2(k)) % 2) * Pow2(k) + x % Pow2(k)
  {
    var p := Pow2(k);
    var a, b := x / p, x % p;
    assert x == a * p + b;
    assert a == 2 * (a / 2) + a % 2;
    assert a * p == (a / 2) * (2 * p) + (a % 2) * p by {
      MulTwice(p, a / 2);
      MulComm(p, a / 2);
      MulComm(2 * p, a / 2);
    }
    assert 0 <= (a % 2) * p <= p;
    DivModUnique(x, 2 * p, a / 2, (a % 2) * p + b);
  }

  /** Python's `(x >> lo) & (2**width - 1)`: the `width`-bit field of `x`
      that starts at bit `lo`. */
  function Field(x: int, lo: nat, width: nat): (r: nat)
    ensures r < Pow2(width)
  {
    (x / Pow2(lo)) % Pow2(width)
  }

  /** A field of `x >> a` is the field of `x` that starts `a` bits higher. */
  lemma FieldShift(x: int, a: nat, lo: nat, width: nat)
    ensures Field(x / Pow2(a), lo, width) == Field(x, a + lo, width)
  {
    DivModNest(x, Pow2(a), Pow2(lo));
    Pow2Add(a, lo);
  }

  /** Python's `x & (1 << j)` is non-zero: bit `j` of `x` is set. */
  predicate Bit(x: int, j: nat) {
    (x / Pow2(j)) % 2 == 1
  }

  // ---------------------------------------------------------------------
  // Bitwise operators on unbounded integers

  /** 0 and -1 are the two "all bits equal" integers: an endless run of 0s or of 1s. */
  predicate IsSign(x: int) {
    x == 0 || x == -1
  }

  /** The number of bits that differ from the sign bit: x for x >= 0, ~x = -x-1 for x < 0. */
  function Mag(x: int): nat {
    if x >= 0 then x else -x - 1
  }

  lemma MagHalf(x: int)
    ensures Mag(x / 2) == Mag(x) / 2
    ensures !IsSign(x) ==> Mag(x / 2) < Mag(x)
  {
  }

  /** Python's `a & b`. */
  function BitAnd(a: int, b: int): int
    decreases Mag(a) + Mag(b)
  {
    if IsSign(a) && IsSign(b) then
      (if a == -1 && b == -1 then -1 else 0)
    else
      MagHalf(a); MagHalf(b);
      2 * BitAnd(a / 2, b / 2) + (if a % 2 == 1 && b % 2 == 1 then 1 else 0)
  }

  /** Python's `a | b`. */
  function BitOr(a: int, b: int): int
    decreases Mag(a) + Mag(b)
  {
    if IsSign(a) && IsSign(b) then
      (if a == -1 || b == -1 then -1 else 0)
    else
      MagHalf(a); MagHalf(b);
      2 * BitOr(a / 2, b / 2) + (if a % 2 == 1 || b % 2 == 1 then 1 else 0)
  }

  /** Python's `a ^ b`. */
  function BitXor(a: int, b: int): int
    decreases Mag(a) + Mag(b)
  {
    if IsSign(a) && IsSign(b) then
      (if a != b then -1 else 0)
    else
      MagHalf(a); MagHalf(b);
      2 * BitXor(a / 2, b / 2) + (if a % 2 != b % 2 then 1 else 0)
  }

  /** Python's `x << n`: a negative count raises ValueError. */
  function ShiftLeft(x: int, n: int): (r: Result<int>)
    ensures r.Err? <==> n < 0
  {
    if n < 0 then Err(ValueError) else Ok(x * Pow2(n))
  }

  /** Python's `x >> n` (rounds towards minus infinity): a negative count raises ValueError. */
  function ShiftRight(x: int, n: int): (r: Result<int>)
    ensures r.Err? <==> n < 0
  {
    if n < 0 then Err(ValueError) else Ok(x / Pow2(n))
  }

  // ---------------------------------------------------------------------
  // Masks: Python's `x & (2**k - 1)` and `(x & M) >> s` are Dafny's `%` and Field

  lemma {:induction false} AndZero(x: int)
    ensures BitAnd(x, 0) == 0
    decreases Mag(x)
  {
    if !IsSign(x) {
      MagHalf(x);
      AndZero(x / 2);
    }
  }

  lemma {:induction false} OrZero(x: int)
    ensures BitOr(x, 0) == x
    decreases Mag(x)
  {
    if !IsSign(x) {
      MagHalf(x);
      OrZero(x / 2);
    }
  }

  /** `x & (2**k - 1)` is `x mod 2**k`, for negative `x` too. */
  lemma {:induction false} AndLowMask(x: int, k: nat)
    ensures BitAnd(x, Pow2(k) - 1) == x % Pow2(k)
    decreases k
  {
    if k == 0 {
      AndZero(x);
    } else {
      var m := Pow2(k) - 1;
      assert m / 2 == Pow2(k - 1) - 1 && m % 2 == 1;
      assert !IsSign(m);
      assert BitAnd(x, m) == 2 * BitAnd(x / 2, m / 2) + x % 2;
      AndLowMask(x / 2, k - 1);
      DivHalfThen(x, Pow2(k - 1));
    }
  }

  /** One step of `&` on a mask that is not 0 or -1: the low bit, then
      the rest one bit down. */
  lemma AndStep(x: int, b: int)
    requires !IsSign(b)
    ensures BitAnd(x, b) == 2 * BitAnd(x / 2, b / 2) + (if x % 2 == 1 && b % 2 == 1 then 1 else 0)
  {
  }

  /** Masking with a mask shifted left by `s` is shifting the unshifted mask. */
  lemma {:induction false} AndShifted(x: int, m: int, s: nat)
    requires m >= 1
    ensures BitAnd(x, m * Pow2(s)) == Pow2(s) * BitAnd(x / Pow2(s), m)
    decreases s
  {
    if s > 0 {
      var p := Pow2(s - 1);
      var half := m * p;
      var big := m * Pow2(s);
      assert Pow2(s) == 2 * p;
      MulTwice(p, m);
      MulComm(p, m);
      MulComm(2 * p, m);
      assert big == 2 * half && half >= 1;
      AndStep(x, big);
      hide BitAnd;
      AndShifted(x / 2, m, s - 1);
      DivHalfThen(x, p);
      var y := BitAnd(x / Pow2(s), m);
      assert BitAnd(x, big) == 2 * (p * y);
      MulTwice(p, y);
    }
  }

  /** Python's `(x & M) >> lo` with the contiguous mask M = (2**width - 1) << lo is Field(x, lo, width). */
  lemma MaskedField(x: int, lo: nat, width: nat)
    ensures BitAnd(x, (Pow2(width) - 1) * Pow2(lo)) / Pow2(lo) == Field(x, lo, width)
  {
    hide BitAnd;
    var p, m := Pow2(lo), Pow2(width) - 1;
    if width == 0 {
      AndZero(x);
      assert m * p == 0;
      assert Field(x, lo, width) == 0;
    } else {
      assert Pow2(width) == 2 * Pow2(width - 1);
      AndShifted(x, m, lo);
      AndLowMask(x / p, width);
      var y := Field(x, lo, width);
      assert BitAnd(x / p, m) == y;
      MulComm(p, y);
      assert BitAnd(x, m * p) == y * p;
      DivModUnique(y * p, p, y, 0);
    }
  }

  /** Python's `x & (1 << j)` is truthy exactly when bit j is set. */
  lemma BitTest(x: int, j: nat)
    ensures BitAnd(x, Pow2(j)) == (if Bit(x, j) then Pow2(j) else 0)
  {
    AndShifted(x, 1, j);
    AndLowMask(x / Pow2(j), 1);
  }

  /** `|` of a value shifted left by k and a value below 2**k is their sum:
      this is what makes the instruction encoders add up their fields. */
  lemma {:induction false} OrDisjoint(c: int, b: int, k: nat)
    requires 0 <= b < Pow2(k)
    ensures BitOr(c * Pow2(k), b) == c * Pow2(k) + b
    decreases k
  {
    if k == 0 {
      OrZero(c);
    } else {
      var x := c * Pow2(k);
      assert x == 2 * (c * Pow2(k - 1));
      assert x / 2 == c * Pow2(k - 1) && x % 2 == 0;
      if !(IsSign(x) && IsSign(b)) {
        OrDisjoint(c, b / 2, k - 1);
      }
    }
  }

  /** `|` commutes with a common left shift. */
  lemma {:induction false} OrShifted(x: int, y: int, s: nat)
    ensures BitOr(x * Pow2(s), y * Pow2(s)) == Pow2(s) * BitOr(x, y)
    decreases s
  {
    if s > 0 {
      var p := Pow2(s - 1);
      var a, b := x * p, y * p;
      MulTwice(p, x);
      MulTwice(p, y);
      MulComm(x, 2 * p);
      MulComm(y, 2 * p);
      MulComm(x, p);
      MulComm(y, p);
      assert x * Pow2(s) == 2 * a && y * Pow2(s) == 2 * b;
      OrShifted(x, y, s - 1);
      OrDouble(a, b);
      MulTwice(p, BitOr(x, y));
    }
  }

  /** Doubling both operands of `|` doubles the result. */
  lemma OrDouble(a: int, b: int)
    ensures BitOr(2 * a, 2 * b) == 2 * BitOr(a, b)
  {
    assert (2 * a) / 2 == a && (2 * a) % 2 == 0;
    assert (2 * b) / 2 == b && (2 * b) % 2 == 0;
  }

  /** Or-ing a w-bit field f shifted to bit lo into a value whose bits below
      lo + w are clear adds it: the step every instruction encoder repeats. */
  lemma OrField(c: int, f: int, lo: nat, w: nat)
    requires 0 <= f < Pow2(w)
    ensures BitOr(c * Pow2(lo + w), f * Pow2(lo)) == (c * Pow2(w) + f) * Pow2(lo)
  {
    Pow2Add(w, lo);
    assert c * Pow2(lo + w) == (c * Pow2(w)) * Pow2(lo);
    OrShifted(c * Pow2(w), f, lo);
    OrDisjoint(c, f, w);
    MulComm(Pow2(lo), c * Pow2(w) + f);
  }

  /** The w-bit field at lo of a word built as high bits, the field and low
      bits below lo is that field: the step every decoder repeats. */
  lemma FieldOfSum(c: int, f: int, low: int, lo: nat, w: nat)
    requires 0 <= f < Pow2(w) && 0 <= low < Pow2(lo)
    ensures Field(c * Pow2(lo + w) + f * Pow2(lo) + low, lo, w) == f
  {
    Pow2Add(w, lo);
    var x := c * Pow2(lo + w) + f * Pow2(lo) + low;
    assert c * Pow2(lo + w) == (c * Pow2(w)) * Pow2(lo);
    assert x == (c * Pow2(w) + f) * Pow2(lo) + low;
    DivModUnique(x, Pow2(lo), c * Pow2(w) + f, low);
    DivModUnique(c * Pow2(w) + f, Pow2(w), c, f);
  }

  /** The same, for a word already known to have that shape. */
  lemma FieldAt(x: int, c: int, f: int, low: int, lo: nat, w: nat)
    requires 0 <= f < Pow2(w) && 0 <= low < Pow2(lo)
    requires x == c * Pow2(lo + w) + f * Pow2(lo) + low
    ensures Field(x, lo, w) == f
  {
    FieldOfSum(c, f, low, lo, w);
  }

  /** Or-ing a w-bit field f shifted to bit lo into a value whose bits lo
      to lo + w - 1 are clear adds it, whatever lies below lo: the step a
      decoder takes when it puts an immediate's pieces back out of order. */
  lemma {:induction false} OrInto(hi: int, f: int, low: int, lo: nat, w: nat)
    requires 0 <= f < Pow2(w) && 0 <= low < Pow2(lo)
    ensures BitOr(hi * Pow2(lo + w) + low, f * Pow2(lo)) == hi * Pow2(lo + w) + f * Pow2(lo) + low
    decreases lo
  {
    if lo == 0 {
      OrIntoBase(hi, f, low, w);
    } else {
      assert low / 2 < Pow2(lo - 1);
      hide BitOr, Pow2;
      OrInto(hi, f, low / 2, lo - 1, w);
      OrIntoStep(hi, f, low, lo, w);
    }
  }

  /** The same, for operands already known to have that shape. */
  lemma OrIntoAt(x: int, y: int, hi: int, f: int, low: int, lo: nat, w: nat)
    requires 0 <= f < Pow2(w) && 0 <= low < Pow2(lo)
    requires x == hi * Pow2(lo + w) + low && y == f * Pow2(lo)
    ensures BitOr(x, y) == x + y
  {
    OrInto(hi, f, low, lo, w);
  }

  lemma OrIntoBase(hi: int, f: int, low: int, w: nat)
    requires 0 <= f < Pow2(w) && 0 <= low < Pow2(0)
    ensures BitOr(hi * Pow2(0 + w) + low, f * Pow2(0)) == hi * Pow2(0 + w) + f * Pow2(0) + low
  {
    OrField(hi, f, 0, w);
  }

  /** One bit of OrInto: the low bit of the sum, then the rest one bit down. */
  lemma OrIntoStep(hi: int, f: int, low: int, lo: nat, w: nat)
    requires lo > 0 && 0 <= f < Pow2(w) && 0 <= low < Pow2(lo)
    requires BitOr(hi * Pow2(lo - 1 + w) + low / 2, f * Pow2(lo - 1))
             == hi * Pow2(lo - 1 + w) + f * Pow2(lo - 1) + low / 2
    ensures BitOr(hi * Pow2(lo + w) + low, f * Pow2(lo)) == hi * Pow2(lo + w) + f * Pow2(lo) + low
  {
    var q, p := Pow2(lo - 1 + w), Pow2(lo - 1);
    assert Pow2(lo + w) == 2 * q && Pow2(lo) == 2 * p;
    hide Pow2;
    assert hi * Pow2(lo + w) == 2 * (hi * q) by {
      MulTwice(q, hi);
      MulComm(q, hi);
      MulComm(2 * q, hi);
    }
    assert f * Pow2(lo) == 2 * (f * p) by {
      MulTwice(p, f);
      MulComm(p, f);
      MulComm(2 * p, f);
    }
    hide BitOr;
    OrHalves(hi * Pow2(lo + w) + low, f * Pow2(lo), hi * q + low / 2, f * p, low % 2);
  }

  /** `|` of an even number and any other whose halves `|` without carry
      is their sum. */
  lemma OrHalves(x: int, y: int, a: int, b: int, r: int)
    requires x == 2 * a + r && 0 <= r < 2 && y == 2 * b && b >= 0
    requires BitOr(a, b) == a + b
    ensures BitOr(x, y) == x + y
  {
    assert x / 2 == a && x % 2 == r;
    assert y / 2 == b && y % 2 == 0;
  }

  /** A field of w1 + w2 bits is its upper w2 bits above its lower w1 bits. */
  lemma FieldSplit(x: int, lo: nat, w1: nat, w2: nat)
    ensures Field(x, lo, w1 + w2) == Field(x, lo + w1, w2) * Pow2(w1) + Field(x, lo, w1)
  {
    var y := x / Pow2(lo);
    Pow2Add(w1, w2);
    Pow2Add(lo, w1);
    DivModNest(x, Pow2(lo), Pow2(w1));
    DivModNest(y, Pow2(w1), Pow2(w2));
    MulComm(Pow2(w1), (y / Pow2(w1)) % Pow2(w2));
  }

  /** On k-bit non-negative operands, `&`, `|` and `^` stay k-bit and non-negative. */
  lemma {:induction false} BitwiseBounded(a: int, b: int, k: nat)
    requires 0 <= a < Pow2(k) && 0 <= b < Pow2(k)
    ensures 0 <= BitAnd(a, b) < Pow2(k)
    ensures 0 <= BitOr(a, b) < Pow2(k)
    ensures 0 <= BitXor(a, b) < Pow2(k)
    decreases k
  {
    if k > 0 && !(IsSign(a) && IsSign(b)) {
      BitwiseBounded(a / 2, b / 2, k - 1);
    }
  }

  /** `a & b` with `a >= 0` lies between 0 and `a`, whatever the sign of `b`. */
  lemma {:induction false} AndNonNegative(a: int, b: int)
    requires a >= 0
    ensures 0 <= BitAnd(a, b) <= a
    decreases Mag(a) + Mag(b)
  {
    if !(IsSign(a) && IsSign(b)) {
      MagHalf(a); MagHalf(b);
      AndNonNegative(a / 2, b / 2);
    }
  }
}
