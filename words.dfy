/** Machine integers of the VM: `Value` is a 64-bit `size_t`, and arithmetic goes through 32-bit `int` casts. */
module Words {

  const WORD_MODULUS: int := 0x1_0000_0000_0000_0000
  const INT_MODULUS: int := 0x1_0000_0000
  const INT_MIN: int := -0x8000_0000
  const INT_MAX: int := 0x7fff_ffff

  /** A `size_t` value. */
  type Word = x: int | 0 <= x < WORD_MODULUS

  /** A value of the 32-bit `int` type. */
  type Int32 = x: int | INT_MIN <= x <= INT_MAX

  /** `size_t` arithmetic: the result is taken modulo 2^64, and this is also the conversion of an `int` to `size_t`. */
  function Wrap(x: int): (w: Word)
    ensures 0 <= x < WORD_MODULUS ==> w == x
    ensures -WORD_MODULUS <= x < 0 ==> w == x + WORD_MODULUS
    ensures WORD_MODULUS <= x < 2 * WORD_MODULUS ==> w == x - WORD_MODULUS
  {
    x % WORD_MODULUS
  }

  /** The two's-complement reading of the low 32 bits of `v`: the C++ `(int)` cast of a `size_t`,
      and the Python helper `to_int`. */
  function ToInt(v: int): (i: Int32)
    ensures (i - v) % INT_MODULUS == 0
  {
    var m := v % INT_MODULUS;
    if m >= 0x8000_0000 then m - INT_MODULUS else m
  }

  /** `to_int` is the identity on values that already fit in 32 bits. */
  lemma ToIntOfInt32(v: int)
    requires INT_MIN <= v <= INT_MAX
    ensures ToInt(v) == v
  {
  }

  /** `ToInt` gives the unique 32-bit value congruent to its argument modulo 2^32. */
  lemma ToIntUnique(v: int, i: int)
    requires INT_MIN <= i <= INT_MAX
    requires (i - v) % INT_MODULUS == 0
    ensures ToInt(v) == i
  {
    var j := ToInt(v);
    assert (i - j) % INT_MODULUS == 0 by {
      assert i - j == (i - v) - (j - v);
    }
    assert -INT_MODULUS < i - j < INT_MODULUS;
  }

  /** Storing an `int` in a `size_t` slot and reading it back as `int` returns it unchanged. */
  lemma ToIntOfWrap(i: Int32)
    ensures ToInt(Wrap(i)) == i
  {
    ToIntUnique(Wrap(i), i);
  }

  /** C++ division of `int`s, which truncates toward zero (Dafny's `/` is Euclidean). */
  function TruncDiv(a: int, b: int): (q: int)
    requires b != 0
    ensures a >= 0 && b > 0 ==> q == a / b
    ensures (a >= 0) == (b >= 0) ==> q >= 0
    ensures (a >= 0) != (b >= 0) ==> q <= 0
  {
    var q := (if a >= 0 then a else -a) / (if b >= 0 then b else -b);
    if (a >= 0) == (b >= 0) then q else -q
  }

  /** Python 2 division of integers, which rounds toward negative infinity. */
  function FloorDiv(a: int, b: int): (q: int)
    requires b != 0
    ensures q * b <= a < q * b + b || q * b + b < a <= q * b
  {
    if b > 0 then a / b else (-a) / (-b)
  }

  /** The two division conventions differ on operands of opposite sign with a remainder. */
  lemma DivisionsDiffer()
    ensures TruncDiv(-7, 2) == -3 && FloorDiv(-7, 2) == -4
  {
  }
}
