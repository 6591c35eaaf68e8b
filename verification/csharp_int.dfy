/** C#'s `int`: a 32-bit two's-complement integer. Unity compiles in an
    unchecked context, so `+` and `++` wrap around instead of throwing. */
module CSharpInt {
  const MIN_VALUE: int := -0x8000_0000
  const MAX_VALUE: int := 0x7FFF_FFFF
  const MODULUS: int := 0x1_0000_0000

  predicate InRange(x: int) {
    MIN_VALUE <= x <= MAX_VALUE
  }

  type Int32 = x: int | InRange(x)

  /** The value an unchecked C# `int` operation yields when the mathematical
      result is `x`: the unique `Int32` congruent to `x` modulo 2^32. */
  function Wrap(x: int): (r: Int32)
    ensures InRange(x) <==> r == x
    ensures (x - r) % MODULUS == 0
  {
    var q := (x - MIN_VALUE) / MODULUS;
    assert x - MIN_VALUE == q * MODULUS + (x - MIN_VALUE) % MODULUS;
    (x - MIN_VALUE) % MODULUS + MIN_VALUE
  }

  /** Adding one to anything but `MAX_VALUE` is exact; `MAX_VALUE + 1` wraps to `MIN_VALUE`. */
  lemma IncrementWraps(x: Int32)
    ensures x < MAX_VALUE ==> Wrap(x + 1) == x + 1
    ensures x == MAX_VALUE ==> Wrap(x + 1) == MIN_VALUE
  {
    if x < MAX_VALUE {
      assert InRange(x);
      assert InRange(x + 1);
    }
  }
}
