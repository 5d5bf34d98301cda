/** Go value types the library relies on: `uint64` with its wrap-around
    arithmetic, and pointers that may be nil. */
module GoTypes {

  /** 2^64: Go's `uint64` arithmetic is arithmetic modulo this number. */
  const Modulus: int := 0x1_0000_0000_0000_0000

  type u64 = x: int | 0 <= x < Modulus

  /** A pointer that may be nil (`*rate.Limiter`, `*Stat`, an `error`). */
  datatype Option<+T> = None | Some(value: T)

  /** The `uint64` that an unbounded integer result is truncated to. */
  function Wrap(x: int): u64
  {
    x % Modulus
  }

  /** Go's `a + b` on `uint64`: the sum, less 2^64 when it overflows. */
  function Add(a: u64, b: u64): (r: u64)
    ensures r == a + b || r == a + b - Modulus
  {
    if a + b < Modulus then a + b else a + b - Modulus
  }

  /** Go's `a - b` on `uint64`: the unique `r` with `b + r == a`. */
  function Sub(a: u64, b: u64): (r: u64)
    ensures Add(b, r) == a
    ensures b <= a ==> r == a - b
  {
    if b <= a then a - b else a - b + Modulus
  }

  /** A `uint64` is its own truncation. */
  lemma WrapId(x: u64)
    ensures Wrap(x) == x
  {
  }

  /** `Add` is the truncated sum. */
  lemma AddIsWrap(a: u64, b: u64)
    ensures Add(a, b) == Wrap(a + b)
  {
    assert a + b >= Modulus ==> Wrap(a + b) == a + b - Modulus;
  }

  /** `Sub` is the truncated difference. */
  lemma SubIsWrap(a: u64, b: u64)
    ensures Sub(a, b) == Wrap(a - b)
  {
    assert b > a ==> Wrap(a - b) == a - b + Modulus;
  }

  /** Truncating part-way through a sum does not change the truncated total. */
  lemma WrapAdd(x: int, y: int)
    ensures Wrap(Wrap(x) + y) == Wrap(x + y)
  {
    var q := x / Modulus;
    assert x == q * Modulus + Wrap(x);
    assert Wrap(x) + y == (x + y) - q * Modulus;
    ModShift(x + y, -q);
  }

  /** Shifting by whole multiples of the modulus leaves the residue alone. */
  lemma {:induction false} ModShift(z: int, k: int)
    ensures (z + k * Modulus) % Modulus == z % Modulus
    decreases if k < 0 then -k else k
  {
    if k > 0 {
      ModShift(z, k - 1);
      assert z + k * Modulus == (z + (k - 1) * Modulus) + Modulus;
    } else if k < 0 {
      ModShift(z, k + 1);
      assert z + k * Modulus == (z + (k + 1) * Modulus) - Modulus;
    }
  }

  /** Subtraction undoes addition: the counter delta after adding `k` is `k`. */
  lemma SubAdd(a: u64, k: u64)
    ensures Sub(Add(a, k), a) == k
  {
  }

  /** The delta between `Wrap(a + x)` and `a` is `x` truncated. */
  lemma SubWrap(a: u64, x: int)
    ensures Sub(Wrap(a + x), a) == Wrap(x)
  {
    SubIsWrap(Wrap(a + x), a);
    WrapAdd(a + x, 0 - a as int);
  }

  /** Adding `x` and then `y`, each truncated, is adding `x + y` truncated. */
  lemma AddTwice(a: u64, x: nat, y: nat)
    ensures Add(Add(a, Wrap(x)), Wrap(y)) == Add(a, Wrap(x + y))
  {
    AddIsWrap(a, Wrap(x));
    WrapAdd(x, a);
    AddIsWrap(Wrap(a + x), Wrap(y));
    WrapAdd(a + x, Wrap(y));
    WrapAdd(y, a + x);
    AddIsWrap(a, Wrap(x + y));
    WrapAdd(x + y, a);
  }
}
