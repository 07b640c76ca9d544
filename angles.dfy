/** Angles in radians and their reduction into [0, 2*pi). */
module Angles {

  /** numpy's pi, to the precision of a double. */
  const Pi: real := 3.141592653589793
  const TwoPi: real := 2.0 * Pi
  const HalfPi: real := Pi / 2.0

  /** Reduction of an angle into [0, 2*pi): x - 2*pi*floor(x / 2*pi), the floored modulo
      that the longitude wrap of the transport model and numpy's `x % period` both compute. */
  function Wrap(x: real): (r: real)
    ensures 0.0 <= r < TwoPi
  {
    x - TwoPi * ((x / TwoPi).Floor as real)
  }

  /** Wrap forgets whole turns. */
  lemma WrapShift(x: real, k: int)
    ensures Wrap(x + k as real * TwoPi) == Wrap(x)
  {
    var y := x / TwoPi;
    assert (x + k as real * TwoPi) / TwoPi == y + k as real;
    assert (y + k as real).Floor == y.Floor + k;
  }

  /** The wrapped angle is the only angle in [0, 2*pi) that differs from x by whole turns. */
  lemma WrapUnique(x: real, r: real, k: int)
    requires 0.0 <= r < TwoPi
    requires x == r + k as real * TwoPi
    ensures Wrap(x) == r
  {
    WrapShift(r, k);
    assert (r / TwoPi).Floor == 0;
  }

  /** Angles already in [0, 2*pi) are left alone, so wrapping twice is wrapping once. */
  lemma WrapIdempotent(x: real)
    ensures Wrap(Wrap(x)) == Wrap(x)
  {
    WrapUnique(Wrap(x), Wrap(x), 0);
  }
}
