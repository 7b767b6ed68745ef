/**
 * World coordinates, the clamp that keeps positions inside the world,
 * squared distances, and the parts of the C math library the engine
 * calls, left uninterpreted.
 */
module Geometry {

  /** A point in world coordinates (the source's `Position`, two doubles). */
  datatype Position = Position(x: real, y: real)

  /**
   * std::sqrt, std::pow, std::cos, std::sin and M_PI. They are passed in as
   * values so that nothing in the model depends on their numerical behaviour.
   */
  datatype MathLib = MathLib(sqrt: real -> real, pow: (real, real) -> real,
                             cos: real -> real, sin: real -> real, pi: real)

  function Min(a: real, b: real): real { if b < a then b else a }

  function Max(a: real, b: real): real { if a < b then b else a }

  /** std::max(0.0, std::min((double)limit, v)): the clamp every move applies. */
  function Clamp(v: real, limit: int): (r: real)
    ensures limit >= 0 ==> 0.0 <= r <= limit as real
    ensures 0.0 <= v <= limit as real ==> r == v
  {
    Max(0.0, Min(limit as real, v))
  }

  /** The target of a move, clamped into [0,w] x [0,h]. */
  function ClampToWorld(x: real, y: real, w: int, h: int): (p: Position)
    ensures w >= 0 && h >= 0 ==> InWorld(p, w, h)
  {
    Position(Clamp(x, w), Clamp(y, h))
  }

  /** The closed world rectangle [0,w] x [0,h]. */
  predicate InWorld(p: Position, w: int, h: int)
  {
    0.0 <= p.x <= w as real && 0.0 <= p.y <= h as real
  }

  /** Squared Euclidean distance; the source's `distance_to` squared. */
  function DistSq(p: Position, q: Position): (d: real)
    ensures d >= 0.0
  {
    var dx := p.x - q.x;
    var dy := p.y - q.y;
    SquareNonNegative(dx);
    SquareNonNegative(dy);
    dx * dx + dy * dy
  }

  lemma SquareNonNegative(a: real)
    ensures a * a >= 0.0
  {
    if a < 0.0 {
      assert a * a == (-a) * (-a);
    }
  }

  /**
   * `p.distance_to(q) <= radius`, stated on squares so that no square root is
   * needed: for a real square root the two agree, and no distance is within a
   * negative radius.
   */
  predicate Within(p: Position, q: Position, radius: real)
  {
    radius >= 0.0 && DistSq(p, q) <= radius * radius
  }

  /** std::uniform_real_distribution<>(lo, hi) applied to a unit draw u in [0,1). */
  function Uniform(u: real, lo: real, hi: real): (r: real)
    requires lo <= hi
    ensures 0.0 <= u < 1.0 ==> lo <= r <= hi
  {
    UniformBounds(u, lo, hi);
    lo + (hi - lo) * u
  }

  lemma UniformBounds(u: real, lo: real, hi: real)
    requires lo <= hi
    ensures 0.0 <= u < 1.0 ==> 0.0 <= (hi - lo) * u <= hi - lo
  {
    if 0.0 <= u < 1.0 {
      MulNonNegative(hi - lo, u);
      MulNonNegative(hi - lo, 1.0 - u);
      assert (hi - lo) * (1.0 - u) == (hi - lo) - (hi - lo) * u;
    }
  }

  lemma MulNonNegative(a: real, b: real)
    requires a >= 0.0 && b >= 0.0
    ensures a * b >= 0.0
  {
  }
}
