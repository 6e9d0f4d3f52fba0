// The output limiter written out in each of the three discrete controllers
// (PID, lead and LQR): the maximum is compared first, then the minimum.
module Limiter {

  /** At or above the maximum gives the maximum; otherwise at or below the minimum gives the minimum; otherwise the value. */
  function Limit(u: real, lo: real, hi: real): (r: real)
    // Values strictly between the limits pass unchanged; with consistent limits every output lies between them.
    ensures lo < u < hi ==> r == u
    ensures lo <= hi ==> lo <= r <= hi
  {
    if u >= hi then hi else if u <= lo then lo else u
  }

  /**
   * With consistent limits the output lies between them, and the value is
   * passed through unchanged exactly when it already lies between them.
   */
  lemma LimitInRange(u: real, lo: real, hi: real)
    requires lo <= hi
    ensures lo <= Limit(u, lo, hi) <= hi
    ensures Limit(u, lo, hi) == u <==> lo <= u <= hi
  {
  }

  /** Limiting twice is limiting once. */
  lemma LimitIdempotent(u: real, lo: real, hi: real)
    requires lo <= hi
    ensures Limit(Limit(u, lo, hi), lo, hi) == Limit(u, lo, hi)
  {
  }

  /** The limiter preserves the order of its inputs. */
  lemma LimitMonotone(u: real, v: real, lo: real, hi: real)
    requires lo <= hi && u <= v
    ensures Limit(u, lo, hi) <= Limit(v, lo, hi)
  {
  }

  /**
   * With crossed limits (minimum above maximum) the maximum test wins for
   * values at or above the maximum, and the output can then lie below the
   * minimum.
   */
  lemma CrossedLimits(u: real, lo: real, hi: real)
    requires hi < lo && u >= hi
    ensures Limit(u, lo, hi) == hi < lo
  {
  }
}
