/**
 * Time stamps taken from the 32-bit Arduino `millis()` counter.  The source
 * compares them with unsigned subtraction, `millis() - start > limit`, which
 * stays right when the counter wraps around after about 49.7 days.
 */
module Clock {
  import opened Arduino

  /** A reading of `millis()`. */
  type Millis = t: nat | t < Uint32Modulus

  /** `now - since` computed on `unsigned long`. */
  function Elapsed(now: Millis, since: Millis): (d: nat)
    ensures d < Uint32Modulus
    ensures since <= now ==> d == now - since
    ensures now < since ==> d == now + Uint32Modulus - since
  {
    (now - since) % Uint32Modulus
  }

  /** The deadline test `now - since > limit` of the source's polling loops. */
  predicate Expired(now: Millis, since: Millis, limit: nat)
  {
    Elapsed(now, since) > limit
  }
}
