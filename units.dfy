/** Unit conversion shared by the routing cost and the network writer (src/utils.py). */
module Units {

  /** Kilometres per hour to metres per second: kmh * 1000 / 3600, exact over the reals. */
  function KmhToMs(kmh: real): (ms: real)
    ensures 18.0 * ms == 5.0 * kmh
  {
    kmh * 1000.0 / 3600.0
  }

  /** A standing vehicle has speed zero in either unit. */
  lemma KmhToMsZero()
    ensures KmhToMs(0.0) == 0.0
  {
  }

  /** The conversion is strictly increasing, so a positive speed stays positive. */
  lemma KmhToMsStrictlyIncreasing(a: real, b: real)
    requires a < b
    ensures KmhToMs(a) < KmhToMs(b)
  {
  }

  lemma KmhToMsPositive(kmh: real)
    requires 0.0 < kmh
    ensures 0.0 < KmhToMs(kmh)
  {
    KmhToMsZero();
    KmhToMsStrictlyIncreasing(0.0, kmh);
  }

  /** The conversion is additive (it is multiplication by 5/18). */
  lemma KmhToMsAdditive(a: real, b: real)
    ensures KmhToMs(a + b) == KmhToMs(a) + KmhToMs(b)
  {
  }
}
