/** The kinematic mapper: a solar-wind speed sample at an outer radius, and the Carrington
    longitude it was seen at, mapped inwards to a smaller radius along the residual-acceleration
    law of the transport model, ignoring stream interactions. Speeds are in km/s, radii and the
    acceleration length scale in km, times in s, angles in rad. */
module Kinematics {
  import opened Errors
  import opened Angles

  /** The exponential and the natural logarithm of the numerical library, passed in. Lawful
      states the only facts about them that the proofs use; each holds of the real functions. */
  datatype Transcendentals = Transcendentals(exp: real -> real, log: real -> real) {

    /** a * e^b, named so that the logarithm law below has a term to be instantiated on. */
    function ScaledExp(a: real, b: real): real {
      a * exp(b)
    }

    ghost predicate Lawful() {
      && exp(0.0) == 1.0
      && (forall x :: x <= 0.0 ==> 0.0 < exp(x) <= 1.0)
      && (forall a, b :: 0.0 < a ==> log(ScaledExp(a, b)) == log(a) + b)
    }
  }

  /** The transport model's constants: the residual-acceleration scale factor alpha, the
      acceleration length scale r_H (km) and the synodic rotation period (s). */
  datatype Params = Params(alpha: real, rAccelKm: real, synodicPeriodS: real) {
    predicate Valid() {
      alpha >= 0.0 && rAccelKm > 0.0 && synodicPeriodS > 0.0
    }
  }

  /** The speed a parcel had at the inner radius, inverting the residual-acceleration law
      v(r) = v0 * (1 + alpha * (1 - exp((r0 - r) / r_H))). Mapping inwards never speeds a
      parcel up, and a positive speed stays positive. */
  function InnerSpeed(vOuterKmS: real, rOuterKm: real, rInnerKm: real, p: Params, tr: Transcendentals): (v0: real)
    requires p.Valid() && tr.Lawful()
    requires vOuterKmS > 0.0 && rInnerKm <= rOuterKm
    ensures 0.0 < v0 <= vOuterKmS
  {
    var e := tr.exp((rInnerKm - rOuterKm) / p.rAccelKm);
    assert 0.0 < e <= 1.0;
    var d := 1.0 + p.alpha * (1.0 - e);
    assert d >= 1.0;
    assert vOuterKmS / d * d == vOuterKmS;
    vOuterKmS / d
  }

  /** One of the two logarithmic terms of the transit-time integral, evaluated at radius rKm:
      r_H * log(A * exp(r / r_H) - B * exp(r_inner / r_H)) / A. Without acceleration (B = 0)
      it is r_H * log(A) / A + r / A. */
  function LogTerm(rH: real, a: real, b: real, rKm: real, rInnerKm: real, tr: Transcendentals): (l: real)
    requires tr.Lawful() && rH > 0.0 && a > 0.0
    ensures b == 0.0 ==> l == rH * tr.log(a) / a + rKm / a
  {
    var s1 := tr.ScaledExp(a, rKm / rH);
    var g := tr.log(s1 - tr.ScaledExp(b, rInnerKm / rH));
    assert b == 0.0 ==> rH * g / a == rH * tr.log(a) / a + rKm / a by {
      if b == 0.0 {
        assert g == tr.log(s1) == tr.log(a) + rKm / rH;
        SplitScaledLog(rH, g, tr.log(a), rKm, a);
      }
    }
    rH * g / a
  }

  /** r_H * (k + r / r_H) / A splits into r_H * k / A + r / A. */
  lemma SplitScaledLog(rH: real, g: real, k: real, rKm: real, a: real)
    requires rH > 0.0 && a > 0.0 && g == k + rKm / rH
    ensures rH * g / a == rH * k / a + rKm / a
  {
    assert rH * g == rH * k + rKm;
  }

  /** The travel time from the inner to the outer radius: the integral of dr / v(r), written
      in closed form as the difference of the logarithmic term at the two radii, with
      A = v0 * (1 + alpha) and B = alpha * v0. It is zero when the radii are equal, and the
      distance over the speed when there is no acceleration. */
  function TransitTime(vOuterKmS: real, rOuterKm: real, rInnerKm: real, p: Params, tr: Transcendentals): (t: real)
    requires p.Valid() && tr.Lawful()
    requires vOuterKmS > 0.0 && rInnerKm <= rOuterKm
    ensures rInnerKm == rOuterKm ==> t == 0.0
    ensures p.alpha == 0.0 ==> t == (rOuterKm - rInnerKm) / vOuterKmS
  {
    var v0 := InnerSpeed(vOuterKmS, rOuterKm, rInnerKm, p, tr);
    var a := v0 + p.alpha * v0;
    var b := p.alpha * v0;
    assert a >= v0 > 0.0;
    var t1 := LogTerm(p.rAccelKm, a, b, rOuterKm, rInnerKm, tr);
    var t2 := LogTerm(p.rAccelKm, a, b, rInnerKm, rInnerKm, tr);
    assert p.alpha == 0.0 ==> t1 - t2 == (rOuterKm - rInnerKm) / vOuterKmS by {
      if p.alpha == 0.0 {
        ZeroAlphaSpeed(vOuterKmS, rOuterKm, rInnerKm, p, tr);
        assert b == 0.0 && a == vOuterKmS;
        var c := p.rAccelKm * tr.log(a) / a;
        assert t1 == c + rOuterKm / a && t2 == c + rInnerKm / a;
        DifferenceOverSpeed(c, rOuterKm, rInnerKm, a);
      }
    }
    t1 - t2
  }

  /** The same offset on both radii cancels in the difference. */
  lemma DifferenceOverSpeed(c: real, rOuterKm: real, rInnerKm: real, a: real)
    requires a > 0.0
    ensures (c + rOuterKm / a) - (c + rInnerKm / a) == (rOuterKm - rInnerKm) / a
  {
  }

  /** The Carrington longitude at the inner radius: the outer longitude advanced by the
      fraction of a synodic rotation the Sun turned during the transit, wrapped into
      [0, 2*pi). */
  function InnerLongitude(vOuterKmS: real, rOuterKm: real, lonOuterRad: real, rInnerKm: real,
                          p: Params, tr: Transcendentals): (phi: real)
    requires p.Valid() && tr.Lawful()
    requires vOuterKmS > 0.0 && rInnerKm <= rOuterKm
    ensures 0.0 <= phi < TwoPi
  {
    var t := TransitTime(vOuterKmS, rOuterKm, rInnerKm, p, tr);
    Wrap(lonOuterRad + (t / p.synodicPeriodS) * 2.0 * Pi)
  }

  predicate AllPositive(vs: seq<real>) {
    forall k :: 0 <= k < |vs| ==> vs[k] > 0.0
  }

  /** InnerSpeed applied sample by sample. */
  function InnerSpeeds(vs: seq<real>, rOuterKm: real, rInnerKm: real, p: Params, tr: Transcendentals): (r: seq<real>)
    requires p.Valid() && tr.Lawful()
    requires AllPositive(vs) && rInnerKm <= rOuterKm
    ensures |r| == |vs|
    ensures forall k :: 0 <= k < |vs| ==> r[k] == InnerSpeed(vs[k], rOuterKm, rInnerKm, p, tr)
  {
    seq(|vs|, k requires 0 <= k < |vs| => InnerSpeed(vs[k], rOuterKm, rInnerKm, p, tr))
  }

  /** InnerLongitude applied sample by sample. */
  function InnerLongitudes(vs: seq<real>, lons: seq<real>, rOuterKm: real, rInnerKm: real,
                           p: Params, tr: Transcendentals): (r: seq<real>)
    requires p.Valid() && tr.Lawful()
    requires AllPositive(vs) && |lons| == |vs| && rInnerKm <= rOuterKm
    ensures |r| == |vs|
    ensures forall k :: 0 <= k < |vs| ==> r[k] == InnerLongitude(vs[k], rOuterKm, lons[k], rInnerKm, p, tr)
  {
    seq(|vs|, k requires 0 <= k < |vs| => InnerLongitude(vs[k], rOuterKm, lons[k], rInnerKm, p, tr))
  }

  /** map_v_inwards on arrays of speeds and longitudes: refuses to map outwards, before any
      numeric work; arrays of different lengths do not broadcast; otherwise maps element by
      element, and every inner speed is positive and at most its outer speed, every inner
      longitude in [0, 2*pi). */
  function MapVInwards(vs: seq<real>, rOuterKm: real, lons: seq<real>, rInnerKm: real,
                       p: Params, tr: Transcendentals): (r: Result<(seq<real>, seq<real>)>)
    requires p.Valid() && tr.Lawful()
    requires rInnerKm <= rOuterKm ==> AllPositive(vs)
    ensures rOuterKm < rInnerKm ==> r == Err(InvalidRadialOrdering)
    ensures rInnerKm <= rOuterKm && |vs| != |lons| ==> r == Err(LengthMismatch)
    ensures r.Ok? <==> rInnerKm <= rOuterKm && |vs| == |lons|
    ensures r.Ok? ==> |r.value.0| == |vs| && |r.value.1| == |vs|
    ensures r.Ok? ==> forall k :: 0 <= k < |vs| ==>
      && 0.0 < r.value.0[k] <= vs[k]
      && 0.0 <= r.value.1[k] < TwoPi
      && r.value.0[k] == InnerSpeed(vs[k], rOuterKm, rInnerKm, p, tr)
      && r.value.1[k] == InnerLongitude(vs[k], rOuterKm, lons[k], rInnerKm, p, tr)
  {
    if rOuterKm < rInnerKm then Err(InvalidRadialOrdering)
    else if |vs| != |lons| then Err(LengthMismatch)
    else Ok((InnerSpeeds(vs, rOuterKm, rInnerKm, p, tr), InnerLongitudes(vs, lons, rOuterKm, rInnerKm, p, tr)))
  }

  /** Mapping to the same radius is the identity on speed, takes no time, and only wraps the
      longitude, whatever alpha and r_H are. */
  lemma EqualRadiiIdentity(vKmS: real, rKm: real, lonRad: real, p: Params, tr: Transcendentals)
    requires p.Valid() && tr.Lawful() && vKmS > 0.0
    ensures InnerSpeed(vKmS, rKm, rKm, p, tr) == vKmS
    ensures TransitTime(vKmS, rKm, rKm, p, tr) == 0.0
    ensures InnerLongitude(vKmS, rKm, lonRad, rKm, p, tr) == Wrap(lonRad)
  {
    assert (rKm - rKm) / p.rAccelKm == 0.0;
  }

  /** Without residual acceleration the speed is the same at every radius. */
  lemma ZeroAlphaSpeed(vKmS: real, rOuterKm: real, rInnerKm: real, p: Params, tr: Transcendentals)
    requires p.Valid() && tr.Lawful() && vKmS > 0.0 && rInnerKm <= rOuterKm
    requires p.alpha == 0.0
    ensures InnerSpeed(vKmS, rOuterKm, rInnerKm, p, tr) == vKmS
  {
  }

  /** Without residual acceleration the longitude advances by the share of a synodic
      rotation that distance over speed makes up. */
  lemma ZeroAlphaLongitude(vKmS: real, rOuterKm: real, lonRad: real, rInnerKm: real, p: Params, tr: Transcendentals)
    requires p.Valid() && tr.Lawful() && vKmS > 0.0 && rInnerKm <= rOuterKm
    requires p.alpha == 0.0
    ensures InnerLongitude(vKmS, rOuterKm, lonRad, rInnerKm, p, tr)
         == Wrap(lonRad + ((rOuterKm - rInnerKm) / vKmS / p.synodicPeriodS) * 2.0 * Pi)
  {
  }
}
