/** The longitudinal boundary profiles: a ring of speeds (and optionally a passive tracer)
    on the model's longitude grid at an outer radius, mapped inwards sample by sample and
    resampled periodically back onto the same longitude grid. */
module Boundary {
  import opened Errors
  import opened Angles
  import opened Interpolation
  import opened Kinematics

  /** The speeds of a profile mapped to the inner radius, resampled at the profile's own
      longitudes: each sample travels to its inner longitude with its inner speed, and the
      inner speeds are interpolated periodically at the grid longitudes. */
  function InnerSpeedProfile(vs: seq<real>, lons: seq<real>, rOuterKm: real, rInnerKm: real,
                             p: Params, tr: Transcendentals): (r: seq<real>)
    requires p.Valid() && tr.Lawful() && AllPositive(vs)
    requires |lons| == |vs| > 0 && rInnerKm <= rOuterKm
    ensures |r| == |lons|
  {
    var v0 := InnerSpeeds(vs, rOuterKm, rInnerKm, p, tr);
    var phis := InnerLongitudes(vs, lons, rOuterKm, rInnerKm, p, tr);
    PeriodicInterpMany(lons, phis, v0)
  }

  /** Every resampled inner speed is positive and no faster than some outer speed. */
  lemma InnerSpeedProfileBounds(vs: seq<real>, lons: seq<real>, rOuterKm: real, rInnerKm: real,
                                p: Params, tr: Transcendentals)
    requires p.Valid() && tr.Lawful() && AllPositive(vs)
    requires |lons| == |vs| > 0 && rInnerKm <= rOuterKm
    ensures forall q :: 0 <= q < |lons| ==>
      var r := InnerSpeedProfile(vs, lons, rOuterKm, rInnerKm, p, tr);
      0.0 < r[q] && exists k :: 0 <= k < |vs| && r[q] <= vs[k]
  {
    var v0 := InnerSpeeds(vs, rOuterKm, rInnerKm, p, tr);
    var phis := InnerLongitudes(vs, lons, rOuterKm, rInnerKm, p, tr);
    ResampledSpeedBounds(vs, v0, phis, lons);
  }

  /** Resampling speeds that are positive and no faster than their outer counterparts gives
      speeds that are positive and no faster than some outer speed. */
  lemma ResampledSpeedBounds(vs: seq<real>, v0: seq<real>, phis: seq<real>, lons: seq<real>)
    requires |v0| == |vs| == |phis| > 0
    requires forall k :: 0 <= k < |vs| ==> 0.0 < v0[k] <= vs[k]
    ensures forall q :: 0 <= q < |lons| ==>
      0.0 < PeriodicInterpMany(lons, phis, v0)[q] && exists k :: 0 <= k < |vs| && PeriodicInterpMany(lons, phis, v0)[q] <= vs[k]
  {
    var r := PeriodicInterpMany(lons, phis, v0);
    forall q | 0 <= q < |lons|
      ensures 0.0 < r[q] && exists k :: 0 <= k < |vs| && r[q] <= vs[k]
    {
      var i, k :| 0 <= i < |v0| && 0 <= k < |v0| && v0[i] <= r[q] <= v0[k];
      assert r[q] <= vs[k];
    }
  }

  /** The tracer values of a profile carried along with the speeds: each tracer sample moves
      to the inner longitude of its speed sample, and the tracer is interpolated periodically
      at the grid longitudes. */
  function InnerTracerProfile(vs: seq<real>, lons: seq<real>, tracer: seq<real>, rOuterKm: real,
                              rInnerKm: real, p: Params, tr: Transcendentals): (r: seq<real>)
    requires p.Valid() && tr.Lawful() && AllPositive(vs)
    requires |lons| == |vs| == |tracer| > 0 && rInnerKm <= rOuterKm
    ensures |r| == |lons|
  {
    var phis := InnerLongitudes(vs, lons, rOuterKm, rInnerKm, p, tr);
    PeriodicInterpMany(lons, phis, tracer)
  }

  /** Every carried tracer value lies between two of the outer tracer values. */
  lemma InnerTracerProfileWithin(vs: seq<real>, lons: seq<real>, tracer: seq<real>, rOuterKm: real,
                                 rInnerKm: real, p: Params, tr: Transcendentals)
    requires p.Valid() && tr.Lawful() && AllPositive(vs)
    requires |lons| == |vs| == |tracer| > 0 && rInnerKm <= rOuterKm
    ensures forall q :: 0 <= q < |lons| ==>
      Bracketed(InnerTracerProfile(vs, lons, tracer, rOuterKm, rInnerKm, p, tr)[q], tracer)
  {
    var phis := InnerLongitudes(vs, lons, rOuterKm, rInnerKm, p, tr);
    ResampledWithin(tracer, phis, lons);
  }

  /** Every periodically resampled value lies between two of the sample values. */
  lemma ResampledWithin(values: seq<real>, phis: seq<real>, lons: seq<real>)
    requires |values| == |phis| > 0
    ensures forall q :: 0 <= q < |lons| ==> Bracketed(PeriodicInterpMany(lons, phis, values)[q], values)
  {
    forall q | 0 <= q < |lons|
      ensures Bracketed(PeriodicInterpMany(lons, phis, values)[q], values)
    {
      var x := PeriodicInterp(lons[q], phis, values);
      var i, k :| 0 <= i < |values| && 0 <= k < |values| && values[i] <= x <= values[k];
      assert PeriodicInterpMany(lons, phis, values)[q] == x;
    }
  }

  /** map_v_boundary_inwards on the longitude grid `lon`: refuses to map outwards first; the
      speed profile must match the grid sample for sample, and numpy.interp refuses an empty
      grid; otherwise the resampled inner speed profile. */
  function MapVBoundaryInwards(vOuter: seq<real>, rOuterKm: real, rInnerKm: real, lon: seq<real>,
                               p: Params, tr: Transcendentals): (r: Result<seq<real>>)
    requires p.Valid() && tr.Lawful()
    requires rInnerKm <= rOuterKm ==> AllPositive(vOuter)
    ensures rOuterKm < rInnerKm ==> r == Err(InvalidRadialOrdering)
    ensures rInnerKm <= rOuterKm && |vOuter| != |lon| ==> r == Err(LengthMismatch)
    ensures rInnerKm <= rOuterKm && |vOuter| == |lon| == 0 ==> r == Err(EmptySamples)
    ensures r.Ok? <==> rInnerKm <= rOuterKm && |vOuter| == |lon| > 0
    ensures r.Ok? ==> r.value == InnerSpeedProfile(vOuter, lon, rOuterKm, rInnerKm, p, tr)
  {
    if rOuterKm < rInnerKm then Err(InvalidRadialOrdering)
    else
      var mapped :- MapVInwards(vOuter, rOuterKm, lon, rInnerKm, p, tr);
      if |lon| == 0 then Err(EmptySamples)
      else Ok(PeriodicInterpMany(lon, mapped.1, mapped.0))
  }

  /** map_ptracer_boundary_inwards on the longitude grid `lon`: the radial check, then the
      speed profile against the grid, then numpy.interp's checks of the tracer against the
      mapped longitudes (lengths first, then emptiness); otherwise the resampled tracer. */
  function MapPtracerBoundaryInwards(vOuter: seq<real>, rOuterKm: real, rInnerKm: real,
                                     ptracerOuter: seq<real>, lon: seq<real>,
                                     p: Params, tr: Transcendentals): (r: Result<seq<real>>)
    requires p.Valid() && tr.Lawful()
    requires rInnerKm <= rOuterKm ==> AllPositive(vOuter)
    ensures rOuterKm < rInnerKm ==> r == Err(InvalidRadialOrdering)
    ensures rInnerKm <= rOuterKm && |vOuter| != |lon| ==> r == Err(LengthMismatch)
    ensures rInnerKm <= rOuterKm && |vOuter| == |lon| != |ptracerOuter| ==> r == Err(LengthMismatch)
    ensures rInnerKm <= rOuterKm && |vOuter| == |lon| == |ptracerOuter| == 0 ==> r == Err(EmptySamples)
    ensures r.Ok? <==> rInnerKm <= rOuterKm && |vOuter| == |lon| == |ptracerOuter| > 0
    ensures r.Ok? ==> r.value == InnerTracerProfile(vOuter, lon, ptracerOuter, rOuterKm, rInnerKm, p, tr)
  {
    if rOuterKm < rInnerKm then Err(InvalidRadialOrdering)
    else
      var mapped :- MapVInwards(vOuter, rOuterKm, lon, rInnerKm, p, tr);
      if |mapped.1| != |ptracerOuter| then Err(LengthMismatch)
      else if |lon| == 0 then Err(EmptySamples)
      else Ok(PeriodicInterpMany(lon, mapped.1, ptracerOuter))
  }

  /** At the same radius every sample keeps its own longitude (reduced modulo 2*pi), so when
      the grid longitudes are different modulo 2*pi, resampling any values carried by the
      samples gives those values back. */
  lemma ResampleAtEqualRadii(vs: seq<real>, lons: seq<real>, values: seq<real>, rKm: real,
                             p: Params, tr: Transcendentals)
    requires p.Valid() && tr.Lawful() && AllPositive(vs)
    requires |lons| == |vs| == |values| > 0 && DistinctModTurn(lons)
    ensures PeriodicInterpMany(lons, InnerLongitudes(vs, lons, rKm, rKm, p, tr), values) == values
  {
    var phis := InnerLongitudes(vs, lons, rKm, rKm, p, tr);
    forall k | 0 <= k < |lons|
      ensures phis[k] == Wrap(lons[k]) && Wrap(phis[k]) == Wrap(lons[k])
    {
      EqualRadiiIdentity(vs[k], rKm, lons[k], p, tr);
      WrapIdempotent(lons[k]);
    }
    assert DistinctModTurn(phis);
    var r := PeriodicInterpMany(lons, phis, values);
    forall q | 0 <= q < |lons|
      ensures r[q] == values[q]
    {
      PeriodicInterpAtSample(lons[q], phis, values, q);
    }
  }

  /** Mapping a profile to the radius it is already at returns it unchanged. */
  lemma SpeedProfileAtEqualRadii(vs: seq<real>, lons: seq<real>, rKm: real, p: Params, tr: Transcendentals)
    requires p.Valid() && tr.Lawful() && AllPositive(vs)
    requires |lons| == |vs| > 0 && DistinctModTurn(lons)
    ensures InnerSpeedProfile(vs, lons, rKm, rKm, p, tr) == vs
  {
    var v0 := InnerSpeeds(vs, rKm, rKm, p, tr);
    forall k | 0 <= k < |vs|
      ensures v0[k] == vs[k]
    {
      EqualRadiiIdentity(vs[k], rKm, lons[k], p, tr);
    }
    assert v0 == vs;
    ResampleAtEqualRadii(vs, lons, vs, rKm, p, tr);
  }

  /** Carrying a tracer to the radius it is already at returns it unchanged. */
  lemma TracerProfileAtEqualRadii(vs: seq<real>, lons: seq<real>, tracer: seq<real>, rKm: real,
                                  p: Params, tr: Transcendentals)
    requires p.Valid() && tr.Lawful() && AllPositive(vs)
    requires |lons| == |vs| == |tracer| > 0 && DistinctModTurn(lons)
    ensures InnerTracerProfile(vs, lons, tracer, rKm, rKm, p, tr) == tracer
  {
    ResampleAtEqualRadii(vs, lons, tracer, rKm, p, tr);
  }

  /** A uniform tracer stays uniform whatever the speeds do to the longitudes. */
  lemma TracerProfileConstant(vs: seq<real>, lons: seq<real>, tracer: seq<real>, c: real, rOuterKm: real,
                              rInnerKm: real, p: Params, tr: Transcendentals)
    requires p.Valid() && tr.Lawful() && AllPositive(vs)
    requires |lons| == |vs| == |tracer| > 0 && rInnerKm <= rOuterKm
    requires forall k :: 0 <= k < |tracer| ==> tracer[k] == c
    ensures forall q :: 0 <= q < |lons| ==> InnerTracerProfile(vs, lons, tracer, rOuterKm, rInnerKm, p, tr)[q] == c
  {
    var phis := InnerLongitudes(vs, lons, rOuterKm, rInnerKm, p, tr);
    forall q | 0 <= q < |lons|
      ensures InnerTracerProfile(vs, lons, tracer, rOuterKm, rInnerKm, p, tr)[q] == c
    {
      PeriodicInterpConstant(lons[q], phis, tracer, c);
    }
  }
}
