/** The map reconcilers: a whole Carrington map of speeds, or of a passive tracer carried by a
    speed map, mapped from an outer to an inner radius one latitude column at a time into a
    freshly allocated output map. */
module Reconcile {
  import opened Errors
  import opened Interpolation
  import opened Kinematics
  import opened Boundary
  import opened Grids

  /** The axis checks a reconciler makes of a map: row 1 and column 1 must exist, the latitude
      axis labels the columns and the longitude axis the rows. */
  predicate AxesMatch(g: Grid, lats: seq<real>, longs: seq<real>) {
    |g| >= 2 && Cols(g) >= 2 && |lats| == Cols(g) && |longs| == |g|
  }

  /** The failure the checks raise, in the source's order: indexing row 1, comparing the
      latitude axis, indexing column 1, comparing the longitude axis. A mismatched axis is
      reported only once its slice could be taken. */
  function AxesError(g: Grid, lats: seq<real>, longs: seq<real>): (e: MapError)
    requires !AxesMatch(g, lats, longs)
    ensures e == IndexOutOfRange || e == GridMismatch
    ensures e == GridMismatch <==> |g| >= 2 && (|lats| != Cols(g) || (Cols(g) >= 2 && |longs| != |g|))
  {
    if |g| < 2 then IndexOutOfRange
    else if |lats| != Cols(g) then GridMismatch
    else if Cols(g) < 2 then IndexOutOfRange
    else GridMismatch
  }

  /** Column j of the inner speed map: column j of the outer map alone, mapped inwards and
      resampled at the map's longitudes. */
  function InnerSpeedColumn(vMap: Grid, vMapLong: seq<real>, j: nat, rOuterKm: real, rInnerKm: real,
                            p: Params, tr: Transcendentals): (c: seq<real>)
    requires p.Valid() && tr.Lawful() && GridPositive(vMap)
    requires j < Cols(vMap) && |vMapLong| == |vMap| > 0 && rInnerKm <= rOuterKm
    ensures |c| == |vMap|
  {
    PositiveSlices(vMap, j, 0);
    InnerSpeedProfile(Column(vMap, j), vMapLong, rOuterKm, rInnerKm, p, tr)
  }

  /** Every speed of an inner speed column is positive and no faster than some speed of the
      same column of the outer map. */
  lemma InnerSpeedColumnBounds(vMap: Grid, vMapLong: seq<real>, j: nat, rOuterKm: real, rInnerKm: real,
                               p: Params, tr: Transcendentals)
    requires p.Valid() && tr.Lawful() && GridPositive(vMap)
    requires j < Cols(vMap) && |vMapLong| == |vMap| > 0 && rInnerKm <= rOuterKm
    ensures forall i :: 0 <= i < |vMap| ==>
      var c := InnerSpeedColumn(vMap, vMapLong, j, rOuterKm, rInnerKm, p, tr);
      0.0 < c[i] && exists k :: 0 <= k < |vMap| && c[i] <= vMap[k][j]
  {
    var c := InnerSpeedColumn(vMap, vMapLong, j, rOuterKm, rInnerKm, p, tr);
    PositiveSlices(vMap, j, 0);
    InnerSpeedProfileBounds(Column(vMap, j), vMapLong, rOuterKm, rInnerKm, p, tr);
    forall i | 0 <= i < |vMap|
      ensures 0.0 < c[i] && exists k :: 0 <= k < |vMap| && c[i] <= vMap[k][j]
    {
      var k :| 0 <= k < |vMap| && c[i] <= Column(vMap, j)[k];
    }
  }

  /** Writes c into column j of a, leaving the other columns as they were. */
  method FillColumn(a: array2<real>, j: nat, c: seq<real>)
    requires j < a.Length1 && |c| == a.Length0
    modifies a
    ensures ArrayColumn(a, j) == c
    ensures forall k :: 0 <= k < a.Length1 && k != j ==> ArrayColumn(a, k) == old(ArrayColumn(a, k))
  {
    forall i | 0 <= i < a.Length0 {
      a[i, j] := c[i];
    }
  }

  /** map_vmap_inwards: the radial check, then the axis checks; otherwise an array of the
      map's shape, (longitudes, latitudes), whose column j is InnerSpeedColumn(j). */
  method MapVMapInwards(vMap: Grid, vMapLat: seq<real>, vMapLong: seq<real>, rOuterKm: real,
                        rInnerKm: real, p: Params, tr: Transcendentals) returns (r: Result<array2<real>>)
    requires p.Valid() && tr.Lawful()
    requires rInnerKm <= rOuterKm && AxesMatch(vMap, vMapLat, vMapLong) ==> GridPositive(vMap)
    ensures rOuterKm < rInnerKm ==> r == Err(InvalidRadialOrdering)
    ensures rInnerKm <= rOuterKm && !AxesMatch(vMap, vMapLat, vMapLong) ==>
      r == Err(AxesError(vMap, vMapLat, vMapLong))
    ensures r.Ok? <==> rInnerKm <= rOuterKm && AxesMatch(vMap, vMapLat, vMapLong)
    ensures r.Ok? ==> fresh(r.value)
    ensures r.Ok? ==> r.value.Length0 == |vMapLong| && r.value.Length1 == |vMapLat|
    ensures r.Ok? ==> forall j :: 0 <= j < r.value.Length1 ==>
      ArrayColumn(r.value, j) == InnerSpeedColumns(vMap, vMapLong, rOuterKm, rInnerKm, p, tr)[j]
  {
    if rOuterKm < rInnerKm {
      return Err(InvalidRadialOrdering);
    }
    if !AxesMatch(vMap, vMapLat, vMapLong) {
      return Err(AxesError(vMap, vMapLat, vMapLong));
    }
    var inner := InnerSpeedMap(vMap, vMapLat, vMapLong, rOuterKm, rInnerKm, p, tr,
                               InnerSpeedColumns(vMap, vMapLong, rOuterKm, rInnerKm, p, tr));
    return Ok(inner);
  }

  /** expected lists the columns of the inner speed map, column j being InnerSpeedColumn(j).
      The column function is only unfolded where a proof names it. */
  ghost predicate IsInnerSpeedMap(expected: seq<seq<real>>, vMap: Grid, vMapLong: seq<real>, rOuterKm: real,
                                  rInnerKm: real, p: Params, tr: Transcendentals)
    requires p.Valid() && tr.Lawful() && GridPositive(vMap)
    requires |vMapLong| == |vMap| > 0 && rInnerKm <= rOuterKm
  {
    |expected| == Cols(vMap) &&
    forall j: nat {:trigger InnerSpeedColumn(vMap, vMapLong, j, rOuterKm, rInnerKm, p, tr)} :: j < Cols(vMap) ==>
      expected[j] == InnerSpeedColumn(vMap, vMapLong, j, rOuterKm, rInnerKm, p, tr)
  }

  /** The inner speed map as its list of columns. */
  function InnerSpeedColumns(vMap: Grid, vMapLong: seq<real>, rOuterKm: real, rInnerKm: real,
                             p: Params, tr: Transcendentals): (cs: seq<seq<real>>)
    requires p.Valid() && tr.Lawful() && GridPositive(vMap)
    requires |vMapLong| == |vMap| > 0 && rInnerKm <= rOuterKm
    ensures IsInnerSpeedMap(cs, vMap, vMapLong, rOuterKm, rInnerKm, p, tr)
  {
    seq(Cols(vMap), j requires 0 <= j < Cols(vMap) => InnerSpeedColumn(vMap, vMapLong, j, rOuterKm, rInnerKm, p, tr))
  }

  /** One iteration of map_vmap_inwards' latitude loop: column j mapped inwards and the
      inner speeds resampled at the map's longitudes, which is column j of the inner map. */
  method CarrySpeedColumn(vMap: Grid, vMapLong: seq<real>, j: nat, rOuterKm: real, rInnerKm: real,
                          p: Params, tr: Transcendentals, ghost expected: seq<seq<real>>) returns (c: seq<real>)
    requires p.Valid() && tr.Lawful() && GridPositive(vMap)
    requires j < Cols(vMap) && |vMapLong| == |vMap| > 0 && rInnerKm <= rOuterKm
    requires IsInnerSpeedMap(expected, vMap, vMapLong, rOuterKm, rInnerKm, p, tr)
    ensures |c| == |vMap| && c == expected[j]
  {
    var column := Column(vMap, j);
    PositiveSlices(vMap, j, 0);
    var mapped := MapVInwards(column, rOuterKm, vMapLong, rInnerKm, p, tr);
    var v0, phis := mapped.value.0, mapped.value.1;
    assert v0 == InnerSpeeds(column, rOuterKm, rInnerKm, p, tr);
    assert phis == InnerLongitudes(column, vMapLong, rOuterKm, rInnerKm, p, tr);
    c := PeriodicInterpMany(vMapLong, phis, v0);
    assert c == InnerSpeedColumn(vMap, vMapLong, j, rOuterKm, rInnerKm, p, tr);
  }

  /** The latitude loop of map_vmap_inwards, once the checks have passed: each column of the
      speed map mapped inwards and resampled into the same column of a new array. */
  method InnerSpeedMap(vMap: Grid, vMapLat: seq<real>, vMapLong: seq<real>, rOuterKm: real,
                       rInnerKm: real, p: Params, tr: Transcendentals, ghost expected: seq<seq<real>>)
    returns (inner: array2<real>)
    requires p.Valid() && tr.Lawful() && GridPositive(vMap)
    requires AxesMatch(vMap, vMapLat, vMapLong) && rInnerKm <= rOuterKm
    requires IsInnerSpeedMap(expected, vMap, vMapLong, rOuterKm, rInnerKm, p, tr)
    ensures fresh(inner)
    ensures inner.Length0 == |vMapLong| && inner.Length1 == |vMapLat|
    ensures forall j :: 0 <= j < inner.Length1 ==> ArrayColumn(inner, j) == expected[j]
  {
    inner := new real[|vMapLong|, |vMapLat|]((_, _) => 1.0);
    for ilat := 0 to |vMapLat|
      invariant forall j :: 0 <= j < ilat ==> ArrayColumn(inner, j) == expected[j]
    {
      var resampled := CarrySpeedColumn(vMap, vMapLong, ilat, rOuterKm, rInnerKm, p, tr, expected);
      FillColumn(inner, ilat, resampled);
    }
  }

  /** The speeds of the speed map along one tracer latitude: row by row, numpy.interp in
      latitude. Each is bracketed by its row's speeds, so a positive map gives positive
      speeds. */
  function SpeedsAtLatitude(vMap: Grid, vMapLat: seq<real>, lat: real): (vlong: seq<real>)
    requires |vMapLat| == Cols(vMap) > 0 && NonDecreasing(vMapLat)
    ensures |vlong| == |vMap|
    ensures forall k :: 0 <= k < |vMap| ==> vlong[k] == Interp(lat, vMapLat, vMap[k])
    ensures GridPositive(vMap) ==> AllPositive(vlong)
  {
    var vlong := seq(|vMap|, k requires 0 <= k < |vMap| => Interp(lat, vMapLat, vMap[k]));
    assert GridPositive(vMap) ==> AllPositive(vlong) by {
      if GridPositive(vMap) {
        forall k | 0 <= k < |vMap|
          ensures vlong[k] > 0.0
        {
          var a, b :| 0 <= a < |vMap[k]| && 0 <= b < |vMap[k]| && vMap[k][a] <= vlong[k] <= vMap[k][b];
        }
      }
    }
    vlong
  }

  /** The inner loop of map_ptracer_map_inwards: an array with one entry per longitude row of
      the speed map, overwritten row by row with the row's speed at latitude lat. */
  method SpeedsAlongLatitude(vMap: Grid, vMapLat: seq<real>, lat: real) returns (vlong: seq<real>)
    requires |vMapLat| == Cols(vMap) > 0 && NonDecreasing(vMapLat)
    ensures vlong == SpeedsAtLatitude(vMap, vMapLat, lat)
  {
    var a := new real[|vMap|](_ => 1.0);
    for ilong := 0 to |vMap|
      invariant forall k :: 0 <= k < ilong ==> a[k] == Interp(lat, vMapLat, vMap[k])
    {
      a[ilong] := Interp(lat, vMapLat, vMap[ilong]);
    }
    vlong := a[..];
  }

  /** Linear interpolation of positive speeds gives positive speeds. */
  lemma InterpManyPositive(xs: seq<real>, xp: seq<real>, fp: seq<real>)
    requires |xp| == |fp| > 0 && NonDecreasing(xp) && AllPositive(fp)
    ensures AllPositive(InterpMany(xs, xp, fp))
  {
    var r := InterpMany(xs, xp, fp);
    forall q | 0 <= q < |xs|
      ensures r[q] > 0.0
    {
      var a, b :| 0 <= a < |fp| && 0 <= b < |fp| && fp[a] <= r[q] <= fp[b];
    }
  }

  /** The speeds at the tracer's grid points in column j: the speed map taken at the tracer
      latitude, then interpolated, without a period, at the tracer longitudes. */
  function CoLocatedSpeeds(vMap: Grid, vMapLat: seq<real>, vMapLong: seq<real>, lat: real,
                           ptracerMapLong: seq<real>): (vPlongs: seq<real>)
    requires |vMapLat| == Cols(vMap) > 0 && |vMapLong| == |vMap| > 0
    requires NonDecreasing(vMapLat) && NonDecreasing(vMapLong)
    ensures |vPlongs| == |ptracerMapLong|
    ensures forall q :: 0 <= q < |vPlongs| ==>
      vPlongs[q] == Interp(ptracerMapLong[q], vMapLong, SpeedsAtLatitude(vMap, vMapLat, lat))
    ensures GridPositive(vMap) ==> AllPositive(vPlongs)
  {
    var vlong := SpeedsAtLatitude(vMap, vMapLat, lat);
    assert GridPositive(vMap) ==> AllPositive(InterpMany(ptracerMapLong, vMapLong, vlong)) by {
      if GridPositive(vMap) {
        InterpManyPositive(ptracerMapLong, vMapLong, vlong);
      }
    }
    InterpMany(ptracerMapLong, vMapLong, vlong)
  }

  /** Column j of the inner tracer map: the tracer's column j carried inwards by the speeds
      co-located with it. */
  function InnerTracerColumn(vMap: Grid, vMapLat: seq<real>, vMapLong: seq<real>,
                             ptracerMap: Grid, ptracerMapLat: seq<real>, ptracerMapLong: seq<real>,
                             j: nat, rOuterKm: real, rInnerKm: real, p: Params, tr: Transcendentals): (c: seq<real>)
    requires p.Valid() && tr.Lawful() && GridPositive(vMap)
    requires |vMapLat| == Cols(vMap) > 0 && |vMapLong| == |vMap| > 0
    requires NonDecreasing(vMapLat) && NonDecreasing(vMapLong)
    requires j < |ptracerMapLat| == Cols(ptracerMap) && |ptracerMapLong| == |ptracerMap| > 0
    requires rInnerKm <= rOuterKm
    ensures |c| == |ptracerMap|
  {
    var vPlongs := CoLocatedSpeeds(vMap, vMapLat, vMapLong, ptracerMapLat[j], ptracerMapLong);
    InnerTracerProfile(vPlongs, ptracerMapLong, Column(ptracerMap, j), rOuterKm, rInnerKm, p, tr)
  }

  /** expected lists the columns of the inner tracer map, column j being InnerTracerColumn(j).
      The column function is only unfolded where a proof names it. */
  ghost predicate IsInnerTracerMap(expected: seq<seq<real>>, vMap: Grid, vMapLat: seq<real>, vMapLong: seq<real>,
                                   ptracerMap: Grid, ptracerMapLat: seq<real>, ptracerMapLong: seq<real>,
                                   rOuterKm: real, rInnerKm: real, p: Params, tr: Transcendentals)
    requires p.Valid() && tr.Lawful() && GridPositive(vMap)
    requires |vMapLat| == Cols(vMap) > 0 && |vMapLong| == |vMap| > 0
    requires NonDecreasing(vMapLat) && NonDecreasing(vMapLong)
    requires |ptracerMapLat| == Cols(ptracerMap) && |ptracerMapLong| == |ptracerMap| > 0
    requires rInnerKm <= rOuterKm
  {
    |expected| == |ptracerMapLat| &&
    forall j: nat {:trigger InnerTracerColumn(vMap, vMapLat, vMapLong, ptracerMap, ptracerMapLat, ptracerMapLong,
                                              j, rOuterKm, rInnerKm, p, tr)} :: j < |ptracerMapLat| ==>
      expected[j] == InnerTracerColumn(vMap, vMapLat, vMapLong, ptracerMap, ptracerMapLat, ptracerMapLong,
                                       j, rOuterKm, rInnerKm, p, tr)
  }

  /** The inner tracer map as its list of columns. */
  function InnerTracerColumns(vMap: Grid, vMapLat: seq<real>, vMapLong: seq<real>,
                              ptracerMap: Grid, ptracerMapLat: seq<real>, ptracerMapLong: seq<real>,
                              rOuterKm: real, rInnerKm: real, p: Params, tr: Transcendentals): (cs: seq<seq<real>>)
    requires p.Valid() && tr.Lawful() && GridPositive(vMap)
    requires |vMapLat| == Cols(vMap) > 0 && |vMapLong| == |vMap| > 0
    requires NonDecreasing(vMapLat) && NonDecreasing(vMapLong)
    requires |ptracerMapLat| == Cols(ptracerMap) && |ptracerMapLong| == |ptracerMap| > 0
    requires rInnerKm <= rOuterKm
    ensures IsInnerTracerMap(cs, vMap, vMapLat, vMapLong, ptracerMap, ptracerMapLat, ptracerMapLong,
                             rOuterKm, rInnerKm, p, tr)
  {
    seq(|ptracerMapLat|, j requires 0 <= j < |ptracerMapLat| =>
      InnerTracerColumn(vMap, vMapLat, vMapLong, ptracerMap, ptracerMapLat, ptracerMapLong,
                        j, rOuterKm, rInnerKm, p, tr))
  }

  /** One iteration of map_ptracer_map_inwards' latitude loop: the speeds along the tracer
      latitude, interpolated at the tracer longitudes, mapped inwards, and the tracer column
      resampled at its own longitudes from where the speeds carried it; this is column ilat
      of the inner tracer map. */
  method CarryTracerColumn(vMap: Grid, vMapLat: seq<real>, vMapLong: seq<real>,
                           ptracerMap: Grid, ptracerMapLat: seq<real>, ptracerMapLong: seq<real>,
                           ilat: nat, rOuterKm: real, rInnerKm: real, p: Params, tr: Transcendentals,
                           ghost expected: seq<seq<real>>)
    returns (c: seq<real>)
    requires p.Valid() && tr.Lawful() && GridPositive(vMap)
    requires |vMapLat| == Cols(vMap) > 0 && |vMapLong| == |vMap| > 0
    requires NonDecreasing(vMapLat) && NonDecreasing(vMapLong)
    requires ilat < |ptracerMapLat| == Cols(ptracerMap) && |ptracerMapLong| == |ptracerMap| > 0
    requires rInnerKm <= rOuterKm
    requires IsInnerTracerMap(expected, vMap, vMapLat, vMapLong, ptracerMap, ptracerMapLat, ptracerMapLong,
                              rOuterKm, rInnerKm, p, tr)
    ensures |c| == |ptracerMap| && c == expected[ilat]
  {
    var lat := ptracerMapLat[ilat];
    var vlong := SpeedsAlongLatitude(vMap, vMapLat, lat);
    var vPlongs := InterpMany(ptracerMapLong, vMapLong, vlong);
    assert vPlongs == CoLocatedSpeeds(vMap, vMapLat, vMapLong, lat, ptracerMapLong);
    var mapped := MapVInwards(vPlongs, rOuterKm, ptracerMapLong, rInnerKm, p, tr);
    var phis := mapped.value.1;
    assert phis == InnerLongitudes(vPlongs, ptracerMapLong, rOuterKm, rInnerKm, p, tr);
    c := PeriodicInterpMany(ptracerMapLong, phis, Column(ptracerMap, ilat));
    assert c == InnerTracerColumn(vMap, vMapLat, vMapLong, ptracerMap, ptracerMapLat, ptracerMapLong,
                                  ilat, rOuterKm, rInnerKm, p, tr);
  }

  /** The latitude loop of map_ptracer_map_inwards, once the checks have passed: each tracer
      column carried inwards into the same column of a new array. */
  method InnerTracerMap(vMap: Grid, vMapLat: seq<real>, vMapLong: seq<real>,
                        ptracerMap: Grid, ptracerMapLat: seq<real>, ptracerMapLong: seq<real>,
                        rOuterKm: real, rInnerKm: real, p: Params, tr: Transcendentals,
                        ghost expected: seq<seq<real>>)
    returns (inner: array2<real>)
    requires p.Valid() && tr.Lawful() && GridPositive(vMap)
    requires NonDecreasing(vMapLat) && NonDecreasing(vMapLong)
    requires AxesMatch(vMap, vMapLat, vMapLong) && AxesMatch(ptracerMap, ptracerMapLat, ptracerMapLong)
    requires rInnerKm <= rOuterKm
    requires IsInnerTracerMap(expected, vMap, vMapLat, vMapLong, ptracerMap, ptracerMapLat, ptracerMapLong,
                              rOuterKm, rInnerKm, p, tr)
    ensures fresh(inner)
    ensures inner.Length0 == |ptracerMapLong| && inner.Length1 == |ptracerMapLat|
    ensures forall j :: 0 <= j < inner.Length1 ==> ArrayColumn(inner, j) == expected[j]
  {
    inner := new real[|ptracerMapLong|, |ptracerMapLat|]((_, _) => 1.0);
    for ilat := 0 to |ptracerMapLat|
      invariant forall j :: 0 <= j < ilat ==> ArrayColumn(inner, j) == expected[j]
    {
      var resampled := CarryTracerColumn(vMap, vMapLat, vMapLong, ptracerMap, ptracerMapLat,
                                         ptracerMapLong, ilat, rOuterKm, rInnerKm, p, tr, expected);
      FillColumn(inner, ilat, resampled);
    }
  }

  /** map_ptracer_map_inwards: the radial check, the speed map's axis checks, then the tracer
      map's; otherwise an array of the tracer map's shape, whatever the speed map's shape,
      whose column j is InnerTracerColumn(j). */
  method MapPtracerMapInwards(vMap: Grid, vMapLat: seq<real>, vMapLong: seq<real>,
                              ptracerMap: Grid, ptracerMapLat: seq<real>, ptracerMapLong: seq<real>,
                              rOuterKm: real, rInnerKm: real, p: Params, tr: Transcendentals)
    returns (r: Result<array2<real>>)
    requires p.Valid() && tr.Lawful()
    requires (rInnerKm <= rOuterKm && AxesMatch(vMap, vMapLat, vMapLong)
              && AxesMatch(ptracerMap, ptracerMapLat, ptracerMapLong)) ==>
      GridPositive(vMap) && NonDecreasing(vMapLat) && NonDecreasing(vMapLong)
    ensures rOuterKm < rInnerKm ==> r == Err(InvalidRadialOrdering)
    ensures rInnerKm <= rOuterKm && !AxesMatch(vMap, vMapLat, vMapLong) ==>
      r == Err(AxesError(vMap, vMapLat, vMapLong))
    ensures (rInnerKm <= rOuterKm && AxesMatch(vMap, vMapLat, vMapLong)
             && !AxesMatch(ptracerMap, ptracerMapLat, ptracerMapLong)) ==>
      r == Err(AxesError(ptracerMap, ptracerMapLat, ptracerMapLong))
    ensures r.Ok? <==> (rInnerKm <= rOuterKm && AxesMatch(vMap, vMapLat, vMapLong)
                        && AxesMatch(ptracerMap, ptracerMapLat, ptracerMapLong))
    ensures r.Ok? ==> fresh(r.value)
    ensures r.Ok? ==> r.value.Length0 == |ptracerMapLong| && r.value.Length1 == |ptracerMapLat|
    ensures r.Ok? ==> forall j :: 0 <= j < r.value.Length1 ==>
      ArrayColumn(r.value, j) == InnerTracerColumns(vMap, vMapLat, vMapLong, ptracerMap, ptracerMapLat,
                                                    ptracerMapLong, rOuterKm, rInnerKm, p, tr)[j]
  {
    if rOuterKm < rInnerKm {
      return Err(InvalidRadialOrdering);
    }
    if !AxesMatch(vMap, vMapLat, vMapLong) {
      return Err(AxesError(vMap, vMapLat, vMapLong));
    }
    if !AxesMatch(ptracerMap, ptracerMapLat, ptracerMapLong) {
      return Err(AxesError(ptracerMap, ptracerMapLat, ptracerMapLong));
    }
    var inner := InnerTracerMap(vMap, vMapLat, vMapLong, ptracerMap, ptracerMapLat, ptracerMapLong,
                                rOuterKm, rInnerKm, p, tr,
                                InnerTracerColumns(vMap, vMapLat, vMapLong, ptracerMap, ptracerMapLat,
                                                   ptracerMapLong, rOuterKm, rInnerKm, p, tr));
    return Ok(inner);
  }

  /** Mapping a speed map to the radius it is already at returns it unchanged, when its
      longitudes are different modulo 2*pi. */
  lemma SpeedColumnAtEqualRadii(vMap: Grid, vMapLong: seq<real>, j: nat, rKm: real,
                                p: Params, tr: Transcendentals)
    requires p.Valid() && tr.Lawful() && GridPositive(vMap)
    requires j < Cols(vMap) && |vMapLong| == |vMap| > 0 && DistinctModTurn(vMapLong)
    ensures InnerSpeedColumn(vMap, vMapLong, j, rKm, rKm, p, tr) == Column(vMap, j)
  {
    PositiveSlices(vMap, j, 0);
    SpeedProfileAtEqualRadii(Column(vMap, j), vMapLong, rKm, p, tr);
  }

  /** Carrying a tracer map to the radius it is already at returns it unchanged, whatever the
      speeds, when its longitudes are different modulo 2*pi. */
  lemma TracerColumnAtEqualRadii(vMap: Grid, vMapLat: seq<real>, vMapLong: seq<real>,
                                 ptracerMap: Grid, ptracerMapLat: seq<real>, ptracerMapLong: seq<real>,
                                 j: nat, rKm: real, p: Params, tr: Transcendentals)
    requires p.Valid() && tr.Lawful() && GridPositive(vMap)
    requires |vMapLat| == Cols(vMap) > 0 && |vMapLong| == |vMap| > 0
    requires NonDecreasing(vMapLat) && NonDecreasing(vMapLong)
    requires j < |ptracerMapLat| == Cols(ptracerMap) && |ptracerMapLong| == |ptracerMap| > 0
    requires DistinctModTurn(ptracerMapLong)
    ensures InnerTracerColumn(vMap, vMapLat, vMapLong, ptracerMap, ptracerMapLat, ptracerMapLong,
                              j, rKm, rKm, p, tr) == Column(ptracerMap, j)
  {
    var vPlongs := CoLocatedSpeeds(vMap, vMapLat, vMapLong, ptracerMapLat[j], ptracerMapLong);
    TracerProfileAtEqualRadii(vPlongs, ptracerMapLong, Column(ptracerMap, j), rKm, p, tr);
  }
}
