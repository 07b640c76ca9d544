/** The MAS boundary conditions as the transport model takes them: the coronal model's maps
    of radial speed and radial field, stored with one row per Carrington longitude and one
    column per colatitude measured down from the north pole, either turned into maps with a
    latitude axis that increases from the south pole, or cut along one latitude and
    interpolated onto the model's longitude grid. Fetching and reading the files is not part
    of this model: the fetch status and the arrays read are parameters. */
module MasInput {
  import opened Errors
  import opened Angles
  import opened Interpolation
  import opened Grids
  import opened Reconcile

  /** What the reader of the MAS files returns: each map with its longitude axis (Xa, one
      entry per row) and its colatitude axis (Xm, one entry per column), in radians. */
  datatype MasOutput = MasOutput(vr: Grid, vrXa: seq<real>, vrXm: seq<real>,
                                 br: Grid, brXa: seq<real>, brXm: seq<real>)

  /** A Carrington map as the reconcilers take it: values by (longitude, latitude), with the
      latitude axis measured up from the equator. */
  datatype CarringtonMap = CarringtonMap(values: Grid, lats: seq<real>, longs: seq<real>)

  /** numpy.flipud on a one-dimensional array. */
  function Reverse(s: seq<real>): (r: seq<real>)
    ensures |r| == |s|
    ensures forall i :: 0 <= i < |s| ==> r[i] == s[|s| - 1 - i]
  {
    seq(|s|, i requires 0 <= i < |s| => s[|s| - 1 - i])
  }

  lemma ReverseTwice(s: seq<real>)
    ensures Reverse(Reverse(s)) == s
  {
    var r := Reverse(Reverse(s));
    forall i | 0 <= i < |s|
      ensures r[i] == s[i]
    {
      assert r[i] == Reverse(s)[|s| - 1 - i];
    }
  }

  /** numpy.fliplr: every row reversed, so column j becomes column Cols - 1 - j. */
  function FlipColumns(g: Grid): (f: Grid)
    ensures |f| == |g| && Cols(f) == Cols(g)
    ensures forall i :: 0 <= i < |g| ==> f[i] == Reverse(g[i])
  {
    var f := seq(|g|, i requires 0 <= i < |g| => Reverse(g[i]));
    assert forall i :: 0 <= i < |f| ==> |f[i]| == |f[0]|;
    f
  }

  /** Colatitudes turned into latitudes: pi/2 - x, element by element. */
  function FromPole(xm: seq<real>): (lats: seq<real>)
    ensures |lats| == |xm|
    ensures forall j :: 0 <= j < |xm| ==> lats[j] + xm[j] == HalfPi
  {
    seq(|xm|, j requires 0 <= j < |xm| => HalfPi - xm[j])
  }

  /** The axis handling of get_MAS_maps for one map: latitudes from colatitudes, the
      latitude axis flipped, the map's columns flipped with it, the longitudes kept. */
  function Canonical(values: Grid, xa: seq<real>, xm: seq<real>): (m: CarringtonMap)
    ensures m.longs == xa && |m.values| == |values| && Cols(m.values) == Cols(values)
    ensures forall i :: 0 <= i < |values| ==> m.values[i] == Reverse(values[i])
    ensures |m.lats| == |xm| && forall j :: 0 <= j < |xm| ==> m.lats[j] == HalfPi - xm[|xm| - 1 - j]
  {
    CarringtonMap(FlipColumns(values), Reverse(FromPole(xm)), xa)
  }

  /** get_MAS_maps: the Carrington rotation must be positive, then the files must have been
      fetched; otherwise both maps, each with its axes made canonical. */
  function GetMasMaps(cr: int, flag: int, mas: MasOutput): (r: Result<(CarringtonMap, CarringtonMap)>)
    ensures cr <= 0 ==> r == Err(InvalidArgument)
    ensures cr > 0 && flag <= -1 ==> r == Err(DataUnavailable)
    ensures r.Ok? <==> cr > 0 && flag > -1
    ensures r.Ok? ==> r.value.0 == Canonical(mas.vr, mas.vrXa, mas.vrXm)
    ensures r.Ok? ==> r.value.1 == Canonical(mas.br, mas.brXa, mas.brXm)
  {
    if cr <= 0 then Err(InvalidArgument)
    else if flag <= -1 then Err(DataUnavailable)
    else Ok((Canonical(mas.vr, mas.vrXa, mas.vrXm), Canonical(mas.br, mas.brXa, mas.brXm)))
  }

  /** Flipping keeps every value with its latitude: column j of the canonical map is the MAS
      column Cols - 1 - j, and its latitude is pi/2 minus that column's colatitude. Rows and
      longitudes are untouched. */
  lemma CanonicalPairing(values: Grid, xa: seq<real>, xm: seq<real>)
    requires |xm| == Cols(values)
    ensures var m := Canonical(values, xa, xm);
      && m.longs == xa && |m.values| == |values| && |m.lats| == Cols(m.values) == |xm|
      && forall j :: 0 <= j < |xm| ==>
           m.lats[j] == HalfPi - xm[|xm| - 1 - j] && Column(m.values, j) == Column(values, |xm| - 1 - j)
  {
    var m := Canonical(values, xa, xm);
    var n := |xm|;
    forall j | 0 <= j < n
      ensures m.lats[j] == HalfPi - xm[n - 1 - j] && Column(m.values, j) == Column(values, n - 1 - j)
    {
      assert m.lats[j] == FromPole(xm)[n - 1 - j];
      forall i | 0 <= i < |values|
        ensures Column(m.values, j)[i] == Column(values, n - 1 - j)[i]
      {
        assert m.values[i] == Reverse(values[i]);
      }
    }
  }

  /** Colatitudes that increase away from the north pole give latitudes that increase away
      from the south pole, strictly when they do. */
  lemma CanonicalIncreasing(values: Grid, xa: seq<real>, xm: seq<real>)
    ensures NonDecreasing(xm) ==> NonDecreasing(Canonical(values, xa, xm).lats)
    ensures StrictlyIncreasing(xm) ==> StrictlyIncreasing(Canonical(values, xa, xm).lats)
  {
    var lats := Canonical(values, xa, xm).lats;
    var n := |xm|;
    forall i, j | 0 <= i < j < n
      ensures lats[i] - lats[j] == xm[n - 1 - j] - xm[n - 1 - i]
    {
      assert lats[i] == FromPole(xm)[n - 1 - i];
      assert lats[j] == FromPole(xm)[n - 1 - j];
    }
  }

  /** Flipping back and converting back recovers the MAS map and its colatitudes. */
  lemma CanonicalRoundTrip(values: Grid, xa: seq<real>, xm: seq<real>)
    ensures var m := Canonical(values, xa, xm);
      FlipColumns(m.values) == values && FromPole(Reverse(m.lats)) == xm && m.longs == xa
  {
    var m := Canonical(values, xa, xm);
    forall i | 0 <= i < |values|
      ensures FlipColumns(m.values)[i] == values[i]
    {
      ReverseTwice(values[i]);
    }
    ReverseTwice(FromPole(xm));
    var back := FromPole(Reverse(m.lats));
    forall j | 0 <= j < |xm|
      ensures back[j] == xm[j]
    {
      assert Reverse(m.lats)[j] == FromPole(xm)[j];
    }
  }

  /** A canonical map passes the reconcilers' axis checks exactly when the MAS map has two
      rows and two columns at least and its axes label them. */
  lemma CanonicalAxesMatch(values: Grid, xa: seq<real>, xm: seq<real>)
    ensures var m := Canonical(values, xa, xm);
      AxesMatch(m.values, m.lats, m.longs) <==>
        |values| >= 2 && Cols(values) >= 2 && |xm| == Cols(values) && |xa| == |values|
  {
  }

  /** The colatitude of a latitude given in degrees: pi/2 - lat * pi/180. Latitudes from the
      south pole to the north pole give colatitudes from pi down to 0. */
  function Colatitude(latDeg: real): (ang: real)
    ensures -90.0 <= latDeg <= 90.0 ==> 0.0 <= ang <= Pi
    ensures latDeg == 0.0 ==> ang == HalfPi
  {
    HalfPi - latDeg * (Pi / 180.0)
  }

  /** The inner loops of get_MAS_long_profile as numpy runs them: an array of n entries, entry
      i being row i of the map interpolated at colatitude ang. Indexing row 0 of an empty map
      fails first, then numpy.interp's checks of the colatitude axis against the rows, then
      indexing a row the map does not have. */
  function ProfileAtColatitude(ang: real, n: nat, xm: seq<real>, grid: Grid): (r: Result<seq<real>>)
    requires NonDecreasing(xm)
    ensures r.Ok? <==> n == 0 || (n <= |grid| && 0 < |xm| == Cols(grid))
    ensures n > 0 && |grid| == 0 ==> r == Err(IndexOutOfRange)
    ensures n > 0 && |grid| > 0 && |xm| == 0 ==> r == Err(EmptySamples)
    ensures n > 0 && |grid| > 0 && |xm| > 0 && Cols(grid) != |xm| ==> r == Err(LengthMismatch)
    ensures n > |grid| > 0 && 0 < |xm| == Cols(grid) ==> r == Err(IndexOutOfRange)
    ensures r.Ok? ==> |r.value| == n && forall i :: 0 <= i < n ==> Bracketed(r.value[i], grid[i])
  {
    if n == 0 then Ok([])
    else if |grid| == 0 then Err(IndexOutOfRange)
    else if |xm| == 0 then Err(EmptySamples)
    else if Cols(grid) != |xm| then Err(LengthMismatch)
    else if n > |grid| then Err(IndexOutOfRange)
    else
      var r := seq(n, i requires 0 <= i < n => Interp(ang, xm, grid[i]));
      assert forall i :: 0 <= i < n ==> Bracketed(r[i], grid[i]) by {
        forall i | 0 <= i < n
          ensures Bracketed(r[i], grid[i])
        {
          var a, b :| 0 <= a < |grid[i]| && 0 <= b < |grid[i]| && grid[i][a] <= r[i] <= grid[i][b];
        }
      }
      Ok(r)
  }

  /** One loop of get_MAS_long_profile: a preallocated array overwritten entry by entry with
      numpy.interp of one row at colatitude ang. */
  method ExtractAtColatitude(ang: real, n: nat, xm: seq<real>, grid: Grid) returns (r: Result<seq<real>>)
    requires NonDecreasing(xm)
    ensures r == ProfileAtColatitude(ang, n, xm, grid)
  {
    var a := new real[n](_ => 1.0);
    for i := 0 to n
      invariant i > 0 ==> i <= |grid| && 0 < |xm| == Cols(grid)
      invariant forall k :: 0 <= k < i ==> a[k] == Interp(ang, xm, grid[k])
    {
      if i >= |grid| {
        return Err(IndexOutOfRange);
      }
      var v := InterpAt(ang, xm, grid[i]);
      if v.Err? {
        return Err(v.error);
      }
      a[i] := v.value;
    }
    if n > 0 {
      ghost var expected := ProfileAtColatitude(ang, n, xm, grid).value;
      assert forall k :: 0 <= k < n ==> expected[k] == Interp(ang, xm, grid[k]);
      assert expected == a[..];
    }
    return Ok(a[..]);
  }

  /** At one of the map's own colatitudes, the profile is that column of the map. */
  lemma ProfileAtSampleColatitude(c: nat, n: nat, xm: seq<real>, grid: Grid)
    requires StrictlyIncreasing(xm) && c < |xm| == Cols(grid) && 0 < n <= |grid|
    ensures NonDecreasing(xm)
    ensures ProfileAtColatitude(xm[c], n, xm, grid) == Ok(Column(grid, c)[..n])
  {
    InterpAtSample(xm, grid[0], c);
    var r := ProfileAtColatitude(xm[c], n, xm, grid).value;
    var col := Column(grid, c)[..n];
    forall i | 0 <= i < n
      ensures r[i] == col[i]
    {
      assert r[i] == Interp(xm[c], xm, grid[i]);
      InterpAtSample(xm, grid[i], c);
    }
    assert r == col;
  }

  /** get_MAS_long_profile: the Carrington rotation must be positive, then the latitude in
      [-90, 90] degrees, then the files must have been fetched; then each map is cut at the
      latitude's colatitude, one entry per longitude of its axis, and numpy.interp (without a
      period) takes each cut onto the model's longitudes. */
  function LongProfile(cr: int, latDeg: real, flag: int, mas: MasOutput, longs: seq<real>)
    : (r: Result<(seq<real>, seq<real>)>)
    requires cr > 0 && -90.0 <= latDeg <= 90.0 && flag > -1 ==>
      && NonDecreasing(mas.vrXm) && NonDecreasing(mas.brXm)
      && NonDecreasing(mas.vrXa) && NonDecreasing(mas.brXa)
    ensures cr <= 0 ==> r == Err(InvalidArgument)
    ensures cr > 0 && !(-90.0 <= latDeg <= 90.0) ==> r == Err(InvalidArgument)
    ensures cr > 0 && -90.0 <= latDeg <= 90.0 && flag <= -1 ==> r == Err(DataUnavailable)
    ensures r.Ok? <==> && cr > 0 && -90.0 <= latDeg <= 90.0 && flag > -1
                       && 0 < |mas.vrXa| <= |mas.vr| && 0 < |mas.vrXm| == Cols(mas.vr)
                       && 0 < |mas.brXa| <= |mas.br| && 0 < |mas.brXm| == Cols(mas.br)
    ensures r.Ok? ==> |r.value.0| == |longs| && |r.value.1| == |longs|
    ensures r.Ok? ==> r.value.0 == InterpMany(longs, mas.vrXa,
                        ProfileAtColatitude(Colatitude(latDeg), |mas.vrXa|, mas.vrXm, mas.vr).value)
    ensures r.Ok? ==> r.value.1 == InterpMany(longs, mas.brXa,
                        ProfileAtColatitude(Colatitude(latDeg), |mas.brXa|, mas.brXm, mas.br).value)
  {
    if cr <= 0 then Err(InvalidArgument)
    else if !(-90.0 <= latDeg <= 90.0) then Err(InvalidArgument)
    else if flag <= -1 then Err(DataUnavailable)
    else
      var ang := Colatitude(latDeg);
      var vr :- ProfileAtColatitude(ang, |mas.vrXa|, mas.vrXm, mas.vr);
      var br :- ProfileAtColatitude(ang, |mas.brXa|, mas.brXm, mas.br);
      var vrIn :- InterpManyAt(longs, mas.vrXa, vr);
      var brIn :- InterpManyAt(longs, mas.brXa, br);
      Ok((vrIn, brIn))
  }

  /** get_MAS_long_profile as the source runs it, loops included. */
  method GetMasLongProfile(cr: int, latDeg: real, flag: int, mas: MasOutput, longs: seq<real>)
    returns (r: Result<(seq<real>, seq<real>)>)
    requires cr > 0 && -90.0 <= latDeg <= 90.0 && flag > -1 ==>
      && NonDecreasing(mas.vrXm) && NonDecreasing(mas.brXm)
      && NonDecreasing(mas.vrXa) && NonDecreasing(mas.brXa)
    ensures r == LongProfile(cr, latDeg, flag, mas, longs)
  {
    if cr <= 0 || !(-90.0 <= latDeg <= 90.0) {
      return Err(InvalidArgument);
    }
    var ang := Colatitude(latDeg);
    if flag <= -1 {
      return Err(DataUnavailable);
    }
    var vr := ExtractAtColatitude(ang, |mas.vrXa|, mas.vrXm, mas.vr);
    if vr.Err? {
      return Err(vr.error);
    }
    var br := ExtractAtColatitude(ang, |mas.brXa|, mas.brXm, mas.br);
    if br.Err? {
      return Err(br.error);
    }
    var vrIn := InterpManyAt(longs, mas.vrXa, vr.value);
    if vrIn.Err? {
      return Err(vrIn.error);
    }
    var brIn := InterpManyAt(longs, mas.brXa, br.value);
    if brIn.Err? {
      return Err(brIn.error);
    }
    return Ok((vrIn.value, brIn.value));
  }

  /** x lies between two values of the map. */
  predicate WithinMap(x: real, g: Grid) {
    exists i, a, k, b :: 0 <= i < |g| && 0 <= a < |g[i]| && 0 <= k < |g| && 0 <= b < |g[k]| &&
      g[i][a] <= x <= g[k][b]
  }

  /** Every speed and every field value of a longitude profile lies between two values of its
      MAS map; in particular a map of positive speeds gives positive speeds. */
  lemma LongProfileWithinMaps(cr: int, latDeg: real, flag: int, mas: MasOutput, longs: seq<real>)
    requires cr > 0 && -90.0 <= latDeg <= 90.0 && flag > -1 ==>
      && NonDecreasing(mas.vrXm) && NonDecreasing(mas.brXm)
      && NonDecreasing(mas.vrXa) && NonDecreasing(mas.brXa)
    ensures var r := LongProfile(cr, latDeg, flag, mas, longs);
      r.Ok? ==> forall q :: 0 <= q < |longs| ==> WithinMap(r.value.0[q], mas.vr) && WithinMap(r.value.1[q], mas.br)
  {
    var r := LongProfile(cr, latDeg, flag, mas, longs);
    if r.Ok? {
      var ang := Colatitude(latDeg);
      var vr := ProfileAtColatitude(ang, |mas.vrXa|, mas.vrXm, mas.vr).value;
      var br := ProfileAtColatitude(ang, |mas.brXa|, mas.brXm, mas.br).value;
      CutWithinMap(longs, mas.vrXa, vr, mas.vr, r.value.0);
      CutWithinMap(longs, mas.brXa, br, mas.br, r.value.1);
    }
  }

  /** Interpolating a cut whose entries each lie within a row of the map stays within the map. */
  lemma CutWithinMap(longs: seq<real>, xa: seq<real>, cut: seq<real>, g: Grid, out: seq<real>)
    requires NonDecreasing(xa) && |cut| <= |g|
    requires forall i :: 0 <= i < |cut| ==> Bracketed(cut[i], g[i])
    requires InterpManyAt(longs, xa, cut) == Ok(out)
    ensures forall q :: 0 <= q < |longs| ==> WithinMap(out[q], g)
  {
    forall q | 0 <= q < |longs|
      ensures WithinMap(out[q], g)
    {
      var i, k :| 0 <= i < |cut| && 0 <= k < |cut| && cut[i] <= out[q] <= cut[k];
      var a, a' :| 0 <= a < |g[i]| && 0 <= a' < |g[i]| && g[i][a] <= cut[i] <= g[i][a'];
      var b, b' :| 0 <= b < |g[k]| && 0 <= b' < |g[k]| && g[k][b] <= cut[k] <= g[k][b'];
      assert g[i][a] <= out[q] <= g[k][b'];
    }
  }
}
