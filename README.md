# Boundary remapping for the HUXt solar-wind model, in Dafny

This project models the part of `HUXtinput.py` that prepares inner boundary conditions for the
HUXt solar-wind model, and proves properties of that model.

- **Kinematic mapper** (`map_v_inwards`, module `Kinematics`). A solar-wind speed seen at an outer
  radius and a Carrington longitude is mapped inwards along HUXt's residual-acceleration law.
  This gives a speed at the inner radius, a transit time, and the longitude the parcel left
  from, wrapped into [0, 2π).
- **numpy.interp** (module `Interpolation`). Every resampling step uses it.
  - Without a period: clamped to the end values, and numpy's error checks.
  - With period 2π: samples and queries reduced modulo 2π, samples sorted, the turn extended
    cyclically by one sample at each end, then clamped interpolation.
- **Boundary profiles** (`map_v_boundary_inwards`, `map_ptracer_boundary_inwards`, module
  `Boundary`). A ring of speeds on the model's longitude grid, or a passive tracer carried by
  those speeds, is mapped inwards and resampled periodically onto the same grid.
- **Map reconcilers** (`map_vmap_inwards`, `map_ptracer_map_inwards`, module `Reconcile`).
  - Each checks the radial ordering and the map axes.
  - Each then fills a freshly allocated two-dimensional array, one latitude column per loop
    iteration.
  - The tracer version first takes the speed map at the tracer latitude (inner loop). It then
    interpolates, without a period, at the tracer longitudes. Finally it carries the tracer
    column by those speeds.
  - The loops are methods over `array`/`array2`, proved against functions that give each
    output column.
- **MAS axis handling** (`get_MAS_maps`, `get_MAS_long_profile`, module `MasInput`).
  - `get_MAS_maps`: colatitudes become latitudes, and the latitude axis and the map columns are
    flipped together.
  - `get_MAS_long_profile`: the maps are cut at one latitude (loops over arrays), then the cuts
    are interpolated onto the model's longitude grid.

Errors are values: every `raise`, failing `assert` and numpy exception in the modelled code
becomes an `Err` of `Errors.MapError`, in the order the code reaches it.

All numbers are Dafny `real`, with exact arithmetic. `exp` and `log` are passed in as the
record `Kinematics.Transcendentals`. `Lawful()` states the only facts the proofs use about
them:
- `exp(0) = 1`;
- `0 < exp(x) <= 1` for `x <= 0`;
- `log(a·e^b) = log(a) + b` for `a > 0`.

The HUXt module's constants (`alpha`, `r_accel`, `synodic_period`) are the parameter
`Kinematics.Params`. Its longitude grid is a parameter `lon`/`longs`.

## Model

| member | source | states |
|---|---|---|
| Angles.Wrap | code/HUXtinput.py:363 | the wrapped longitude lies in [0, 2π) |
| Angles.WrapShift | code/HUXtinput.py:363 | wrapping forgets any whole number of turns |
| Angles.WrapUnique | code/HUXtinput.py:363 | the wrap of x is the only angle in [0, 2π) that differs from x by whole turns |
| Angles.WrapIdempotent | code/HUXtinput.py:363 | wrapping an already wrapped longitude changes nothing |
| Interpolation.LerpBetween | code/HUXtinput.py:507 | between two nodes the straight line stays between the two node values |
| Interpolation.Interp | code/HUXtinput.py:507 | numpy.interp without a period: each result lies between two of the sample values |
| Interpolation.InterpClamps | code/HUXtinput.py:510 | below the first sample the result is the first value; at or beyond the last sample it is the last value |
| Interpolation.InterpAtSample | code/HUXtinput.py:240 | on strictly increasing samples, interpolating at a sample point returns that sample's value |
| Interpolation.InterpAt | code/HUXtinput.py:240 | numpy's checks: an empty sample array is refused, then samples and values of different lengths; otherwise the interpolated value |
| Interpolation.InterpManyAt | code/HUXtinput.py:251-252 | the same checks on an array of queries; on success one result per query, each between two sample values |
| Interpolation.SortByLon | code/HUXtinput.py:393 | the samples sorted by longitude: ordered, and a permutation of the input samples |
| Interpolation.SortStrict | code/HUXtinput.py:393 | when sample longitudes pairwise differ, the sorted longitudes are strictly increasing |
| Interpolation.ExtendedSorted | code/HUXtinput.py:393 | the cyclically extended turn of sorted samples in [0, 2π) has non-decreasing longitudes, so clamped interpolation applies |
| Interpolation.PeriodicInterp | code/HUXtinput.py:393 | numpy.interp with period 2π: each result lies between two of the sample values |
| Interpolation.PeriodicInterpPeriodic | code/HUXtinput.py:461 | querying at x and at x + 2πk gives the same result |
| Interpolation.PeriodicInterpConstant | code/HUXtinput.py:517-518 | a constant profile resamples to that constant at every query |
| Interpolation.PeriodicInterpWithin | code/HUXtinput.py:461 | the periodic interpolant respects any lower and upper bound of its sample values |
| Interpolation.PeriodicInterpMany | code/HUXtinput.py:393 | numpy.interp with period 2π on an array of queries: one result per query, each the periodic interpolant at that query |
| Interpolation.PeriodicInterpAtSample | code/HUXtinput.py:393 | when sample longitudes differ modulo 2π, a query at the same angle as sample i returns that sample's value |
| Interpolation.SampleInTurn | code/HUXtinput.py:393 | each sample, with its longitude wrapped, appears in the sorted turn, and that turn is strictly sorted |
| Kinematics.InnerSpeed | code/HUXtinput.py:352 | the inner speed is positive and at most the outer speed |
| Kinematics.InnerLongitude | code/HUXtinput.py:355-363 | the inner longitude lies in [0, 2π) |
| Kinematics.MapVInwards | code/HUXtinput.py:340-365 | refuses r_outer < r_inner before any numeric work, then arrays of different lengths; otherwise maps element by element, with one output per input, each inner speed in (0, v_outer] and each inner longitude in [0, 2π) |
| Kinematics.EqualRadiiIdentity | code/HUXtinput.py:352-363 | at r_inner = r_outer the speed is unchanged, the transit time is zero and the longitude is only wrapped |
| Kinematics.ZeroAlphaSpeed | code/HUXtinput.py:352 | with alpha = 0 the inner speed equals the outer speed at any radii |
| Kinematics.LogTerm | code/HUXtinput.py:356-359 | term1/term2 of the transit integral; without acceleration (B = 0) it is r_H·log(A)/A + r/A, by the law of logarithms |
| Kinematics.TransitTime | code/HUXtinput.py:355-360 | T = term1 − term2 is zero when the radii are equal, and distance over speed when alpha = 0 |
| Kinematics.ZeroAlphaLongitude | code/HUXtinput.py:355-363 | with alpha = 0 the longitude advances by (distance / speed / Tsyn)·2π, wrapped |
| Boundary.InnerSpeedProfile | code/HUXtinput.py:389-393 | one inner speed per grid longitude; its bounds are InnerSpeedProfileBounds and its equal-radius identity SpeedProfileAtEqualRadii |
| Boundary.InnerSpeedProfileBounds | code/HUXtinput.py:389-393 | every resampled inner speed is positive and no faster than some outer speed |
| Boundary.InnerTracerProfile | code/HUXtinput.py:419-423 | one carried tracer value per grid longitude; its bounds are InnerTracerProfileWithin, its constancy TracerProfileConstant |
| Boundary.InnerTracerProfileWithin | code/HUXtinput.py:419-423 | every carried tracer value lies between two of the outer tracer values |
| Boundary.MapVBoundaryInwards | code/HUXtinput.py:383-395 | the radial error first, then a speed profile that does not match the grid, then an empty grid; succeeds exactly otherwise, with the inner speed profile |
| Boundary.MapPtracerBoundaryInwards | code/HUXtinput.py:413-425 | the radial error, then speeds against the grid, then the tracer against the mapped longitudes (lengths before emptiness); succeeds exactly otherwise, with the carried tracer profile |
| Boundary.ResampleAtEqualRadii | code/HUXtinput.py:389-393 | at equal radii, resampling any values carried by the samples returns them, when grid longitudes differ modulo 2π |
| Boundary.SpeedProfileAtEqualRadii | code/HUXtinput.py:383-395 | mapping a speed profile to its own radius returns it unchanged |
| Boundary.TracerProfileAtEqualRadii | code/HUXtinput.py:413-425 | carrying a tracer profile to its own radius returns it unchanged |
| Boundary.TracerProfileConstant | code/HUXtinput.py:419-423 | a uniform tracer stays uniform whatever the speeds |
| Reconcile.AxesError | code/HUXtinput.py:449-450 | which failure the axis checks raise: indexing row 1 or column 1 of a map without it, otherwise the mismatched axis |
| Reconcile.InnerSpeedColumn | code/HUXtinput.py:457-461 | column j of the inner speed map, one value per longitude row, built from input column j alone |
| Reconcile.InnerSpeedColumnBounds | code/HUXtinput.py:457-461 | every inner speed of a column is positive and no faster than some speed of the same outer column |
| Reconcile.FillColumn | code/HUXtinput.py:461 | the slice assignment a[:, j] = c sets column j to c and leaves every other column as it was |
| Reconcile.CarrySpeedColumn | code/HUXtinput.py:457-461 | one loop iteration computes exactly the expected inner speed column j, from input column j alone |
| Reconcile.InnerSpeedMap | code/HUXtinput.py:454-461 | a fresh array of shape (len(long), len(lat)) whose column j is the inner speed column j |
| Reconcile.MapVMapInwards | code/HUXtinput.py:446-464 | the radial error, then the axis errors in the code's order; succeeds exactly otherwise; the result has shape (len(long), len(lat)) and column j depends only on input column j |
| Reconcile.SpeedsAtLatitude | code/HUXtinput.py:505-507 | one speed per longitude row, each that row interpolated at the tracer latitude; a positive map gives positive speeds |
| Reconcile.SpeedsAlongLatitude | code/HUXtinput.py:505-507 | the element-by-element loop fills exactly those speeds |
| Reconcile.InterpManyPositive | code/HUXtinput.py:510 | interpolating positive speeds without a period gives positive speeds |
| Reconcile.CoLocatedSpeeds | code/HUXtinput.py:505-510 | one speed per tracer longitude, from the speeds along the tracer latitude interpolated without a period; positive for a positive map |
| Reconcile.InnerTracerColumn | code/HUXtinput.py:504-518 | column j of the inner tracer map, one value per tracer longitude row, built from tracer column j and the speeds at that column's latitude |
| Reconcile.CarryTracerColumn | code/HUXtinput.py:503-518 | one loop iteration computes exactly the expected inner tracer column |
| Reconcile.InnerTracerMap | code/HUXtinput.py:501-518 | a fresh array of the tracer map's shape whose column j is the inner tracer column j |
| Reconcile.MapPtracerMapInwards | code/HUXtinput.py:493-521 | the radial error, the speed map's axis errors, then the tracer map's; succeeds exactly otherwise; the result has the tracer map's shape whatever the speed map's shape |
| Reconcile.SpeedColumnAtEqualRadii | code/HUXtinput.py:455-461 | at equal radii every column of the speed map comes back unchanged |
| Reconcile.TracerColumnAtEqualRadii | code/HUXtinput.py:502-518 | at equal radii every tracer column comes back unchanged, whatever the speed map |
| MasInput.Reverse | code/HUXtinput.py:307-308 | flipud: entry i of the result is entry n-1-i of the input |
| MasInput.ReverseTwice | code/HUXtinput.py:307-308 | flipping twice gives the input back |
| MasInput.FlipColumns | code/HUXtinput.py:309-310 | fliplr: the same shape, every row reversed |
| MasInput.FromPole | code/HUXtinput.py:303-304 | each latitude plus its colatitude is π/2 |
| MasInput.Canonical | code/HUXtinput.py:303-313 | longitudes kept; every row reversed; latitude j is π/2 minus colatitude n-1-j |
| MasInput.GetMasMaps | code/HUXtinput.py:289-319 | a non-positive Carrington rotation is refused, then a failed fetch; succeeds exactly otherwise, with both maps made canonical |
| MasInput.CanonicalPairing | code/HUXtinput.py:303-313 | longitudes and rows are kept; column j of the result is MAS column n-1-j, and its latitude is π/2 minus that column's colatitude |
| MasInput.CanonicalIncreasing | code/HUXtinput.py:303-308 | increasing colatitudes give increasing latitudes, strictly when they are strict |
| MasInput.CanonicalRoundTrip | code/HUXtinput.py:303-313 | flipping back and converting back recovers the MAS map and its colatitudes |
| MasInput.CanonicalAxesMatch | code/HUXtinput.py:303-313 | a canonical map passes the reconcilers' axis checks exactly when the MAS map has at least two rows and two columns and its axes label them |
| MasInput.Colatitude | code/HUXtinput.py:228 | latitudes in [-90°, 90°] give colatitudes in [0, π]; the equator gives π/2 |
| MasInput.ProfileAtColatitude | code/HUXtinput.py:238-244 | the cut fails on an empty map, then on numpy's axis checks, then on a row the map lacks; otherwise one value per row, each between two values of its row |
| MasInput.ExtractAtColatitude | code/HUXtinput.py:238-244 | the loop over a preallocated array gives exactly that cut, errors included |
| MasInput.ProfileAtSampleColatitude | code/HUXtinput.py:238-240 | cutting at one of the map's own colatitudes returns that column of the map |
| MasInput.LongProfile | code/HUXtinput.py:223-252 | the rotation check, then the latitude range, then the fetch, then the cut's errors; succeeds exactly when all checks pass and both maps have rows and colatitude axes that fit; each output is the cut at the latitude's colatitude interpolated, without a period, onto the model longitudes |
| MasInput.GetMasLongProfile | code/HUXtinput.py:223-252 | the method with its loops returns exactly that profile, errors included |
| MasInput.LongProfileWithinMaps | code/HUXtinput.py:238-252 | every profile value lies between two values of its MAS map, so positive speeds stay positive |

## Left out

- Fetching and reading the MAS files (`getMASboundaryconditions`, `readMASvrbr`, lines 21-197) is left out. They are network and HDF4 I/O. Their results enter as the parameters `flag` and `MasOutput`.
- `get_PFSS_maps` (lines 524-575) is left out. It is netCDF file I/O.
- The HUXt module is not part of this model: `huxt_constants`, `longitude_grid`, `_zerototwopi_`. The constants are `Params`. The grid is a parameter. The wrap is specified as the floored modulo 2π (`Angles.Wrap`).
- astropy units and `quantity_input` conversions are left out. Quantities are plain reals in km, km/s, s and rad. Latitudes for `get_MAS_long_profile` are in degrees.
- Floating point is left out: rounding, overflow, nan and inf. Real arithmetic is exact, and `Pi` is the double's printed value. A `nan` Carrington rotation is therefore not modelled.
- `exp` and `log` are left uninterpreted beyond `Lawful()`. So monotonicity of the longitude shift in radius is not stated; it needs real analysis.
- numpy broadcasting of a length-1 array against a longer one is not modelled. Arrays of different lengths are an error (`LengthMismatch`).
- Sorted axes are required only on the numeric path. numpy.interp requires its non-periodic sample coordinates to be increasing (`NonDecreasing`), and numpy does not check it. The entry points require this only when their argument and axis checks pass. Every error that comes before the numeric work is stated for any axes.
- Positive speeds are required only on the numeric path (`AllPositive`, `GridPositive`). The residual-acceleration law takes logarithms of them. The entry points require this only once the radial check, and the axis checks where there are any, have passed. So `r_outer < r_inner` is refused for any speeds.
- numpy.interp with a period sorts with an unstable argsort. The model sorts stably. The two can differ only when two samples have the same longitude modulo 2π.
- The longitude interpolation of the speed map onto the tracer longitudes (line 510) is modelled as written: without a period, so it clamps at the ends of the speed map's longitude axis rather than wrapping.
- The result arrays are always freshly allocated, so aliasing between input and output is not modelled.
- Boundary.InnerSpeedProfileBounds: bounds each resampled speed above by some outer speed, not by its own outer sample. Periodic resampling mixes neighbouring samples.
- Reconcile.MapVMapInwards: states each output column through `InnerSpeedColumns`. Its bounds and equal-radius identity are separate lemmas, not part of the method's contract.
