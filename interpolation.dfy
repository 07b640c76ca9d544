/** One-dimensional piecewise-linear interpolation with the semantics of numpy.interp, in its
    clamped form (no period) and in its periodic form (period = 2*pi). Every resampling step
    of the boundary-remapping code goes through one of the two. */
module Interpolation {
  import opened Errors
  import opened Angles

  /** numpy.interp's requirement on its sample coordinates when no period is given. */
  predicate NonDecreasing(xs: seq<real>) {
    forall i, j :: 0 <= i < j < |xs| ==> xs[i] <= xs[j]
  }

  predicate StrictlyIncreasing(xs: seq<real>) {
    forall i, j :: 0 <= i < j < |xs| ==> xs[i] < xs[j]
  }

  /** The index numpy's bracketing search returns for a sample point x inside the range:
      the largest j with xp[j] <= x. */
  function LastAtOrBelow(xp: seq<real>, x: real): (j: nat)
    requires |xp| > 0 && xp[0] <= x
    ensures j < |xp| && xp[j] <= x
    ensures forall k :: j < k < |xp| ==> x < xp[k]
  {
    if xp[|xp| - 1] <= x then |xp| - 1 else LastAtOrBelow(xp[..|xp| - 1], x)
  }

  /** The straight line through (x0, y0) and (x1, y1) at x, in numpy's order of operations:
      slope * (x - x0) + y0. */
  function Lerp(x0: real, x1: real, y0: real, y1: real, x: real): real
    requires x0 < x1
  {
    (y1 - y0) / (x1 - x0) * (x - x0) + y0
  }

  /** Between its two nodes the line stays between the two node values. */
  lemma LerpBetween(x0: real, x1: real, y0: real, y1: real, x: real)
    requires x0 <= x <= x1 && x0 < x1
    ensures y0 <= y1 ==> y0 <= Lerp(x0, x1, y0, y1, x) <= y1
    ensures y1 <= y0 ==> y1 <= Lerp(x0, x1, y0, y1, x) <= y0
  {
    var d := x1 - x0;
    var t := (x - x0) / d;
    assert t * d == x - x0;
    assert 0.0 <= t <= 1.0;
    assert (y1 - y0) / d * (x - x0) == (y1 - y0) * t;
    assert Lerp(x0, x1, y0, y1, x) == y0 + (y1 - y0) * t;
    if y0 <= y1 {
      assert 0.0 <= (y1 - y0) * t <= y1 - y0;
    } else {
      assert y1 - y0 <= (y1 - y0) * t <= 0.0;
    }
  }

  /** numpy.interp(x, xp, fp) without a period: the end values outside the sample range
      (a query beyond the last sample is tested first), the sample value when x hits the
      bracketing sample, and the line through the two bracketing samples otherwise. Each
      result lies between two of the sample values. */
  function Interp(x: real, xp: seq<real>, fp: seq<real>): (r: real)
    requires |xp| == |fp| > 0 && NonDecreasing(xp)
    ensures Bracketed(r, fp)
  {
    var n := |xp|;
    if n == 1 then fp[0]
    else if x > xp[n - 1] then fp[n - 1]
    else if x < xp[0] then fp[0]
    else
      var j := LastAtOrBelow(xp, x);
      if j == n - 1 then fp[n - 1]
      else if xp[j] == x then fp[j]
      else
        LerpBetween(xp[j], xp[j + 1], fp[j], fp[j + 1], x);
        Lerp(xp[j], xp[j + 1], fp[j], fp[j + 1], x)
  }

  /** Outside the sample range the clamped interpolation returns the end values. */
  lemma InterpClamps(x: real, xp: seq<real>, fp: seq<real>)
    requires |xp| == |fp| > 0 && NonDecreasing(xp)
    ensures x < xp[0] ==> Interp(x, xp, fp) == fp[0]
    ensures x >= xp[|xp| - 1] ==> Interp(x, xp, fp) == fp[|fp| - 1]
  {
    if |xp| > 1 && x >= xp[|xp| - 1] && x <= xp[|xp| - 1] {
      assert xp[0] <= xp[|xp| - 1];
      assert LastAtOrBelow(xp, x) == |xp| - 1;
    }
  }

  /** On strictly increasing samples the interpolant passes through every sample. */
  lemma {:induction false} InterpAtSample(xp: seq<real>, fp: seq<real>, k: nat)
    requires |xp| == |fp| && k < |xp| && StrictlyIncreasing(xp)
    ensures NonDecreasing(xp) && Interp(xp[k], xp, fp) == fp[k]
  {
    var n := |xp|;
    if n > 1 {
      assert xp[0] <= xp[k] <= xp[n - 1];
      assert LastAtOrBelow(xp, xp[k]) == k;
    }
  }

  /** numpy.interp applied to an array of queries. */
  function InterpMany(xs: seq<real>, xp: seq<real>, fp: seq<real>): (r: seq<real>)
    requires |xp| == |fp| > 0 && NonDecreasing(xp)
    ensures |r| == |xs|
    ensures forall q :: 0 <= q < |xs| ==> r[q] == Interp(xs[q], xp, fp)
  {
    seq(|xs|, q requires 0 <= q < |xs| => Interp(xs[q], xp, fp))
  }

  /** numpy.interp's own checks, in its order: an empty sample array, then sample arrays of
      different lengths. */
  function InterpAt(x: real, xp: seq<real>, fp: seq<real>): (r: Result<real>)
    requires NonDecreasing(xp)
    ensures r.Err? <==> |xp| == 0 || |fp| != |xp|
    ensures |xp| == 0 ==> r == Err(EmptySamples)
    ensures |xp| > 0 && |fp| != |xp| ==> r == Err(LengthMismatch)
    ensures r.Ok? ==> r.value == Interp(x, xp, fp)
  {
    if |xp| == 0 then Err(EmptySamples)
    else if |fp| != |xp| then Err(LengthMismatch)
    else Ok(Interp(x, xp, fp))
  }

  /** numpy.interp on an array of queries, with the same checks. */
  function InterpManyAt(xs: seq<real>, xp: seq<real>, fp: seq<real>): (r: Result<seq<real>>)
    requires NonDecreasing(xp)
    ensures r.Err? <==> |xp| == 0 || |fp| != |xp|
    ensures |xp| == 0 ==> r == Err(EmptySamples)
    ensures |xp| > 0 && |fp| != |xp| ==> r == Err(LengthMismatch)
    ensures r.Ok? ==> |r.value| == |xs| && forall q :: 0 <= q < |xs| ==> Bracketed(r.value[q], fp)
  {
    if |xp| == 0 then Err(EmptySamples)
    else if |fp| != |xp| then Err(LengthMismatch)
    else
      var r := InterpMany(xs, xp, fp);
      assert forall q :: 0 <= q < |xs| ==> Bracketed(r[q], fp) by {
        forall q | 0 <= q < |xs|
          ensures Bracketed(r[q], fp)
        {
          var i, k :| 0 <= i < |fp| && 0 <= k < |fp| && fp[i] <= Interp(xs[q], xp, fp) <= fp[k];
        }
      }
      Ok(r)
  }

  /** x lies between two of the values in fp. */
  predicate Bracketed(x: real, fp: seq<real>) {
    exists i, k :: 0 <= i < |fp| && 0 <= k < |fp| && fp[i] <= x <= fp[k]
  }

  // ---------------------------------------------------------------------------------------
  // Periodic form

  /** One sample of a profile: a longitude and the value there. */
  datatype Sample = Sample(lon: real, value: real)

  function Lons(s: seq<Sample>): (r: seq<real>)
    ensures |r| == |s| && forall i :: 0 <= i < |s| ==> r[i] == s[i].lon
  {
    seq(|s|, i requires 0 <= i < |s| => s[i].lon)
  }

  function Values(s: seq<Sample>): (r: seq<real>)
    ensures |r| == |s| && forall i :: 0 <= i < |s| ==> r[i] == s[i].value
  {
    seq(|s|, i requires 0 <= i < |s| => s[i].value)
  }

  predicate SortedByLon(s: seq<Sample>) {
    forall i, j :: 0 <= i < j < |s| ==> s[i].lon <= s[j].lon
  }

  predicate StrictlySortedByLon(s: seq<Sample>) {
    forall i, j :: 0 <= i < j < |s| ==> s[i].lon < s[j].lon
  }

  /** Inserts e into a sorted sequence ahead of the samples whose longitude is not smaller. */
  function Insert(e: Sample, s: seq<Sample>): (r: seq<Sample>)
    requires SortedByLon(s)
    ensures |r| == |s| + 1
    ensures r[0] == e || (|s| > 0 && r[0] == s[0])
    ensures SortedByLon(r)
    ensures multiset(r) == multiset(s) + multiset{e}
  {
    if s == [] || e.lon <= s[0].lon then [e] + s
    else
      assert s == [s[0]] + s[1..];
      [s[0]] + Insert(e, s[1..])
  }

  /** Stable insertion sort by longitude: the argsort that numpy.interp applies to the
      samples in its periodic form. */
  function SortByLon(ps: seq<Sample>): (r: seq<Sample>)
    ensures SortedByLon(r)
    ensures multiset(r) == multiset(ps)
  {
    if ps == [] then []
    else
      assert ps == [ps[0]] + ps[1..];
      Insert(ps[0], SortByLon(ps[1..]))
  }

  /** Insertion keeps a sequence strictly sorted when the new longitude is not already there. */
  lemma {:induction false} InsertStrict(e: Sample, s: seq<Sample>)
    requires StrictlySortedByLon(s)
    requires forall k :: 0 <= k < |s| ==> s[k].lon != e.lon
    ensures StrictlySortedByLon(Insert(e, s))
  {
    if s != [] && e.lon > s[0].lon {
      InsertStrict(e, s[1..]);
      var t := Insert(e, s[1..]);
      assert s[0].lon < t[0].lon;
    }
  }

  /** Sorting samples with pairwise different longitudes gives strictly increasing longitudes. */
  lemma {:induction false} SortStrict(ps: seq<Sample>)
    requires forall a, b :: 0 <= a < b < |ps| ==> ps[a].lon != ps[b].lon
    ensures StrictlySortedByLon(SortByLon(ps))
  {
    if ps != [] {
      SortStrict(ps[1..]);
      var t := SortByLon(ps[1..]);
      forall k | 0 <= k < |t| ensures t[k].lon != ps[0].lon {
        assert t[k] in multiset(ps[1..]);
        var m :| 0 <= m < |ps[1..]| && ps[1..][m] == t[k];
        assert ps[m + 1] == t[k];
      }
      InsertStrict(ps[0], t);
    }
  }

  /** The samples as numpy.interp sees them in periodic form: longitudes reduced modulo 2*pi. */
  function WrappedSamples(xp: seq<real>, fp: seq<real>): (s: seq<Sample>)
    requires |xp| == |fp|
    ensures |s| == |xp|
    ensures forall i :: 0 <= i < |s| ==> s[i] == Sample(Wrap(xp[i]), fp[i])
  {
    seq(|xp|, i requires 0 <= i < |xp| => Sample(Wrap(xp[i]), fp[i]))
  }

  /** A sorted turn of samples extended by one sample on each side: the last sample one turn
      earlier in front, the first sample one turn later behind. */
  function Extended(s: seq<Sample>): (e: seq<Sample>)
    requires |s| > 0
    ensures |e| == |s| + 2
    ensures e[0] == Sample(s[|s| - 1].lon - TwoPi, s[|s| - 1].value)
    ensures e[|s| + 1] == Sample(s[0].lon + TwoPi, s[0].value)
    ensures e[1..|s| + 1] == s
  {
    [Sample(s[|s| - 1].lon - TwoPi, s[|s| - 1].value)] + s + [Sample(s[0].lon + TwoPi, s[0].value)]
  }

  predicate InTurn(s: seq<Sample>) {
    forall i :: 0 <= i < |s| ==> 0.0 <= s[i].lon < TwoPi
  }

  /** The extension of a sorted turn is sorted, strictly so when the turn is. */
  lemma ExtendedSorted(s: seq<Sample>)
    requires |s| > 0 && SortedByLon(s) && InTurn(s)
    ensures NonDecreasing(Lons(Extended(s)))
    ensures StrictlySortedByLon(s) ==> StrictlyIncreasing(Lons(Extended(s)))
  {
    var e := Extended(s);
    var n := |s|;
    var xs := Lons(e);
    forall i, j | 0 <= i < j < n + 2
      ensures xs[i] <= xs[j]
      ensures StrictlySortedByLon(s) ==> xs[i] < xs[j]
    {
      if i == 0 {
        assert xs[0] < 0.0;
        if j <= n { assert xs[j] == s[j - 1].lon; } else { assert s[0].lon + TwoPi > 0.0; }
      } else if j == n + 1 {
        assert xs[i] == s[i - 1].lon < TwoPi;
      } else {
        assert xs[i] == s[i - 1].lon && xs[j] == s[j - 1].lon;
      }
    }
  }

  /** The sorted, wrapped samples of a profile. */
  function SortedTurn(xp: seq<real>, fp: seq<real>): (s: seq<Sample>)
    requires |xp| == |fp|
    ensures |s| == |xp| && SortedByLon(s) && InTurn(s)
    ensures multiset(s) == multiset(WrappedSamples(xp, fp))
  {
    var w := WrappedSamples(xp, fp);
    var s := SortByLon(w);
    PermutedInTurn(w, s);
    s
  }

  /** A rearrangement of samples within one turn is within one turn and as long. */
  lemma PermutedInTurn(w: seq<Sample>, s: seq<Sample>)
    requires InTurn(w) && multiset(s) == multiset(w)
    ensures |s| == |w| && InTurn(s)
  {
    forall i | 0 <= i < |s|
      ensures 0.0 <= s[i].lon < TwoPi
    {
      assert s[i] in multiset(w);
      var k :| 0 <= k < |w| && w[k] == s[i];
    }
    assert |s| == |multiset(s)| == |multiset(w)| == |w|;
  }

  /** The clamped interpolation that the periodic form runs on the extended turn. */
  function TurnInterp(x: real, xp: seq<real>, fp: seq<real>): real
    requires |xp| == |fp| > 0
  {
    var s := SortedTurn(xp, fp);
    ExtendedSorted(s);
    Interp(Wrap(x), Lons(Extended(s)), Values(Extended(s)))
  }

  /** numpy.interp(x, xp, fp, period=2*pi): query and samples reduced modulo 2*pi, samples
      sorted by longitude and extended cyclically, then clamped interpolation. Each result
      lies between two of the sample values. */
  function PeriodicInterp(x: real, xp: seq<real>, fp: seq<real>): (r: real)
    requires |xp| == |fp| > 0
    ensures Bracketed(r, fp)
  {
    TurnInterpBracket(x, xp, fp);
    TurnInterp(x, xp, fp)
  }

  lemma TurnInterpBracket(x: real, xp: seq<real>, fp: seq<real>)
    requires |xp| == |fp| > 0
    ensures exists i, k :: 0 <= i < |fp| && 0 <= k < |fp| && fp[i] <= TurnInterp(x, xp, fp) <= fp[k]
  {
    var s := SortedTurn(xp, fp);
    var e := Extended(s);
    var mi, mk := ExtendedBracket(x, s, e);
    var i := SampleValueIsInput(xp, fp, s, e, mi);
    var k := SampleValueIsInput(xp, fp, s, e, mk);
    assert fp[i] <= TurnInterp(x, xp, fp) <= fp[k];
  }

  /** The clamped interpolation on an extended turn lies between two of its values. */
  lemma ExtendedBracket(x: real, s: seq<Sample>, e: seq<Sample>) returns (i: nat, k: nat)
    requires |s| > 0 && SortedByLon(s) && InTurn(s) && e == Extended(s)
    ensures NonDecreasing(Lons(e))
    ensures i < |e| && k < |e|
    ensures e[i].value <= Interp(Wrap(x), Lons(e), Values(e)) <= e[k].value
  {
    ExtendedSorted(s);
    var r := Interp(Wrap(x), Lons(e), Values(e));
    i, k :| 0 <= i < |e| && 0 <= k < |e| && Values(e)[i] <= r <= Values(e)[k];
  }

  /** Every value of the extended turn is one of the profile's values. */
  lemma SampleValueIsInput(xp: seq<real>, fp: seq<real>, s: seq<Sample>, e: seq<Sample>, i: nat)
    returns (m: nat)
    requires |xp| == |fp| > 0 && s == SortedTurn(xp, fp) && e == Extended(s) && i < |e|
    ensures m < |fp| && fp[m] == e[i].value
  {
    var w := WrappedSamples(xp, fp);
    var p := if i == 0 then |s| - 1 else if i == |s| + 1 then 0 else i - 1;
    assert e[i].value == s[p].value by {
      if 0 < i <= |s| { assert e[i] == e[1..|s| + 1][i - 1]; }
    }
    assert s[p] in multiset(w);
    m :| 0 <= m < |w| && w[m] == s[p];
  }

  /** The periodic interpolant does not see whole turns of its query. */
  lemma PeriodicInterpPeriodic(x: real, k: int, xp: seq<real>, fp: seq<real>)
    requires |xp| == |fp| > 0
    ensures PeriodicInterp(x + k as real * TwoPi, xp, fp) == PeriodicInterp(x, xp, fp)
  {
    WrapShift(x, k);
  }

  /** A constant profile resamples to the same constant everywhere. */
  lemma PeriodicInterpConstant(x: real, xp: seq<real>, fp: seq<real>, c: real)
    requires |xp| == |fp| > 0
    requires forall k :: 0 <= k < |fp| ==> fp[k] == c
    ensures PeriodicInterp(x, xp, fp) == c
  {
  }

  /** The periodic interpolant lies within any bounds of its sample values. */
  lemma PeriodicInterpWithin(x: real, xp: seq<real>, fp: seq<real>, lo: real, hi: real)
    requires |xp| == |fp| > 0
    requires forall k :: 0 <= k < |fp| ==> lo <= fp[k] <= hi
    ensures lo <= PeriodicInterp(x, xp, fp) <= hi
  {
  }

  /** Longitudes that stay pairwise different after reduction modulo 2*pi. */
  predicate DistinctModTurn(xs: seq<real>) {
    forall a, b :: 0 <= a < b < |xs| ==> Wrap(xs[a]) != Wrap(xs[b])
  }

  /** When the sample longitudes are different modulo 2*pi, the periodic interpolant passes
      through every sample, at every query that is the same angle as that sample's longitude. */
  lemma PeriodicInterpAtSample(x: real, xp: seq<real>, fp: seq<real>, i: nat)
    requires |xp| == |fp| && i < |xp| && DistinctModTurn(xp)
    requires Wrap(x) == Wrap(xp[i])
    ensures PeriodicInterp(x, xp, fp) == fp[i]
  {
    var s := SortedTurn(xp, fp);
    var p := SampleInTurn(xp, fp, i);
    var e := Extended(s);
    ExtendedSorted(s);
    assert e[p + 1] == e[1..|s| + 1][p];
    assert Lons(e)[p + 1] == Wrap(x) && Values(e)[p + 1] == fp[i];
    InterpAtSample(Lons(e), Values(e), p + 1);
  }

  /** Where sample i sits in the sorted turn, which is strictly sorted when the longitudes
      are different modulo 2*pi. */
  lemma SampleInTurn(xp: seq<real>, fp: seq<real>, i: nat) returns (p: nat)
    requires |xp| == |fp| && i < |xp| && DistinctModTurn(xp)
    ensures StrictlySortedByLon(SortedTurn(xp, fp))
    ensures p < |xp| && SortedTurn(xp, fp)[p] == Sample(Wrap(xp[i]), fp[i])
  {
    var w := WrappedSamples(xp, fp);
    SortStrict(w);
    var s := SortedTurn(xp, fp);
    assert w[i] in multiset(s);
    p :| 0 <= p < |s| && s[p] == w[i];
  }

  /** numpy.interp with a period applied to an array of queries. */
  function PeriodicInterpMany(xs: seq<real>, xp: seq<real>, fp: seq<real>): (r: seq<real>)
    requires |xp| == |fp| > 0
    ensures |r| == |xs|
    ensures forall q :: 0 <= q < |xs| ==> r[q] == PeriodicInterp(xs[q], xp, fp)
  {
    seq(|xs|, q requires 0 <= q < |xs| => PeriodicInterp(xs[q], xp, fp))
  }
}
