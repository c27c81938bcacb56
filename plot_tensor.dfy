/** `plot_tensor.py`: picks one (source, gene, modality, cell, sample)
    combination of the expression tensor and extracts its rates over time.

    The array is read in the layout (feature, modality, cell, time, sample),
    each feature key a (source number, gene number) pair, as `tensor.npy`
    and `mappings.pkl` give them to `tensor_to_json.py`. The prompts are
    modelled by `Prompt.GetValidInput`; a query starts from the values they
    return. The drawing itself is not modelled. */
module PlotTensor {
  import opened Wrappers
  import opened Dicts
  import opened Text
  import opened Ordering
  import TensorToJson

  type Feature = TensorToJson.Feature
  type Mappings = TensorToJson.Mappings

  /** Every index the mappings hold is inside the array; numpy raises an
      `IndexError` otherwise. */
  predicate Within(t: array5<Option<real>>, m: Mappings)
    reads t
  {
    && (forall k :: 0 <= k < |m.featureToIdx| ==> m.featureToIdx[k].1 < t.Length0)
    && (forall k :: 0 <= k < |m.modalityToIdx| ==> m.modalityToIdx[k].1 < t.Length1)
    && (forall k :: 0 <= k < |m.cellToIdx| ==> m.cellToIdx[k].1 < t.Length2)
    && (forall k :: 0 <= k < |m.timeToIdx| ==> m.timeToIdx[k].1 < t.Length3)
    && (forall k :: 0 <= k < |m.sampleToIdx| ==> m.sampleToIdx[k].1 < t.Length4)
  }

  /* ---------- the choices offered ---------- */

  /** Line 19: `valid_features`. */
  function Features(m: Mappings): set<Feature> {
    set k | 0 <= k < |m.featureToIdx| :: m.featureToIdx[k].0
  }

  function Sources(features: set<Feature>): set<int> {
    set f | f in features :: f.0
  }

  /** Line 20: `valid_source_nums`, each source number once, increasing. */
  ghost function ValidSourceNums(m: Mappings): seq<int> {
    SortedInts(Sources(Features(m)))
  }

  /** A source number is offered iff some feature key has it, once, and the
      offers increase. */
  lemma SourceNumsOffered(m: Mappings, source: int)
    ensures source in ValidSourceNums(m) <==> exists gene :: (source, gene) in Features(m)
    ensures forall i, j :: 0 <= i < j < |ValidSourceNums(m)| ==> ValidSourceNums(m)[i] < ValidSourceNums(m)[j]
  {
    if exists gene :: (source, gene) in Features(m) {
      var gene :| (source, gene) in Features(m);
      assert source == (source, gene).0;
    }
  }

  /** Lines 23-27: each source's genes, one per feature key, in the order the
      set is walked (Python's hash order, left open here). */
  method SourceToGenes(features: set<Feature>) returns (r: map<int, seq<int>>)
    ensures r.Keys == Sources(features)
    ensures forall s :: s in r ==> Distinct(r[s]) && forall g :: g in r[s] <==> (s, g) in features
  {
    r := map[];
    var rest := features;
    while rest != {}
      invariant rest <= features
      invariant r.Keys == Sources(features - rest)
      invariant forall s :: s in r ==> Distinct(r[s]) && forall g :: g in r[s] <==> (s, g) in features - rest
      decreases rest
    {
      var f :| f in rest;
      var (source, gene) := f;
      if source !in r {
        r := r[source := []];
      }
      assert gene !in r[source];
      r := r[source := r[source] + [gene]];
      rest := rest - {f};
      assert Sources(features - rest) == Sources(features - (rest + {f})) + {source};
    }
  }

  /** A gene chosen from `source_to_genes[source]` names a feature the
      mappings hold, so the lookup of line 52 succeeds. */
  lemma ChosenFeatureFound(m: Mappings, r: map<int, seq<int>>, source: int, gene: int)
    requires forall s :: s in r ==> forall g :: g in r[s] <==> (s, g) in Features(m)
    requires source in r && gene in r[source]
    ensures Get(m.featureToIdx, (source, gene)).Some?
  {
    assert (source, gene) in Features(m);
    var k :| 0 <= k < |m.featureToIdx| && m.featureToIdx[k].0 == (source, gene);
    assert Keys(m.featureToIdx)[k] == (source, gene);
  }

  /* ---------- one query ---------- */

  /** The feature, modality, cell and sample indices of a combination. */
  type Loc = (nat, nat, nat, nat)

  /** `tensor[feature_idx, modality_idx, cell_idx, time_idx, sample_idx]`;
      `None` for NaN (and, to keep the function total, out of bounds). */
  function RateAt(t: array5<Option<real>>, loc: Loc, ti: nat): Option<real>
    reads t
  {
    if loc.0 < t.Length0 && loc.1 < t.Length1 && loc.2 < t.Length2 && ti < t.Length3 && loc.3 < t.Length4
    then t[loc.0, loc.1, loc.2, ti, loc.3]
    else None
  }

  /** Line 59: some time index holds a rate. */
  predicate HasData(t: array5<Option<real>>, times: Dict<int, nat>, loc: Loc)
    reads t
  {
    exists k :: 0 <= k < |times| && RateAt(t, loc, times[k].1).Some?
  }

  /** The (time, rate) pairs whose rate is present, in `time_to_idx` order. */
  function Present(t: array5<Option<real>>, times: Dict<int, nat>, loc: Loc): seq<(int, real)>
    reads t
  {
    if times == [] then []
    else
      var (time, ti) := times[|times| - 1];
      var rate := RateAt(t, loc, ti);
      Present(t, times[..|times| - 1], loc) + (if rate.Some? then [(time, rate.value)] else [])
  }

  function Firsts(ps: seq<(int, real)>): (r: seq<int>)
    ensures |r| == |ps| && forall k :: 0 <= k < |ps| ==> r[k] == ps[k].0
  {
    seq(|ps|, k requires 0 <= k < |ps| => ps[k].0)
  }

  function Seconds(ps: seq<(int, real)>): (r: seq<real>)
    ensures |r| == |ps| && forall k :: 0 <= k < |ps| ==> r[k] == ps[k].1
  {
    seq(|ps|, k requires 0 <= k < |ps| => ps[k].1)
  }

  /** Lines 66-72: `time_points` and `expression_rates`. */
  method ExtractSeries(t: array5<Option<real>>, times: Dict<int, nat>, loc: Loc) returns (timePoints: seq<int>, rates: seq<real>)
    ensures timePoints == Firsts(Present(t, times, loc))
    ensures rates == Seconds(Present(t, times, loc))
  {
    ghost var ps: seq<(int, real)> := [];
    timePoints, rates := [], [];
    for k := 0 to |times|
      invariant ps == Present(t, times[..k], loc)
      invariant timePoints == Firsts(ps) && rates == Seconds(ps)
    {
      assert times[..k + 1][..k] == times[..k];
      var (time, ti) := times[k];
      var rate := RateAt(t, loc, ti);
      if rate.Some? {
        timePoints := timePoints + [time];
        rates := rates + [rate.value];
        ps := ps + [(time, rate.value)];
      }
    }
    assert times[..|times|] == times;
  }

  /** A pair is extracted iff its time index holds a rate. */
  lemma {:induction false} PresentIff(t: array5<Option<real>>, times: Dict<int, nat>, loc: Loc, p: (int, real))
    ensures p in Present(t, times, loc) <==>
      exists k :: 0 <= k < |times| && times[k].0 == p.0 && RateAt(t, loc, times[k].1) == Some(p.1)
  {
    if times != [] {
      var n := |times| - 1;
      PresentIff(t, times[..n], loc, p);
      if exists k :: 0 <= k < n && times[..n][k].0 == p.0 && RateAt(t, loc, times[..n][k].1) == Some(p.1) {
        var k :| 0 <= k < n && times[..n][k].0 == p.0 && RateAt(t, loc, times[..n][k].1) == Some(p.1);
        assert times[k] == times[..n][k];
      }
      if exists k :: 0 <= k < |times| && times[k].0 == p.0 && RateAt(t, loc, times[k].1) == Some(p.1) {
        var k :| 0 <= k < |times| && times[k].0 == p.0 && RateAt(t, loc, times[k].1) == Some(p.1);
        if k < n {
          assert times[..n][k] == times[k];
        }
      }
    }
  }

  /** The series is empty iff the combination has no rate at all. */
  lemma {:induction false} PresentEmpty(t: array5<Option<real>>, times: Dict<int, nat>, loc: Loc)
    ensures Present(t, times, loc) == [] <==> !HasData(t, times, loc)
  {
    if times != [] {
      var n := |times| - 1;
      PresentEmpty(t, times[..n], loc);
      if HasData(t, times[..n], loc) {
        var k :| 0 <= k < n && RateAt(t, loc, times[..n][k].1).Some?;
        assert times[k] == times[..n][k];
      }
      if HasData(t, times, loc) {
        var k :| 0 <= k < |times| && RateAt(t, loc, times[k].1).Some?;
        if k < n {
          assert times[..n][k] == times[k];
        }
      }
    }
  }

  function TimeKey(p: (int, real)): int {
    p.0
  }

  /** Lines 74-76: `sorted(range(n), key=...)` is stable, so taking the pairs
      in the order of the sorted indices is the stable sort of the pairs by
      time. */
  function SortedSeries(ps: seq<(int, real)>): seq<(int, real)> {
    SortByKey(ps, TimeKey)
  }

  /** The sorted series is increasing in time and holds the same (time, rate)
      pairs, each rate still with its own time. */
  lemma SortedSeriesSpec(ps: seq<(int, real)>)
    ensures |SortedSeries(ps)| == |ps|
    ensures forall i, j :: 0 <= i < j < |ps| ==> Firsts(SortedSeries(ps))[i] <= Firsts(SortedSeries(ps))[j]
    ensures forall p :: p in SortedSeries(ps) <==> p in ps
  {
    var r := SortedSeries(ps);
    assert |r| == |multiset(r)| == |multiset(ps)| == |ps|;
    forall p
      ensures p in r <==> p in ps
    {
      assert p in r <==> p in multiset(r);
      assert p in ps <==> p in multiset(ps);
    }
  }

  /** Python's `min` of a non-empty list. */
  function MinOf(xs: seq<real>): (r: real)
    requires xs != []
    ensures r in xs && forall x :: x in xs ==> r <= x
  {
    if |xs| == 1 then xs[0]
    else
      var rest := MinOf(xs[1..]);
      assert forall x :: x in xs ==> x == xs[0] || x in xs[1..];
      if xs[0] <= rest then xs[0] else rest
  }

  /** Python's `max` of a non-empty list. */
  function MaxOf(xs: seq<real>): (r: real)
    requires xs != []
    ensures r in xs && forall x :: x in xs ==> x <= r
  {
    if |xs| == 1 then xs[0]
    else
      var rest := MaxOf(xs[1..]);
      assert forall x :: x in xs ==> x == xs[0] || x in xs[1..];
      if xs[0] >= rest then xs[0] else rest
  }

  /** Line 87. */
  function PlotFilename(source: int, gene: int, modality: string, cell: string, sample: int): string {
    "plots/gene_" + IntToString(source) + "_" + IntToString(gene) + "_" + modality + "_cell_" + cell
      + "_sample_" + IntToString(sample) + ".png"
  }

  /** What one pass of the loop ends with: the warning of line 60, or a plot
      saved under `filename` of `times` against `rates`, whose range is
      `yMin` to `yMax`. */
  datatype Answer =
    | Nonexistent
    | Plotted(filename: string, times: seq<int>, rates: seq<real>, yMin: real, yMax: real)

  const KeyError := "KeyError"

  /** The indices of a combination, or the `KeyError` of lines 52-55. */
  function Locate(m: Mappings, source: int, gene: int, modality: string, cell: string, sample: int): Option<Loc> {
    var f := Get(m.featureToIdx, (source, gene));
    var mi := Get(m.modalityToIdx, modality);
    var c := Get(m.cellToIdx, cell);
    var s := Get(m.sampleToIdx, sample);
    if f.Some? && mi.Some? && c.Some? && s.Some? then Some((f.value, mi.value, c.value, s.value)) else None
  }

  /** Lines 52-93 for the chosen combination. */
  function Query(t: array5<Option<real>>, m: Mappings, source: int, gene: int, modality: string, cell: string, sample: int)
    : Result<Answer, string>
    reads t
  {
    var loc := Locate(m, source, gene, modality, cell, sample);
    if loc.None? then Failure(KeyError)
    else if !HasData(t, m.timeToIdx, loc.value) then Success(Nonexistent)
    else
      var sorted := SortedSeries(Present(t, m.timeToIdx, loc.value));
      PresentEmpty(t, m.timeToIdx, loc.value);
      SortedSeriesSpec(Present(t, m.timeToIdx, loc.value));
      Success(Plotted(PlotFilename(source, gene, modality, cell, sample), Firsts(sorted), Seconds(sorted),
                      MinOf(Seconds(sorted)), MaxOf(Seconds(sorted))))
  }

  /** Lines 52-93: the lookups, the check for a combination without rates,
      the extraction, the sort, the range and the file name. */
  method PlotQuery(t: array5<Option<real>>, m: Mappings, source: int, gene: int, modality: string, cell: string, sample: int)
    returns (r: Result<Answer, string>)
    requires Within(t, m)
    ensures r == Query(t, m, source, gene, modality, cell, sample)
  {
    var loc := Locate(m, source, gene, modality, cell, sample);
    if loc.None? {
      return Failure(KeyError);
    }
    var found := HasData(t, m.timeToIdx, loc.value);
    if !found {
      return Success(Nonexistent);
    }
    var timePoints, rates := ExtractSeries(t, m.timeToIdx, loc.value);
    ghost var ps := Present(t, m.timeToIdx, loc.value);
    assert ps == Zip(timePoints, rates) by {
      ZipFirstsSeconds(ps);
    }
    var sorted := SortedSeries(Zip(timePoints, rates));
    PresentEmpty(t, m.timeToIdx, loc.value);
    SortedSeriesSpec(ps);
    var sortedTimes := Firsts(sorted);
    var sortedRates := Seconds(sorted);
    var yMin := MinOf(sortedRates);
    var yMax := MaxOf(sortedRates);
    return Success(Plotted(PlotFilename(source, gene, modality, cell, sample), sortedTimes, sortedRates, yMin, yMax));
  }

  /** The two parallel lists as pairs. */
  function Zip(xs: seq<int>, ys: seq<real>): seq<(int, real)>
    requires |xs| == |ys|
  {
    seq(|xs|, k requires 0 <= k < |xs| => (xs[k], ys[k]))
  }

  lemma ZipFirstsSeconds(ps: seq<(int, real)>)
    ensures Zip(Firsts(ps), Seconds(ps)) == ps
  {
  }

  /** The warning is given iff no time of the combination holds a rate. */
  lemma NonexistentIff(t: array5<Option<real>>, m: Mappings, source: int, gene: int, modality: string, cell: string, sample: int)
    requires Locate(m, source, gene, modality, cell, sample).Some?
    ensures Query(t, m, source, gene, modality, cell, sample) == Success(Nonexistent) <==>
      forall k :: 0 <= k < |m.timeToIdx| ==>
        RateAt(t, Locate(m, source, gene, modality, cell, sample).value, m.timeToIdx[k].1).None?
  {
  }

  /** A plot shows exactly the times that hold a rate, each with its rate, in
      increasing time order, and its range is the least and greatest rate; the
      figure is saved under the name of line 87. */
  lemma PlottedSeries(t: array5<Option<real>>, m: Mappings, source: int, gene: int, modality: string, cell: string, sample: int,
                      time: int, rate: real)
    requires Query(t, m, source, gene, modality, cell, sample).Success?
    requires Query(t, m, source, gene, modality, cell, sample).value.Plotted?
    ensures var a := Query(t, m, source, gene, modality, cell, sample).value;
      var loc := Locate(m, source, gene, modality, cell, sample).value;
      && a.filename == PlotFilename(source, gene, modality, cell, sample)
      && |a.times| == |a.rates| > 0
      && (forall i, j :: 0 <= i < j < |a.times| ==> a.times[i] <= a.times[j])
      && ((time, rate) in Zip(a.times, a.rates) <==>
          exists k :: 0 <= k < |m.timeToIdx| && m.timeToIdx[k].0 == time && RateAt(t, loc, m.timeToIdx[k].1) == Some(rate))
      && a.yMin in a.rates && a.yMax in a.rates
      && forall x :: x in a.rates ==> a.yMin <= x <= a.yMax
  {
    var loc := Locate(m, source, gene, modality, cell, sample).value;
    var ps := Present(t, m.timeToIdx, loc);
    var sorted := SortedSeries(ps);
    SortedSeriesSpec(ps);
    PresentEmpty(t, m.timeToIdx, loc);
    PresentIff(t, m.timeToIdx, loc, (time, rate));
    ZipFirstsSeconds(sorted);
  }
}
