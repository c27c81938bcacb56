/** `tensor_to_json.py`: flattens the expression tensor back into one JSON record
    per (feature, modality, cell, sample) that holds at least one rate.

    The script reads its array in the layout (feature, modality, cell, time,
    sample), each feature key being a (source number, gene number) pair. A rate
    is a `real`; NaN is `None`. */
module TensorToJson {
  import opened Wrappers
  import opened Dicts

  /** A feature key of the tensor: `(source_num, gene_num)`. */
  type Feature = (int, int)

  /** The pickled `*_to_idx` dicts, in their insertion order. */
  datatype Mappings = Mappings(
    featureToIdx: Dict<Feature, nat>, modalityToIdx: Dict<string, nat>, cellToIdx: Dict<string, nat>,
    sampleToIdx: Dict<int, nat>, timeToIdx: Dict<int, nat>)

  /** The `idx_to_*` dicts. */
  datatype Inverses = Inverses(
    feature: map<nat, Feature>, modality: map<nat, string>, cell: map<nat, string>,
    sample: map<nat, int>, time: map<nat, int>)

  /** The items of `d` with key and value exchanged, in the same order. */
  function Swapped<K, V>(d: Dict<K, V>): (r: seq<(V, K)>)
    ensures |r| == |d| && forall j :: 0 <= j < |d| ==> r[j] == (d[j].1, d[j].0)
  {
    seq(|d|, j requires 0 <= j < |d| => (d[j].1, d[j].0))
  }

  /** `{v: k for k, v in d.items()}`. */
  function Invert<K>(d: Dict<K, nat>): map<nat, K> {
    FromPairs(Swapped(d))
  }

  /** The inverse holds exactly the values of `d`; each is sent back to the key of
      the last item holding it. */
  lemma InvertLastWins<K>(d: Dict<K, nat>, i: nat)
    ensures i in Invert(d) <==> exists j :: 0 <= j < |d| && d[j].1 == i
    ensures i in Invert(d) ==>
      exists j :: 0 <= j < |d| && d[j].1 == i && Invert(d)[i] == d[j].0
        && forall j2 :: j < j2 < |d| ==> d[j2].1 != i
  {
    var sw := Swapped(d);
    FromPairsLastWins(sw, i);
    if i in Invert(d) {
      var j :| 0 <= j < |sw| && sw[j].0 == i && FromPairs(sw)[i] == sw[j].1
        && forall j2 :: j < j2 < |sw| ==> sw[j2].0 != i;
      assert d[j].1 == i;
    }
    if j :| 0 <= j < |d| && d[j].1 == i {
      assert sw[j].0 == i;
    }
  }

  /** No two keys share an index. */
  predicate Injective<K>(d: Dict<K, nat>) {
    forall j1, j2 :: 0 <= j1 < j2 < |d| ==> d[j1].1 != d[j2].1
  }

  /** For an injective dict the inverse sends every index back to its key. */
  lemma InvertInjective<K>(d: Dict<K, nat>, j: nat)
    requires Injective(d) && j < |d|
    ensures d[j].1 in Invert(d) && Invert(d)[d[j].1] == d[j].0
  {
    InvertLastWins(d, d[j].1);
    var j' :| 0 <= j' < |d| && d[j'].1 == d[j].1 && Invert(d)[d[j].1] == d[j'].0
      && forall j2 :: j' < j2 < |d| ==> d[j2].1 != d[j].1;
  }

  /** Lines 9-13 of the script. */
  function Inverts(m: Mappings): Inverses {
    Inverses(Invert(m.featureToIdx), Invert(m.modalityToIdx), Invert(m.cellToIdx),
             Invert(m.sampleToIdx), Invert(m.timeToIdx))
  }

  /** Every index the loops look up has a key; otherwise the script stops with a
      `KeyError`. A modality, cell or sample index is looked up only when the
      loops around it run at least once, and a time index only where its entry
      holds a rate (lines 17-30). */
  predicate Covers(t: array5<Option<real>>, inv: Inverses)
    reads t
  {
    && (forall i :: 0 <= i < t.Length0 ==> i in inv.feature)
    && (0 < t.Length0 ==> forall i :: 0 <= i < t.Length1 ==> i in inv.modality)
    && (0 < t.Length0 && 0 < t.Length1 ==> forall i :: 0 <= i < t.Length2 ==> i in inv.cell)
    && (0 < t.Length0 && 0 < t.Length1 && 0 < t.Length2 ==> forall i :: 0 <= i < t.Length4 ==> i in inv.sample)
    && (forall f, m, c, ti, s ::
          (0 <= f < t.Length0 && 0 <= m < t.Length1 && 0 <= c < t.Length2 && 0 <= ti < t.Length3 && 0 <= s < t.Length4
           && t[f, m, c, ti, s].Some?) ==> ti in inv.time)
  }

  /** The time keys looked up at slot `x`: those of its present entries. */
  predicate TimesCovered(t: array5<Option<real>>, idxToTime: map<nat, int>, x: Slot)
    reads t
    requires InBounds(t, x)
  {
    forall ti :: 0 <= ti < t.Length3 && t[x.0, x.1, x.2, ti, x.3].Some? ==> ti in idxToTime
  }

  /** The `features` object of a record. */
  datatype Features = Features(sourceNum: int, geneNum: int)

  /** One element of `gene_expressions.json`. */
  datatype Record = Record(features: Features, modality: string, cell: string, sample: int,
                           timePoints: seq<int>, expressionRates: seq<real>)

  /** A (feature, modality, cell, sample) index combination: one run of the
      innermost loop. */
  type Slot = (nat, nat, nat, nat)

  predicate InBounds(t: array5<Option<real>>, x: Slot) {
    x.0 < t.Length0 && x.1 < t.Length1 && x.2 < t.Length2 && x.3 < t.Length4
  }

  /** The time indices below `n` whose entry at `x` is present, in increasing order. */
  function PresentTimes(t: array5<Option<real>>, x: Slot, n: nat): (ps: seq<nat>)
    reads t
    requires InBounds(t, x) && n <= t.Length3
    ensures forall k :: 0 <= k < |ps| ==> ps[k] < n && t[x.0, x.1, x.2, ps[k], x.3].Some?
  {
    if n == 0 then []
    else PresentTimes(t, x, n - 1) + (if t[x.0, x.1, x.2, n - 1, x.3].Some? then [n - 1] else [])
  }

  /** A time index is listed exactly when its entry is present, once, in order. */
  lemma {:induction false} PresentTimesExactly(t: array5<Option<real>>, x: Slot, n: nat)
    requires InBounds(t, x) && n <= t.Length3
    ensures forall ti: nat :: ti in PresentTimes(t, x, n) <==> ti < n && t[x.0, x.1, x.2, ti, x.3].Some?
    ensures forall k1, k2 :: 0 <= k1 < k2 < |PresentTimes(t, x, n)| ==>
      PresentTimes(t, x, n)[k1] < PresentTimes(t, x, n)[k2]
  {
    if n > 0 {
      PresentTimesExactly(t, x, n - 1);
    }
  }

  /** The slot has a record: some time index holds a rate. */
  predicate HasRecord(t: array5<Option<real>>, x: Slot)
    reads t
    requires InBounds(t, x)
  {
    exists ti :: 0 <= ti < t.Length3 && t[x.0, x.1, x.2, ti, x.3].Some?
  }

  /** The inner loop collects some time exactly when the slot has a record. */
  lemma HasRecordIff(t: array5<Option<real>>, x: Slot)
    requires InBounds(t, x)
    ensures HasRecord(t, x) <==> PresentTimes(t, x, t.Length3) != []
  {
    var ps := PresentTimes(t, x, t.Length3);
    PresentTimesExactly(t, x, t.Length3);
    if ti: nat :| ti < t.Length3 && t[x.0, x.1, x.2, ti, x.3].Some? {
      assert ti in ps;
    }
    if ps != [] {
      assert ps[0] in ps;
    }
  }

  /** `time_points` for the listed time indices. */
  function TimePoints(idxToTime: map<nat, int>, ps: seq<nat>): (r: seq<int>)
    requires forall k :: 0 <= k < |ps| ==> ps[k] in idxToTime
    ensures |r| == |ps|
  {
    if ps == [] then [] else TimePoints(idxToTime, ps[..|ps| - 1]) + [idxToTime[ps[|ps| - 1]]]
  }

  lemma {:induction false} TimePointsAt(idxToTime: map<nat, int>, ps: seq<nat>, k: nat)
    requires (forall k :: 0 <= k < |ps| ==> ps[k] in idxToTime) && k < |ps|
    ensures TimePoints(idxToTime, ps)[k] == idxToTime[ps[k]]
  {
    if k < |ps| - 1 {
      TimePointsAt(idxToTime, ps[..|ps| - 1], k);
    }
  }

  /** Every listed index is present at `x`. */
  predicate AllPresent(t: array5<Option<real>>, x: Slot, ps: seq<nat>)
    reads t
    requires InBounds(t, x)
  {
    forall k :: 0 <= k < |ps| ==> ps[k] < t.Length3 && t[x.0, x.1, x.2, ps[k], x.3].Some?
  }

  /** `expression_rates` for the listed time indices. */
  function Rates(t: array5<Option<real>>, x: Slot, ps: seq<nat>): (r: seq<real>)
    reads t
    requires InBounds(t, x) && AllPresent(t, x, ps)
    ensures |r| == |ps|
  {
    if ps == [] then []
    else Rates(t, x, ps[..|ps| - 1]) + [t[x.0, x.1, x.2, ps[|ps| - 1], x.3].value]
  }

  lemma {:induction false} RatesAt(t: array5<Option<real>>, x: Slot, ps: seq<nat>, k: nat)
    requires InBounds(t, x) && AllPresent(t, x, ps) && k < |ps|
    ensures Rates(t, x, ps)[k] == t[x.0, x.1, x.2, ps[k], x.3].value
  {
    if k < |ps| - 1 {
      RatesAt(t, x, ps[..|ps| - 1], k);
    }
  }

  /** The record the script writes for slot `x` when the slot has a rate. (A slot
      outside the array has no record; the empty record returned for it is never
      listed.) */
  function RecordAt(t: array5<Option<real>>, inv: Inverses, x: Slot): Record
    reads t
    requires Covers(t, inv)
  {
    if !InBounds(t, x) then Record(Features(0, 0), "", "", 0, [], [])
    else
      var ps := PresentTimes(t, x, t.Length3);
      var feature := inv.feature[x.0];
      Record(Features(feature.0, feature.1), inv.modality[x.1], inv.cell[x.2], inv.sample[x.3],
             TimePoints(inv.time, ps), Rates(t, x, ps))
  }

  /** The records of the slots `xs`, in order. */
  function RecordsOf(t: array5<Option<real>>, inv: Inverses, xs: seq<Slot>): (r: seq<Record>)
    reads t
    requires Covers(t, inv)
    ensures |r| == |xs|
  {
    seq(|xs|, k requires 0 <= k < |xs| && Covers(t, inv) reads t => RecordAt(t, inv, xs[k]))
  }

  lemma RecordsOfAt(t: array5<Option<real>>, inv: Inverses, xs: seq<Slot>, k: nat)
    requires Covers(t, inv) && k < |xs|
    ensures RecordsOf(t, inv, xs)[k] == RecordAt(t, inv, xs[k])
  {
  }

  lemma RecordsOfConcat(t: array5<Option<real>>, inv: Inverses, xs: seq<Slot>, ys: seq<Slot>)
    requires Covers(t, inv)
    ensures RecordsOf(t, inv, xs + ys) == RecordsOf(t, inv, xs) + RecordsOf(t, inv, ys)
  {
  }

  lemma RecordsOfOne(t: array5<Option<real>>, inv: Inverses, x: Slot)
    requires Covers(t, inv)
    ensures RecordsOf(t, inv, [x]) == [RecordAt(t, inv, x)]
  {
  }

  /** The slots that hold at least one rate. */
  ghost function Filled(t: array5<Option<real>>): iset<Slot>
    reads t
  {
    iset x: Slot | InBounds(t, x) && HasRecord(t, x)
  }

  /** `has` holds exactly the slots with a rate. */
  ghost predicate Fills(t: array5<Option<real>>, has: iset<Slot>)
    reads t
  {
    forall x {:trigger HasRecord(t, x)} :: InBounds(t, x) ==> (x in has <==> HasRecord(t, x))
  }

  /** The extent of each slot axis: features, modalities, cells, samples. */
  function Extent(t: array5<Option<real>>): Slot {
    (t.Length0, t.Length1, t.Length2, t.Length4)
  }

  /** The slots of `has`, for samples below `s` of cell `c`, in visiting order. */
  function SampleSlots(has: iset<Slot>, f: nat, m: nat, c: nat, s: nat): seq<Slot> {
    if s == 0 then []
    else SampleSlots(has, f, m, c, s - 1) + (if (f, m, c, s - 1) in has then [(f, m, c, s - 1)] else [])
  }

  /** The slots of `has`, for cells below `c` of modality `m`. */
  function CellSlots(has: iset<Slot>, n: Slot, f: nat, m: nat, c: nat): seq<Slot> {
    if c == 0 then [] else CellSlots(has, n, f, m, c - 1) + SampleSlots(has, f, m, c - 1, n.3)
  }

  /** The slots of `has`, for modalities below `m` of feature `f`. */
  function ModalitySlots(has: iset<Slot>, n: Slot, f: nat, m: nat): seq<Slot> {
    if m == 0 then [] else ModalitySlots(has, n, f, m - 1) + CellSlots(has, n, f, m - 1, n.2)
  }

  /** The slots of `has`, for features below `f`. */
  function FeatureSlots(has: iset<Slot>, n: Slot, f: nat): seq<Slot> {
    if f == 0 then [] else FeatureSlots(has, n, f - 1) + ModalitySlots(has, n, f - 1, n.1)
  }

  /** Every slot with a record, in the order the loops visit them. */
  ghost function Emitted(t: array5<Option<real>>): seq<Slot>
    reads t
  {
    FeatureSlots(Filled(t), Extent(t), t.Length0)
  }

  /** The script: the records, in loop order, of the slots that hold a rate. Each
      inner loop appends to `output` in turn; here each returns what it appends. */
  method TensorToJson(t: array5<Option<real>>, mappings: Mappings) returns (output: seq<Record>)
    requires Covers(t, Inverts(mappings))
    ensures output == RecordsOf(t, Inverts(mappings), Emitted(t))
  {
    var inv := Inverts(mappings);
    ghost var has := Filled(t);
    output := [];
    var f := 0;
    while f < t.Length0
      invariant f <= t.Length0
      invariant output == RecordsOf(t, inv, FeatureSlots(has, Extent(t), f))
    {
      var feature := inv.feature[f];
      var records := ModalityLoop(t, inv, has, f, feature);
      FeatureStep(t, inv, has, f);
      output := output + records;
      f := f + 1;
    }
  }

  /** The loop over modalities for feature `f`. */
  method ModalityLoop(t: array5<Option<real>>, inv: Inverses, ghost has: iset<Slot>, f: nat, feature: Feature) returns (records: seq<Record>)
    requires Covers(t, inv) && Fills(t, has) && f < t.Length0 && feature == inv.feature[f]
    ensures records == RecordsOf(t, inv, ModalitySlots(has, Extent(t), f, t.Length1))
  {
    records := [];
    var m := 0;
    while m < t.Length1
      invariant m <= t.Length1
      invariant records == RecordsOf(t, inv, ModalitySlots(has, Extent(t), f, m))
    {
      var modality := inv.modality[m];
      var more := CellLoop(t, inv, has, f, m, feature, modality);
      ModalityStep(t, inv, has, f, m);
      records := records + more;
      m := m + 1;
    }
  }

  /** The loop over cells for feature `f` and modality `m`. */
  method CellLoop(t: array5<Option<real>>, inv: Inverses, ghost has: iset<Slot>, f: nat, m: nat, feature: Feature, modality: string)
      returns (records: seq<Record>)
    requires Covers(t, inv) && Fills(t, has) && f < t.Length0 && m < t.Length1
    requires feature == inv.feature[f] && modality == inv.modality[m]
    ensures records == RecordsOf(t, inv, CellSlots(has, Extent(t), f, m, t.Length2))
  {
    records := [];
    var c := 0;
    while c < t.Length2
      invariant c <= t.Length2
      invariant records == RecordsOf(t, inv, CellSlots(has, Extent(t), f, m, c))
    {
      var cell := inv.cell[c];
      var more := SampleLoop(t, inv, has, f, m, c, feature, modality, cell);
      CellStep(t, inv, has, f, m, c);
      records := records + more;
      c := c + 1;
    }
  }

  /** The loop over samples for feature `f`, modality `m` and cell `c`: a record
      for each sample with at least one rate. */
  method SampleLoop(t: array5<Option<real>>, inv: Inverses, ghost has: iset<Slot>, f: nat, m: nat, c: nat,
                    feature: Feature, modality: string, cell: string)
      returns (records: seq<Record>)
    requires Covers(t, inv) && Fills(t, has) && f < t.Length0 && m < t.Length1 && c < t.Length2
    requires feature == inv.feature[f] && modality == inv.modality[m] && cell == inv.cell[c]
    ensures records == RecordsOf(t, inv, SampleSlots(has, f, m, c, t.Length4))
  {
    records := [];
    var s := 0;
    while s < t.Length4
      invariant s <= t.Length4
      invariant records == RecordsOf(t, inv, SampleSlots(has, f, m, c, s))
    {
      var sample := inv.sample[s];
      var timePoints, rates := Series(t, inv.time, (f, m, c, s));
      SampleStep(t, inv, has, f, m, c, s);
      if timePoints != [] {
        records := records + [Record(Features(feature.0, feature.1), modality, cell, sample, timePoints, rates)];
      }
      s := s + 1;
    }
  }

  /** The innermost loop: the times and rates of the present entries at `x`. */
  method Series(t: array5<Option<real>>, idxToTime: map<nat, int>, x: Slot)
      returns (timePoints: seq<int>, expressionRates: seq<real>)
    requires InBounds(t, x) && TimesCovered(t, idxToTime, x)
    ensures var ps := PresentTimes(t, x, t.Length3);
      timePoints == TimePoints(idxToTime, ps) && expressionRates == Rates(t, x, ps)
  {
    timePoints, expressionRates := [], [];
    var ti := 0;
    while ti < t.Length3
      invariant ti <= t.Length3
      invariant timePoints == TimePoints(idxToTime, PresentTimes(t, x, ti))
      invariant expressionRates == Rates(t, x, PresentTimes(t, x, ti))
    {
      var rate := t[x.0, x.1, x.2, ti, x.3];
      SeriesStep(t, idxToTime, x, ti);
      if rate.Some? {
        timePoints := timePoints + [idxToTime[ti]];
        expressionRates := expressionRates + [rate.value];
      }
      ti := ti + 1;
    }
  }

  /** One more feature: the records of its modalities follow. */
  lemma FeatureStep(t: array5<Option<real>>, inv: Inverses, has: iset<Slot>, f: nat)
    requires Covers(t, inv) && f < t.Length0
    ensures RecordsOf(t, inv, FeatureSlots(has, Extent(t), f + 1))
      == RecordsOf(t, inv, FeatureSlots(has, Extent(t), f)) + RecordsOf(t, inv, ModalitySlots(has, Extent(t), f, t.Length1))
  {
    RecordsOfConcat(t, inv, FeatureSlots(has, Extent(t), f), ModalitySlots(has, Extent(t), f, t.Length1));
  }

  /** One more modality: the records of its cells follow. */
  lemma ModalityStep(t: array5<Option<real>>, inv: Inverses, has: iset<Slot>, f: nat, m: nat)
    requires Covers(t, inv) && f < t.Length0 && m < t.Length1
    ensures RecordsOf(t, inv, ModalitySlots(has, Extent(t), f, m + 1))
      == RecordsOf(t, inv, ModalitySlots(has, Extent(t), f, m)) + RecordsOf(t, inv, CellSlots(has, Extent(t), f, m, t.Length2))
  {
    RecordsOfConcat(t, inv, ModalitySlots(has, Extent(t), f, m), CellSlots(has, Extent(t), f, m, t.Length2));
  }

  /** One more cell: the records of its samples follow. */
  lemma CellStep(t: array5<Option<real>>, inv: Inverses, has: iset<Slot>, f: nat, m: nat, c: nat)
    requires Covers(t, inv) && f < t.Length0 && m < t.Length1 && c < t.Length2
    ensures RecordsOf(t, inv, CellSlots(has, Extent(t), f, m, c + 1))
      == RecordsOf(t, inv, CellSlots(has, Extent(t), f, m, c)) + RecordsOf(t, inv, SampleSlots(has, f, m, c, t.Length4))
  {
    RecordsOfConcat(t, inv, CellSlots(has, Extent(t), f, m, c), SampleSlots(has, f, m, c, t.Length4));
  }

  /** One more sample: a record when its slot has a rate. */
  lemma SampleStep(t: array5<Option<real>>, inv: Inverses, has: iset<Slot>, f: nat, m: nat, c: nat, s: nat)
    requires Covers(t, inv) && Fills(t, has) && f < t.Length0 && m < t.Length1 && c < t.Length2 && s < t.Length4
    ensures var x := (f, m, c, s);
      var ps := PresentTimes(t, x, t.Length3);
      RecordsOf(t, inv, SampleSlots(has, f, m, c, s + 1)) == RecordsOf(t, inv, SampleSlots(has, f, m, c, s)) +
        if ps == [] then []
        else [Record(Features(inv.feature[f].0, inv.feature[f].1), inv.modality[m], inv.cell[c], inv.sample[s],
                     TimePoints(inv.time, ps), Rates(t, x, ps))]
  {
    var x, xs := (f, m, c, s), SampleSlots(has, f, m, c, s);
    HasRecordIff(t, x);
    if HasRecord(t, x) {
      RecordsOfConcat(t, inv, xs, [x]);
      RecordsOfOne(t, inv, x);
    } else {
      assert SampleSlots(has, f, m, c, s + 1) == xs + [];
    }
  }

  /** One more time index: its time and rate are appended when its entry is present. */
  lemma SeriesStep(t: array5<Option<real>>, idxToTime: map<nat, int>, x: Slot, ti: nat)
    requires InBounds(t, x) && ti < t.Length3 && TimesCovered(t, idxToTime, x)
    ensures var ps, rate := PresentTimes(t, x, ti), t[x.0, x.1, x.2, ti, x.3];
      && TimePoints(idxToTime, PresentTimes(t, x, ti + 1))
           == TimePoints(idxToTime, ps) + (if rate.Some? then [idxToTime[ti]] else [])
      && Rates(t, x, PresentTimes(t, x, ti + 1)) == Rates(t, x, ps) + (if rate.Some? then [rate.value] else [])
  {
    var ps := PresentTimes(t, x, ti);
    if t[x.0, x.1, x.2, ti, x.3].Some? {
      assert PresentTimes(t, x, ti + 1) == ps + [ti];
      assert (ps + [ti])[..|ps|] == ps;
    } else {
      assert PresentTimes(t, x, ti + 1) == ps;
    }
  }

  /** Lexicographic order of slots: the order in which the four nested loops
      visit them. */
  predicate SlotLess(x: Slot, y: Slot) {
    x.0 < y.0 || (x.0 == y.0 && (x.1 < y.1 || (x.1 == y.1 && (x.2 < y.2 || (x.2 == y.2 && x.3 < y.3)))))
  }

  predicate Increasing(xs: seq<Slot>) {
    forall i, j :: 0 <= i < j < |xs| ==> SlotLess(xs[i], xs[j])
  }

  lemma IncreasingConcat(xs: seq<Slot>, ys: seq<Slot>)
    requires Increasing(xs) && Increasing(ys)
    requires forall x, y :: x in xs && y in ys ==> SlotLess(x, y)
    ensures Increasing(xs + ys)
  {
    forall i, j | 0 <= i < j < |xs + ys|
      ensures SlotLess((xs + ys)[i], (xs + ys)[j])
    {
      if i < |xs| && |xs| <= j {
        assert (xs + ys)[i] in xs && (xs + ys)[j] in ys;
      }
    }
  }

  lemma IncreasingDistinct(xs: seq<Slot>)
    requires Increasing(xs)
    ensures forall i, j :: 0 <= i < j < |xs| ==> xs[i] != xs[j]
  {
    forall i, j | 0 <= i < j < |xs|
      ensures xs[i] != xs[j]
    {
      assert SlotLess(xs[i], xs[j]);
    }
  }

  /** The slots listed for cell `c` are slots of `has` below sample `s`, in
      increasing order. */
  lemma {:induction false} SampleSlotsOrder(has: iset<Slot>, f: nat, m: nat, c: nat, s: nat)
    ensures Increasing(SampleSlots(has, f, m, c, s))
    ensures forall x :: x in SampleSlots(has, f, m, c, s) ==> x.0 == f && x.1 == m && x.2 == c && x.3 < s && x in has
  {
    if s > 0 {
      var x, xs := (f, m, c, s - 1), SampleSlots(has, f, m, c, s - 1);
      SampleSlotsOrder(has, f, m, c, s - 1);
      if x in has {
        IncreasingConcat(xs, [x]);
      } else {
        assert SampleSlots(has, f, m, c, s) == xs + [];
      }
    }
  }

  lemma {:induction false} CellSlotsOrder(has: iset<Slot>, n: Slot, f: nat, m: nat, c: nat)
    ensures Increasing(CellSlots(has, n, f, m, c))
    ensures forall x :: x in CellSlots(has, n, f, m, c) ==> x.0 == f && x.1 == m && x.2 < c && x.3 < n.3 && x in has
  {
    if c > 0 {
      CellSlotsOrder(has, n, f, m, c - 1);
      SampleSlotsOrder(has, f, m, c - 1, n.3);
      IncreasingConcat(CellSlots(has, n, f, m, c - 1), SampleSlots(has, f, m, c - 1, n.3));
    }
  }

  lemma {:induction false} ModalitySlotsOrder(has: iset<Slot>, n: Slot, f: nat, m: nat)
    ensures Increasing(ModalitySlots(has, n, f, m))
    ensures forall x :: x in ModalitySlots(has, n, f, m) ==> x.0 == f && x.1 < m && x.2 < n.2 && x.3 < n.3 && x in has
  {
    if m > 0 {
      ModalitySlotsOrder(has, n, f, m - 1);
      CellSlotsOrder(has, n, f, m - 1, n.2);
      IncreasingConcat(ModalitySlots(has, n, f, m - 1), CellSlots(has, n, f, m - 1, n.2));
    }
  }

  lemma {:induction false} FeatureSlotsOrder(has: iset<Slot>, n: Slot, f: nat)
    ensures Increasing(FeatureSlots(has, n, f))
    ensures forall x :: x in FeatureSlots(has, n, f) ==> x.0 < f && x.1 < n.1 && x.2 < n.2 && x.3 < n.3 && x in has
  {
    if f > 0 {
      FeatureSlotsOrder(has, n, f - 1);
      ModalitySlotsOrder(has, n, f - 1, n.1);
      IncreasingConcat(FeatureSlots(has, n, f - 1), ModalitySlots(has, n, f - 1, n.1));
    }
  }

  lemma InConcat(x: Slot, xs: seq<Slot>, ys: seq<Slot>)
    requires x in xs || x in ys
    ensures x in xs + ys
  {
  }

  /** A slot of `has` of cell `c` below sample `s` is listed. */
  lemma {:induction false} InSampleSlots(has: iset<Slot>, f: nat, m: nat, c: nat, s: nat, x: Slot)
    requires x.0 == f && x.1 == m && x.2 == c && x.3 < s && x in has
    ensures x in SampleSlots(has, f, m, c, s)
  {
    if x.3 < s - 1 {
      InSampleSlots(has, f, m, c, s - 1, x);
      InConcat(x, SampleSlots(has, f, m, c, s - 1), if x in has then [(f, m, c, s - 1)] else []);
    }
  }

  lemma {:induction false} InCellSlots(has: iset<Slot>, n: Slot, f: nat, m: nat, c: nat, x: Slot)
    requires x.0 == f && x.1 == m && x.2 < c && x.3 < n.3 && x in has
    ensures x in CellSlots(has, n, f, m, c)
  {
    if x.2 < c - 1 {
      InCellSlots(has, n, f, m, c - 1, x);
    } else {
      InSampleSlots(has, f, m, c - 1, n.3, x);
    }
    InConcat(x, CellSlots(has, n, f, m, c - 1), SampleSlots(has, f, m, c - 1, n.3));
  }

  lemma {:induction false} InModalitySlots(has: iset<Slot>, n: Slot, f: nat, m: nat, x: Slot)
    requires x.0 == f && x.1 < m && x.2 < n.2 && x.3 < n.3 && x in has
    ensures x in ModalitySlots(has, n, f, m)
  {
    if x.1 < m - 1 {
      InModalitySlots(has, n, f, m - 1, x);
    } else {
      InCellSlots(has, n, f, m - 1, n.2, x);
    }
    InConcat(x, ModalitySlots(has, n, f, m - 1), CellSlots(has, n, f, m - 1, n.2));
  }

  lemma {:induction false} InFeatureSlots(has: iset<Slot>, n: Slot, f: nat, x: Slot)
    requires x.0 < f && x.1 < n.1 && x.2 < n.2 && x.3 < n.3 && x in has
    ensures x in FeatureSlots(has, n, f)
  {
    if x.0 < f - 1 {
      InFeatureSlots(has, n, f - 1, x);
    } else {
      InModalitySlots(has, n, f - 1, n.1, x);
    }
    InConcat(x, FeatureSlots(has, n, f - 1), ModalitySlots(has, n, f - 1, n.1));
  }

  /** Records come in lexicographic (feature, modality, cell, sample) order, one
      for each slot that holds a rate and for no other. */
  lemma EmittedSpec(t: array5<Option<real>>)
    ensures Increasing(Emitted(t))
    ensures forall x: Slot :: x in Emitted(t) <==> InBounds(t, x) && HasRecord(t, x)
  {
    FeatureSlotsOrder(Filled(t), Extent(t), t.Length0);
    forall x: Slot | InBounds(t, x) && HasRecord(t, x)
      ensures x in Emitted(t)
    {
      InFeatureSlots(Filled(t), Extent(t), t.Length0, x);
    }
  }

  /** The `k`-th record: the names of its slot, and parallel time and rate lists
      pairing, in increasing time-index order, exactly the present entries. */
  lemma EmittedRecord(t: array5<Option<real>>, inv: Inverses, k: nat)
    requires Covers(t, inv) && k < |Emitted(t)|
    ensures InBounds(t, Emitted(t)[k])
    ensures var x, r := Emitted(t)[k], RecordsOf(t, inv, Emitted(t))[k];
      var ps := PresentTimes(t, x, t.Length3);
      && r.features == Features(inv.feature[x.0].0, inv.feature[x.0].1)
      && r.modality == inv.modality[x.1] && r.cell == inv.cell[x.2] && r.sample == inv.sample[x.3]
      && |r.timePoints| == |r.expressionRates| == |ps| > 0
      && (forall j :: 0 <= j < |ps| ==>
            r.timePoints[j] == inv.time[ps[j]] && r.expressionRates[j] == t[x.0, x.1, x.2, ps[j], x.3].value)
  {
    var x := Emitted(t)[k];
    EmittedSpec(t);
    assert x in Emitted(t);
    var ps := PresentTimes(t, x, t.Length3);
    HasRecordIff(t, x);
    RecordsOfAt(t, inv, Emitted(t), k);
    forall j | 0 <= j < |ps|
      ensures RecordAt(t, inv, x).timePoints[j] == inv.time[ps[j]]
      ensures RecordAt(t, inv, x).expressionRates[j] == t[x.0, x.1, x.2, ps[j], x.3].value
    {
      TimePointsAt(inv.time, ps, j);
      RatesAt(t, x, ps, j);
    }
  }

  /** Round trip: a present entry lies in the record of exactly one position,
      paired with its time and its rate. */
  lemma PresentEntryEmittedOnce(t: array5<Option<real>>, inv: Inverses, x: Slot, ti: nat)
    requires Covers(t, inv) && InBounds(t, x) && ti < t.Length3 && t[x.0, x.1, x.2, ti, x.3].Some?
    ensures exists k :: (0 <= k < |Emitted(t)| && Emitted(t)[k] == x &&
      var r := RecordsOf(t, inv, Emitted(t))[k];
      exists j :: 0 <= j < |r.timePoints| && j < |r.expressionRates| &&
        r.timePoints[j] == inv.time[ti] && r.expressionRates[j] == t[x.0, x.1, x.2, ti, x.3].value)
    ensures forall k1, k2 ::
      (0 <= k1 < |Emitted(t)| && 0 <= k2 < |Emitted(t)| && Emitted(t)[k1] == x && Emitted(t)[k2] == x) ==> k1 == k2
  {
    var es := Emitted(t);
    var ps := PresentTimes(t, x, t.Length3);
    PresentTimesExactly(t, x, t.Length3);
    assert ti in ps;
    EmittedSpec(t);
    IncreasingDistinct(es);
    assert x in es;
    var k :| 0 <= k < |es| && es[k] == x;
    var j :| 0 <= j < |ps| && ps[j] == ti;
    EmittedRecord(t, inv, k);
  }
}
