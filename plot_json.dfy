/** `plot_json.py`: the selection and extraction behind the per-cell plots of
    the `sample_{n}_alive.json` files.

    A loaded file is given as data (`None` when it does not exist); the
    drawing itself is not modelled, only what each sample's figure is made
    from and the name of the file it is saved under. */
module PlotJson {
  import opened Wrappers
  import opened Dicts
  import opened Text
  import opened Ordering

  /** A JSON object of rates as `json.load` gives it back; `null` is `None`. */
  type Rates = Dict<string, Option<real>>

  /** One `data[cell][t]` object. A `proteins` or `promoters` key the object
      lacks is `None`; a missing or `null` surface area or volume is `None`; a
      missing `contacting_area` is the empty object. */
  datatype Entry = Entry(
    proteins: Option<Rates>, promoters: Option<Rates>,
    surfaceArea: Option<real>, volume: Option<real>, contactingArea: Rates)

  /** `data[cell]`: the objects of one cell keyed by time. */
  type CellData = Dict<string, Entry>

  /** One loaded `sample_{n}_alive.json`: a Python dict, so no key twice. */
  type Data = Dict<string, CellData>

  /** `files[k]` is the file of sample `k + 1`, `None` when it does not exist. */
  type Files = seq<Option<Data>>

  function KeySet<K(==), V>(d: Dict<K, V>): set<K> {
    set i | 0 <= i < |d| :: d[i].0
  }

  function ProteinsOf(e: Entry): Option<Rates> {
    e.proteins
  }

  function PromotersOf(e: Entry): Option<Rates> {
    e.promoters
  }

  /** The genes of one object, for the selected key; none when it is absent
      (the `'proteins' in entry` test). */
  function GeneKeys(rates: Option<Rates>): set<string> {
    if rates.Some? then KeySet(rates.value) else {}
  }

  /* ---------- gather_all_cells_and_genes ---------- */

  /** The cells of the files that exist. */
  function CellsOf(files: Files): set<string> {
    if files == [] then {}
    else
      var last := files[|files| - 1];
      CellsOf(files[..|files| - 1]) + (if last.Some? then KeySet(last.value) else {})
  }

  /** The genes of the first object of a cell (the loop that `break`s after
      one time point). */
  function FirstOf(times: CellData, sel: Entry -> Option<Rates>): set<string> {
    if times == [] then {} else GeneKeys(sel(times[0].1))
  }

  /** The genes of the first object of every cell of one file. */
  function FirstGenes(data: Data, sel: Entry -> Option<Rates>): set<string> {
    if data == [] then {}
    else FirstGenes(data[..|data| - 1], sel) + FirstOf(data[|data| - 1].1, sel)
  }

  /** The genes of the first object of every cell of every file that exists. */
  function GenesOf(files: Files, sel: Entry -> Option<Rates>): set<string> {
    if files == [] then {}
    else
      var last := files[|files| - 1];
      GenesOf(files[..|files| - 1], sel) + (if last.Some? then FirstGenes(last.value, sel) else {})
  }

  /** Lines 15-35: the sorted cells of every file that exists, and the sorted
      genes of the first object of each of their cells. */
  method GatherAllCellsAndGenes(files: Files) returns (cells: seq<string>, proteins: seq<string>, promoters: seq<string>)
    ensures cells == SortedStrings(CellsOf(files))
    ensures proteins == SortedStrings(GenesOf(files, ProteinsOf))
    ensures promoters == SortedStrings(GenesOf(files, PromotersOf))
  {
    var allCells: set<string> := {};
    var allProteins: set<string> := {};
    var allPromoters: set<string> := {};
    for k := 0 to |files|
      invariant allCells == CellsOf(files[..k])
      invariant allProteins == GenesOf(files[..k], ProteinsOf)
      invariant allPromoters == GenesOf(files[..k], PromotersOf)
    {
      assert files[..k + 1][..k] == files[..k];
      if files[k].None? {
        continue;
      }
      var data := files[k].value;
      allCells := allCells + KeySet(data);
      var fileProteins, filePromoters := FirstGenesOf(data);
      allProteins := allProteins + fileProteins;
      allPromoters := allPromoters + filePromoters;
    }
    assert files[..|files|] == files;
    cells := SortStrings(allCells);
    proteins := SortStrings(allProteins);
    promoters := SortStrings(allPromoters);
  }

  /** Lines 27-34: the genes of the first object of each cell of one file. */
  method FirstGenesOf(data: Data) returns (proteins: set<string>, promoters: set<string>)
    ensures proteins == FirstGenes(data, ProteinsOf)
    ensures promoters == FirstGenes(data, PromotersOf)
  {
    proteins, promoters := {}, {};
    for c := 0 to |data|
      invariant proteins == FirstGenes(data[..c], ProteinsOf)
      invariant promoters == FirstGenes(data[..c], PromotersOf)
    {
      assert data[..c + 1][..c] == data[..c];
      var times := data[c].1;
      if times != [] {
        var entry := times[0].1;
        if entry.proteins.Some? {
          proteins := proteins + KeySet(entry.proteins.value);
        }
        if entry.promoters.Some? {
          promoters := promoters + KeySet(entry.promoters.value);
        }
      }
    }
    assert data[..|data|] == data;
  }

  /** A cell is listed iff some file that exists has it. */
  lemma {:induction false} CellsOfIff(files: Files, cell: string)
    ensures cell in CellsOf(files) <==>
      exists k :: 0 <= k < |files| && files[k].Some? && cell in KeySet(files[k].value)
  {
    if files != [] {
      var n := |files| - 1;
      CellsOfIff(files[..n], cell);
      if cell in CellsOf(files[..n]) {
        var k :| 0 <= k < n && files[..n][k].Some? && cell in KeySet(files[..n][k].value);
        assert files[k] == files[..n][k];
      }
      if exists k :: 0 <= k < |files| && files[k].Some? && cell in KeySet(files[k].value) {
        var k :| 0 <= k < |files| && files[k].Some? && cell in KeySet(files[k].value);
        if k < n {
          assert files[..n][k] == files[k];
        }
      }
    }
  }

  /** A gene is listed for a file iff the first object of one of its cells
      names it. */
  lemma {:induction false} FirstGenesIff(data: Data, sel: Entry -> Option<Rates>, gene: string)
    ensures gene in FirstGenes(data, sel) <==> exists i :: 0 <= i < |data| && gene in FirstOf(data[i].1, sel)
  {
    if data != [] {
      var n := |data| - 1;
      FirstGenesIff(data[..n], sel, gene);
      if gene in FirstGenes(data[..n], sel) {
        var i :| 0 <= i < n && gene in FirstOf(data[..n][i].1, sel);
        assert data[i] == data[..n][i];
      }
      if exists i :: 0 <= i < |data| && gene in FirstOf(data[i].1, sel) {
        var i :| 0 <= i < |data| && gene in FirstOf(data[i].1, sel);
        if i < n {
          assert data[..n][i] == data[i];
        }
      }
    }
  }

  /** Only the first object of a cell contributes genes: a gene is listed iff
      some file that exists has a cell whose first object names it. */
  lemma {:induction false} GenesOfIff(files: Files, sel: Entry -> Option<Rates>, gene: string)
    ensures gene in GenesOf(files, sel) <==>
      exists k, i :: 0 <= k < |files| && files[k].Some? && 0 <= i < |files[k].value|
        && gene in FirstOf(files[k].value[i].1, sel)
  {
    if files != [] {
      var n := |files| - 1;
      GenesOfIff(files[..n], sel, gene);
      if files[n].Some? {
        FirstGenesIff(files[n].value, sel, gene);
      }
      if gene in GenesOf(files[..n], sel) {
        var k, i :| 0 <= k < n && files[..n][k].Some? && 0 <= i < |files[..n][k].value|
          && gene in FirstOf(files[..n][k].value[i].1, sel);
        assert files[k] == files[..n][k];
      }
      if exists k, i :: 0 <= k < |files| && files[k].Some? && 0 <= i < |files[k].value|
          && gene in FirstOf(files[k].value[i].1, sel) {
        var k, i :| 0 <= k < |files| && files[k].Some? && 0 <= i < |files[k].value|
          && gene in FirstOf(files[k].value[i].1, sel);
        if k < n {
          assert files[..n][k] == files[k];
        }
      }
    }
  }

  /* ---------- get_cell_specific_genes ---------- */

  /** The genes of every object of a cell. */
  function AllGenes(times: CellData, sel: Entry -> Option<Rates>): set<string> {
    if times == [] then {}
    else AllGenes(times[..|times| - 1], sel) + GeneKeys(sel(times[|times| - 1].1))
  }

  /** The genes of every object of `cell` in every file that exists and has it. */
  function CellGenes(files: Files, cell: string, sel: Entry -> Option<Rates>): set<string> {
    if files == [] then {}
    else
      var last := files[|files| - 1];
      var times := if last.Some? then Get(last.value, cell) else None;
      CellGenes(files[..|files| - 1], cell, sel) + (if times.Some? then AllGenes(times.value, sel) else {})
  }

  /** Lines 37-54: the sorted genes of every object of `cell`, skipping the
      files that do not exist or lack the cell. */
  method GetCellSpecificGenes(cell: string, files: Files) returns (proteins: seq<string>, promoters: seq<string>)
    ensures proteins == SortedStrings(CellGenes(files, cell, ProteinsOf))
    ensures promoters == SortedStrings(CellGenes(files, cell, PromotersOf))
  {
    var proteinGenes: set<string> := {};
    var promoterGenes: set<string> := {};
    for k := 0 to |files|
      invariant proteinGenes == CellGenes(files[..k], cell, ProteinsOf)
      invariant promoterGenes == CellGenes(files[..k], cell, PromotersOf)
    {
      assert files[..k + 1][..k] == files[..k];
      if files[k].None? {
        continue;
      }
      var times := Get(files[k].value, cell);
      if times.None? {
        continue;
      }
      ghost var proteins0, promoters0 := proteinGenes, promoterGenes;
      for i := 0 to |times.value|
        invariant proteinGenes == proteins0 + AllGenes(times.value[..i], ProteinsOf)
        invariant promoterGenes == promoters0 + AllGenes(times.value[..i], PromotersOf)
      {
        assert times.value[..i + 1][..i] == times.value[..i];
        var entry := times.value[i].1;
        if entry.proteins.Some? {
          proteinGenes := proteinGenes + KeySet(entry.proteins.value);
        }
        if entry.promoters.Some? {
          promoterGenes := promoterGenes + KeySet(entry.promoters.value);
        }
      }
      assert times.value[..|times.value|] == times.value;
    }
    assert files[..|files|] == files;
    proteins := SortStrings(proteinGenes);
    promoters := SortStrings(promoterGenes);
  }

  /** A gene is listed for a cell iff some object of that cell, in some file,
      names it. */
  lemma {:induction false} AllGenesIff(times: CellData, sel: Entry -> Option<Rates>, gene: string)
    ensures gene in AllGenes(times, sel) <==> exists i :: 0 <= i < |times| && gene in GeneKeys(sel(times[i].1))
  {
    if times != [] {
      var n := |times| - 1;
      AllGenesIff(times[..n], sel, gene);
      if gene in AllGenes(times[..n], sel) {
        var i :| 0 <= i < n && gene in GeneKeys(sel(times[..n][i].1));
        assert times[i] == times[..n][i];
      }
      if exists i :: 0 <= i < |times| && gene in GeneKeys(sel(times[i].1)) {
        var i :| 0 <= i < |times| && gene in GeneKeys(sel(times[i].1));
        if i < n {
          assert times[..n][i] == times[i];
        }
      }
    }
  }

  /** The first objects are among all the objects of a cell, so every gene
      the global list offers for the cell's first object is offered for it. */
  lemma FirstAmongAll(times: CellData, sel: Entry -> Option<Rates>)
    ensures FirstOf(times, sel) <= AllGenes(times, sel)
  {
    forall gene | gene in FirstOf(times, sel)
      ensures gene in AllGenes(times, sel)
    {
      AllGenesIff(times, sel, gene);
    }
  }

  /* ---------- plot_across_samples ---------- */

  const ProteinsModality := "Proteins Gene Expression Rate"
  const PromotersModality := "Promoters Gene Expression Rate"
  const SurfaceModality := "Surface Area"
  const VolumeModality := "Volume"
  const ContactModality := "Contacting Area with Neighbours"

  const KeyError := "KeyError"
  const ValueError := "ValueError"

  /** `modality_folder_map`. */
  function Folder(modality: string): Option<string> {
    if modality == ProteinsModality then Some("proteins")
    else if modality == PromotersModality then Some("promoters")
    else if modality == SurfaceModality then Some("surface_area")
    else if modality == VolumeModality then Some("volume")
    else if modality == ContactModality then Some("contacting_area")
    else None
  }

  /** `int(t)` of a time key, for keys that convert. */
  function TimeOf(p: (string, Entry)): int {
    ParseInt(p.0).GetOr(0)
  }

  /** Line 74: the objects of a cell in increasing numeric time order, or the
      `ValueError` `int` raises on a key that is not a number. */
  function Timeline(times: CellData): (r: Result<seq<(string, Entry)>, string>)
    ensures r.Failure? <==> exists i :: 0 <= i < |times| && ParseInt(times[i].0).None?
    ensures r.Failure? ==> r.error == ValueError
    ensures r.Success? ==> SortedByKey(r.value, TimeOf) && multiset(r.value) == multiset(times)
  {
    if forall i :: 0 <= i < |times| ==> ParseInt(times[i].0).Some? then Success(SortByKey(times, TimeOf))
    else Failure(ValueError)
  }

  /** What one object gives the series: `None` when reading it raises a
      `KeyError`, else the value, `None` when absent or `null`. */
  type Reading = Entry -> Option<Option<real>>

  /** `entry['proteins'].get(gene_name, None)` (and the same for promoters):
      the object must have the key; a `gene_name` of `None` is never found. */
  function GeneRate(sel: Entry -> Option<Rates>, gene: Option<string>): Reading {
    (e: Entry) => if sel(e).None? then None
         else if gene.None? then Some(None)
         else Some(Get(sel(e).value, gene.value).GetOr(None))
  }

  function SurfaceRead(e: Entry): Option<Option<real>> {
    Some(e.surfaceArea)
  }

  function VolumeRead(e: Entry): Option<Option<real>> {
    Some(e.volume)
  }

  /** `contacting_area.get(n, None)`: never raises. */
  function AreaOf(n: string): Reading {
    (e: Entry) => Some(Get(e.contactingArea, n).GetOr(None))
  }

  /** The object `x` puts the point `p` on the series: its value is present
      and `p` is its time and that value. */
  predicate Gives(read: Reading, x: (string, Entry), p: (int, real)) {
    read(x.1) == Some(Some(p.1)) && p.0 == TimeOf(x)
  }

  /** The series of one modality over a timeline: a point per object whose
      value is present, in timeline order; the first object that lacks the key
      raises a `KeyError`. */
  function Series(timeline: seq<(string, Entry)>, read: Reading): Result<seq<(int, real)>, string> {
    if timeline == [] then Success([])
    else
      var init := Series(timeline[..|timeline| - 1], read);
      var last := timeline[|timeline| - 1];
      if init.Failure? then init
      else if read(last.1).None? then Failure(KeyError)
      else if read(last.1).value.None? then init
      else Success(init.value + [(TimeOf(last), read(last.1).value.value)])
  }

  /** Lines 82-87 and their copies: `plot_times` and `plot_values`, kept here
      as one list of pairs. */
  method SeriesOf(timeline: seq<(string, Entry)>, read: Reading) returns (r: Result<seq<(int, real)>, string>)
    ensures r == Series(timeline, read)
  {
    var points: seq<(int, real)> := [];
    for i := 0 to |timeline|
      invariant Series(timeline[..i], read) == Success(points)
    {
      assert timeline[..i + 1][..i] == timeline[..i];
      var value := read(timeline[i].1);
      if value.None? {
        SeriesSticks(timeline, read, i + 1);
        return Failure(KeyError);
      }
      if value.value.Some? {
        points := points + [(TimeOf(timeline[i]), value.value.value)];
      }
    }
    assert timeline[..|timeline|] == timeline;
    return Success(points);
  }

  /** Once a prefix raises, the whole series raises the same. */
  lemma {:induction false} SeriesSticks(timeline: seq<(string, Entry)>, read: Reading, i: nat)
    requires i <= |timeline| && Series(timeline[..i], read).Failure?
    ensures Series(timeline, read) == Series(timeline[..i], read)
    decreases |timeline| - i
  {
    if i < |timeline| {
      assert timeline[..i + 1][..i] == timeline[..i];
      SeriesSticks(timeline, read, i + 1);
    } else {
      assert timeline[..i] == timeline;
    }
  }

  /** Reading fails iff some object lacks the key, and then with a `KeyError`. */
  lemma {:induction false} SeriesFails(timeline: seq<(string, Entry)>, read: Reading)
    ensures Series(timeline, read).Failure? <==> exists i :: 0 <= i < |timeline| && read(timeline[i].1).None?
    ensures Series(timeline, read).Failure? ==> Series(timeline, read).error == KeyError
  {
    if timeline != [] {
      var n := |timeline| - 1;
      SeriesFails(timeline[..n], read);
      if exists i :: 0 <= i < n && read(timeline[..n][i].1).None? {
        var i :| 0 <= i < n && read(timeline[..n][i].1).None?;
        assert timeline[i] == timeline[..n][i];
      }
      if exists i :: 0 <= i < |timeline| && read(timeline[i].1).None? {
        var i :| 0 <= i < |timeline| && read(timeline[i].1).None?;
        if i < n {
          assert timeline[..n][i] == timeline[i];
        }
      }
    }
  }

  /** The series holds a point for exactly the objects whose value is present,
      at their time. */
  lemma {:induction false} SeriesPoints(timeline: seq<(string, Entry)>, read: Reading, p: (int, real))
    requires Series(timeline, read).Success?
    ensures p in Series(timeline, read).value <==> exists i :: 0 <= i < |timeline| && Gives(read, timeline[i], p)
  {
    if timeline != [] {
      var n := |timeline| - 1;
      var init := timeline[..n];
      SeriesPoints(init, read, p);
      var v := read(timeline[n].1).value;
      var tail := if v.Some? then [(TimeOf(timeline[n]), v.value)] else [];
      assert Series(timeline, read).value == Series(init, read).value + tail;
      assert p in tail <==> Gives(read, timeline[n], p);
      if exists i :: 0 <= i < n && Gives(read, init[i], p) {
        var i :| 0 <= i < n && Gives(read, init[i], p);
        assert timeline[i] == init[i];
      }
      if exists i :: 0 <= i < |timeline| && Gives(read, timeline[i], p) {
        var i :| 0 <= i < |timeline| && Gives(read, timeline[i], p);
        if i < n {
          assert init[i] == timeline[i];
        }
      }
    }
  }

  /** Every point comes from an object of the timeline. */
  lemma {:induction false} SeriesFrom(timeline: seq<(string, Entry)>, read: Reading, k: nat)
    requires Series(timeline, read).Success? && k < |Series(timeline, read).value|
    ensures exists i :: 0 <= i < |timeline| && Gives(read, timeline[i], Series(timeline, read).value[k])
  {
    SeriesPoints(timeline, read, Series(timeline, read).value[k]);
  }

  /** A timeline sorted by time gives a series sorted by time. */
  lemma {:induction false} SeriesSorted(timeline: seq<(string, Entry)>, read: Reading)
    requires SortedByKey(timeline, TimeOf) && Series(timeline, read).Success?
    ensures var ps := Series(timeline, read).value;
      forall i, j :: 0 <= i < j < |ps| ==> ps[i].0 <= ps[j].0
  {
    if timeline != [] {
      var n := |timeline| - 1;
      var init := timeline[..n];
      assert SortedByKey(init, TimeOf) by {
        forall i, j | 0 <= i < j < |init| ensures TimeOf(init[i]) <= TimeOf(init[j]) {
          assert init[i] == timeline[i] && init[j] == timeline[j];
        }
      }
      SeriesSorted(init, read);
      var ps := Series(init, read).value;
      forall k | 0 <= k < |ps|
        ensures ps[k].0 <= TimeOf(timeline[n])
      {
        SeriesFrom(init, read, k);
        var i :| 0 <= i < |init| && Gives(read, init[i], ps[k]);
        assert init[i] == timeline[i];
      }
    }
  }

  /* ---------- contacting area ---------- */

  /** `all_neighbours`: the keys of every `contacting_area` of a timeline. */
  function Neighbourhood(timeline: seq<(string, Entry)>): set<string> {
    if timeline == [] then {}
    else Neighbourhood(timeline[..|timeline| - 1]) + KeySet(timeline[|timeline| - 1].1.contactingArea)
  }

  /** The contacting area never raises, so every neighbour has a series. */
  lemma ContactSeriesExists(timeline: seq<(string, Entry)>, n: string)
    ensures Series(timeline, AreaOf(n)).Success?
  {
    SeriesFails(timeline, AreaOf(n));
  }

  /** The line of neighbour `n`: its recorded areas over time. */
  function ContactSeries(timeline: seq<(string, Entry)>, n: string): seq<(int, real)> {
    ContactSeriesExists(timeline, n);
    Series(timeline, AreaOf(n)).value
  }

  /** Lines 181-199: the neighbour set, then `neighbour_to_times` and
      `neighbour_to_values` (kept as one list of pairs per neighbour). */
  method ContactLines(timeline: seq<(string, Entry)>) returns (all: set<string>, lines: map<string, seq<(int, real)>>)
    ensures all == Neighbourhood(timeline)
    ensures lines.Keys == all
    ensures forall n :: n in lines ==> lines[n] == ContactSeries(timeline, n)
  {
    all := NeighbourSet(timeline);
    lines := map n | n in all :: [];
    for i := 0 to |timeline|
      invariant lines.Keys == all
      invariant forall n :: n in lines ==> Series(timeline[..i], AreaOf(n)) == Success(lines[n])
    {
      lines := AddTimePoint(timeline, i, all, lines);
    }
    assert timeline[..|timeline|] == timeline;
  }

  /** Lines 181-186: the union of the neighbours of every time point. */
  method NeighbourSet(timeline: seq<(string, Entry)>) returns (all: set<string>)
    ensures all == Neighbourhood(timeline)
  {
    all := {};
    for i := 0 to |timeline|
      invariant all == Neighbourhood(timeline[..i])
    {
      assert timeline[..i + 1][..i] == timeline[..i];
      all := all + KeySet(timeline[i].1.contactingArea);
    }
    assert timeline[..|timeline|] == timeline;
  }

  /** Lines 190-199 for one time point: every neighbour whose area is recorded
      there gets one more point. */
  method AddTimePoint(timeline: seq<(string, Entry)>, i: nat, all: set<string>, lines: map<string, seq<(int, real)>>)
      returns (next: map<string, seq<(int, real)>>)
    requires i < |timeline| && lines.Keys == all
    requires forall n :: n in lines ==> Series(timeline[..i], AreaOf(n)) == Success(lines[n])
    ensures next.Keys == all
    ensures forall n :: n in next ==> Series(timeline[..i + 1], AreaOf(n)) == Success(next[n])
  {
    next := lines;
    var area := timeline[i].1.contactingArea;
    var rest := all;
    while rest != {}
      invariant rest <= all && next.Keys == all
      invariant forall n :: n in next && n !in rest ==> Series(timeline[..i + 1], AreaOf(n)) == Success(next[n])
      invariant forall n :: n in rest ==> next[n] == lines[n]
      decreases rest
    {
      var n :| n in rest;
      ContactStep(timeline, i, n);
      var value := Get(area, n);
      if value.Some? && value.value.Some? {
        next := next[n := next[n] + [(TimeOf(timeline[i]), value.value.value)]];
      }
      assert next[n] == lines[n] + AreaPoint(timeline[i], n);
      rest := rest - {n};
    }
  }

  /** The point time point `x` adds to the line of neighbour `n`. */
  function AreaPoint(x: (string, Entry), n: string): seq<(int, real)> {
    var v := Get(x.1.contactingArea, n);
    if v.Some? && v.value.Some? then [(TimeOf(x), v.value.value)] else []
  }

  /** One more time point extends a neighbour's line iff its area is recorded. */
  lemma ContactStep(timeline: seq<(string, Entry)>, i: nat, n: string)
    requires i < |timeline|
    ensures Series(timeline[..i], AreaOf(n)).Success?
    ensures Series(timeline[..i + 1], AreaOf(n)) == Success(Series(timeline[..i], AreaOf(n)).value + AreaPoint(timeline[i], n))
  {
    ContactSeriesExists(timeline[..i], n);
    var xs := timeline[..i + 1];
    assert xs[..i] == timeline[..i] && xs[i] == timeline[i];
    var v := Get(timeline[i].1.contactingArea, n);
    assert AreaOf(n)(timeline[i].1) == Some(if v.Some? then v.value else None);
    var init := Series(timeline[..i], AreaOf(n)).value;
    if !(v.Some? && v.value.Some?) {
      assert init + AreaPoint(timeline[i], n) == init;
    }
  }

  /** Line 210: the legend's column count. */
  function LegendColumns(n: nat): (c: nat)
    ensures 1 <= c <= 4
  {
    var wanted := n / 10 + 1;
    if wanted < 4 then wanted else 4
  }

  /** Ten neighbours per column, at most four columns. */
  lemma LegendColumnsGrow(n: nat)
    ensures LegendColumns(n) == 4 <==> n >= 30
    ensures n < 30 ==> 10 * (LegendColumns(n) - 1) <= n < 10 * LegendColumns(n)
  {
  }

  /** The lines drawn, in sorted neighbour order, skipping the empty ones
      (lines 201-203). */
  function Drawn(ns: seq<string>, timeline: seq<(string, Entry)>): seq<(Option<string>, seq<(int, real)>)> {
    if ns == [] then []
    else
      var n := ns[|ns| - 1];
      Drawn(ns[..|ns| - 1], timeline) + (if ContactSeries(timeline, n) != [] then [(Some(n), ContactSeries(timeline, n))] else [])
  }

  /* ---------- one sample ---------- */

  /** What happens to one sample: a `continue` for a missing file, a missing
      cell, an empty series (or no neighbour), the `Unknown modality` branch,
      or a figure saved under `path`, made of `lines`, with a legend of
      `legendColumns` columns when there is one. */
  datatype Outcome =
    | MissingFile
    | MissingCell
    | NoData
    | UnknownModality
    | Saved(path: string, lines: seq<(Option<string>, seq<(int, real)>)>, legendColumns: Option<nat>)

  /** Lines 99-103: `plots/{folder}/{folder}_cell_{cell}_sample_{n}`, then
      `_{gene_name}` when a non-empty one is given, then `.png`. */
  function PlotPath(folder: string, cell: string, sampleNum: int, gene: Option<string>): string {
    "plots/" + folder + "/" + folder + "_cell_" + cell + "_sample_" + IntToString(sampleNum)
      + (if gene.Some? && gene.value != "" then "_" + gene.value else "") + ".png"
  }

  /** A figure of one line, or `NoData` when its series is empty. */
  function LineOutcome(series: Result<seq<(int, real)>, string>, path: string): (r: Result<Outcome, string>)
    ensures r.Success? ==> r.value.NoData? || r.value.Saved?
  {
    if series.Failure? then Failure(series.error)
    else if series.value == [] then Success(NoData)
    else Success(Saved(path, [(None, series.value)], None))
  }

  /** The contacting-area figure of one sample. */
  ghost function ContactOutcome(timeline: seq<(string, Entry)>, path: string): (r: Outcome)
    ensures r.NoData? || r.Saved?
  {
    var all := Neighbourhood(timeline);
    if all == {} then NoData
    else
      var legend := if exists n :: n in all && ContactSeries(timeline, n) != [] then Some(LegendColumns(|all|)) else None;
      Saved(path, Drawn(SortedStrings(all), timeline), legend)
  }

  /** Lines 80-220: the branch on the modality, once its folder is found. */
  ghost function Figure(timeline: seq<(string, Entry)>, folder: string, cell: string, sampleNum: int, modality: string,
                        gene: Option<string>): Result<Outcome, string>
  {
    if modality == ProteinsModality then
      LineOutcome(Series(timeline, GeneRate(ProteinsOf, gene)), PlotPath(folder, cell, sampleNum, gene))
    else if modality == PromotersModality then
      LineOutcome(Series(timeline, GeneRate(PromotersOf, gene)), PlotPath(folder, cell, sampleNum, gene))
    else if modality == SurfaceModality then
      LineOutcome(Series(timeline, SurfaceRead), PlotPath(folder, cell, sampleNum, None))
    else if modality == VolumeModality then
      LineOutcome(Series(timeline, VolumeRead), PlotPath(folder, cell, sampleNum, None))
    else if modality == ContactModality then
      Success(ContactOutcome(timeline, PlotPath(folder, cell, sampleNum, None)))
    else Success(UnknownModality)
  }

  /** Lines 65-220 for one sample. */
  ghost function SampleOutcome(data: Option<Data>, sampleNum: int, cell: string, modality: string, gene: Option<string>): Result<Outcome, string> {
    if data.None? then Success(MissingFile)
    else
      var times := Get(data.value, cell);
      if times.None? then Success(MissingCell)
      else
        var timeline := Timeline(times.value);
        if timeline.Failure? then Failure(timeline.error)
        else
          var folder := Folder(modality);
          if folder.None? then Failure(KeyError)
          else Figure(timeline.value, folder.value, cell, sampleNum, modality, gene)
  }

  /** The body of the sample loop of `plot_across_samples`. */
  method PlotSample(data: Option<Data>, sampleNum: int, cell: string, modality: string, gene: Option<string>)
    returns (r: Result<Outcome, string>)
    ensures r == SampleOutcome(data, sampleNum, cell, modality, gene)
  {
    if data.None? {
      return Success(MissingFile);
    }
    var times := Get(data.value, cell);
    if times.None? {
      return Success(MissingCell);
    }
    var timeline := Timeline(times.value);
    if timeline.Failure? {
      return Failure(timeline.error);
    }
    var folder := Folder(modality);
    if folder.None? {
      return Failure(KeyError);
    }
    r := PlotFigure(timeline.value, folder.value, cell, sampleNum, modality, gene);
  }

  /** Lines 80-220. */
  method PlotFigure(timeline: seq<(string, Entry)>, folder: string, cell: string, sampleNum: int, modality: string,
                    gene: Option<string>) returns (r: Result<Outcome, string>)
    ensures r == Figure(timeline, folder, cell, sampleNum, modality, gene)
  {
    if modality == ProteinsModality {
      var series := SeriesOf(timeline, GeneRate(ProteinsOf, gene));
      r := LineOutcome(series, PlotPath(folder, cell, sampleNum, gene));
    } else if modality == PromotersModality {
      var series := SeriesOf(timeline, GeneRate(PromotersOf, gene));
      r := LineOutcome(series, PlotPath(folder, cell, sampleNum, gene));
    } else if modality == SurfaceModality {
      var series := SeriesOf(timeline, SurfaceRead);
      r := LineOutcome(series, PlotPath(folder, cell, sampleNum, None));
    } else if modality == VolumeModality {
      var series := SeriesOf(timeline, VolumeRead);
      r := LineOutcome(series, PlotPath(folder, cell, sampleNum, None));
    } else if modality == ContactModality {
      var outcome := PlotContacts(timeline, PlotPath(folder, cell, sampleNum, None));
      r := Success(outcome);
    } else {
      r := Success(UnknownModality);
    }
  }

  /** Lines 180-217. */
  method PlotContacts(timeline: seq<(string, Entry)>, path: string) returns (outcome: Outcome)
    ensures outcome == ContactOutcome(timeline, path)
  {
    var all, byNeighbour := ContactLines(timeline);
    if all == {} {
      return NoData;
    }
    var ns := SortStrings(all);
    var lines := DrawLines(timeline, ns, all, byNeighbour);
    var legend := None;
    if exists n :: n in all && byNeighbour[n] != [] {
      legend := Some(LegendColumns(|all|));
    }
    outcome := Saved(path, lines, legend);
  }

  /** Lines 201-203: one line per neighbour, in the order given, when it has
      points. */
  method DrawLines(timeline: seq<(string, Entry)>, ns: seq<string>, all: set<string>, byNeighbour: map<string, seq<(int, real)>>)
    returns (lines: seq<(Option<string>, seq<(int, real)>)>)
    requires forall n :: n in ns ==> n in byNeighbour && byNeighbour[n] == ContactSeries(timeline, n)
    ensures lines == Drawn(ns, timeline)
  {
    lines := [];
    for k := 0 to |ns|
      invariant lines == Drawn(ns[..k], timeline)
    {
      assert ns[..k + 1][..k] == ns[..k];
      if byNeighbour[ns[k]] != [] {
        lines := lines + [(Some(ns[k]), byNeighbour[ns[k]])];
      }
    }
    assert ns[..|ns|] == ns;
  }

  /** The outcome of each sample, sample `k + 1` from `files[k]`. */
  ghost function SampleOutcomes(files: Files, cell: string, modality: string, gene: Option<string>): seq<Result<Outcome, string>> {
    seq(|files|, k requires 0 <= k < |files| => SampleOutcome(files[k], k + 1, cell, modality, gene))
  }

  /** Lines 56-220: every sample in turn, stopping at the first exception. */
  method PlotAcrossSamples(files: Files, cell: string, modality: string, gene: Option<string>)
    returns (r: Result<seq<Outcome>, string>)
    ensures r == FirstFailure(SampleOutcomes(files, cell, modality, gene))
  {
    ghost var rs := SampleOutcomes(files, cell, modality, gene);
    var outcomes: seq<Outcome> := [];
    for k := 0 to |files|
      invariant FirstFailure(rs[..k]) == Success(outcomes)
    {
      var outcome := PlotSample(files[k], k + 1, cell, modality, gene);
      assert rs[..k + 1][..k] == rs[..k];
      if outcome.Failure? {
        FirstFailureSticks(rs, k + 1);
        return Failure(outcome.error);
      }
      outcomes := outcomes + [outcome.value];
    }
    assert rs[..|files|] == rs;
    return Success(outcomes);
  }

  /** The `Unknown modality` branch is dead: a modality without a folder fails
      the folder lookup as soon as a file has the cell, and the sample is
      skipped before that otherwise. */
  lemma UnknownModalityUnreached(data: Option<Data>, sampleNum: int, cell: string, modality: string, gene: Option<string>)
    ensures SampleOutcome(data, sampleNum, cell, modality, gene) != Success(UnknownModality)
    ensures Folder(modality).None? ==>
      (SampleOutcome(data, sampleNum, cell, modality, gene).Success? <==> data.None? || Get(data.value, cell).None?)
  {
    if data.Some? && Get(data.value, cell).Some? && Timeline(Get(data.value, cell).value).Success? && Folder(modality).Some? {
      FigureKnown(Timeline(Get(data.value, cell).value).value, Folder(modality).value, cell, sampleNum, modality, gene);
    }
  }

  /** The last branch is taken only for a modality without a folder. */
  lemma FigureKnown(timeline: seq<(string, Entry)>, folder: string, cell: string, sampleNum: int, modality: string,
                    gene: Option<string>)
    requires Folder(modality).Some?
    ensures Figure(timeline, folder, cell, sampleNum, modality, gene) != Success(UnknownModality)
  {
  }

  /** A saved figure of one line plots a non-empty series sorted by time, with
      no legend. */
  lemma SavedLine(timeline: seq<(string, Entry)>, read: Reading, path: string)
    requires SortedByKey(timeline, TimeOf)
    requires LineOutcome(Series(timeline, read), path).Success? && LineOutcome(Series(timeline, read), path).value.Saved?
    ensures var o := LineOutcome(Series(timeline, read), path).value;
      && o.path == path && |o.lines| == 1 && o.lines[0].0.None? && o.lines[0].1 != [] && o.legendColumns.None?
      && o.lines[0].1 == Series(timeline, read).value
      && forall i, j :: 0 <= i < j < |o.lines[0].1| ==> o.lines[0].1[i].0 <= o.lines[0].1[j].0
  {
    SeriesSorted(timeline, read);
  }

  /** Every line of the contacting-area figure belongs to a neighbour in the
      order given and is that neighbour's non-empty series. */
  lemma {:induction false} DrawnLines(ns: seq<string>, timeline: seq<(string, Entry)>, k: nat)
    requires k < |Drawn(ns, timeline)|
    ensures Drawn(ns, timeline)[k].0.Some?
    ensures var (n, series) := Drawn(ns, timeline)[k];
      n.value in ns && series == ContactSeries(timeline, n.value) && series != []
  {
    var m := |ns| - 1;
    if k < |Drawn(ns[..m], timeline)| {
      DrawnLines(ns[..m], timeline, k);
    }
  }

  /** A neighbour with a recorded area gets a line. */
  lemma {:induction false} DrawnComplete(ns: seq<string>, timeline: seq<(string, Entry)>, n: string)
    requires n in ns && ContactSeries(timeline, n) != []
    ensures (Some(n), ContactSeries(timeline, n)) in Drawn(ns, timeline)
  {
    var m := |ns| - 1;
    if ns[m] != n {
      assert n in ns[..m] by {
        var i :| 0 <= i < |ns| && ns[i] == n;
        assert ns[..m][i] == n;
      }
      DrawnComplete(ns[..m], timeline, n);
    }
  }

  /** The legend is drawn iff some line is. */
  lemma LegendIffLines(timeline: seq<(string, Entry)>, path: string)
    requires Neighbourhood(timeline) != {}
    ensures ContactOutcome(timeline, path).legendColumns.Some? <==> ContactOutcome(timeline, path).lines != []
  {
    var all := Neighbourhood(timeline);
    var ns := SortedStrings(all);
    if exists n :: n in all && ContactSeries(timeline, n) != [] {
      var n :| n in all && ContactSeries(timeline, n) != [];
      DrawnComplete(ns, timeline, n);
    }
    if Drawn(ns, timeline) != [] {
      DrawnLines(ns, timeline, 0);
    }
  }

  /* ---------- main ---------- */

  /** The shortcuts and the modalities they stand for, in the order shown. */
  const Shortcuts: seq<string> := ["prot", "prom", "sa", "v", "ca"]
  const Modalities: seq<string> := [ProteinsModality, PromotersModality, SurfaceModality, VolumeModality, ContactModality]

  /** `modality_map`. */
  function ModalityOf(shortcut: string): Option<string> {
    if shortcut == "prot" then Some(ProteinsModality)
    else if shortcut == "prom" then Some(PromotersModality)
    else if shortcut == "sa" then Some(SurfaceModality)
    else if shortcut == "v" then Some(VolumeModality)
    else if shortcut == "ca" then Some(ContactModality)
    else None
  }

  /** Lines 248 and 260 name the same modality: `modality_map[s]` is
      `modalities[shortcuts.index(s)]`, every shortcut is known, and every
      modality has a folder. */
  lemma ShortcutsAgree(k: nat)
    requires k < |Shortcuts|
    ensures ModalityOf(Shortcuts[k]) == Some(Modalities[k])
    ensures forall j :: 0 <= j < k ==> Shortcuts[j] != Shortcuts[k]
    ensures Folder(Modalities[k]).Some?
  {
  }
}
