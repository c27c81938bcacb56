/** create_tensor.py: recognise the measurement files by name, read the
    file-to-gene table, and pivot every measurement row into a dense array
    indexed by (sample, time, cell, modality, feature). */
module CreateTensor {
  import opened Wrappers
  import opened Text
  import opened Ordering
  import opened Dicts

  datatype Modality = Promoter | Protein

  /** The four numbers of a `WorkSpace_<n>_<n>_<construct>_<sample>.csv` name, as
      the digit strings the pattern captures, and whatever follows `.csv`: the
      pattern is anchored at the start of the name only. */
  datatype WorkspaceName = WorkspaceName(
    first: string, second: string, construct: string, sample: string, rest: string)

  predicate Number(s: string) {
    s != [] && AllDigits(s)
  }

  predicate WellFormed(w: WorkspaceName) {
    Number(w.first) && Number(w.second) && Number(w.construct) && Number(w.sample)
  }

  /** The file name a workspace name is spelled as. */
  function Spell(w: WorkspaceName): string {
    "WorkSpace_" + (w.first + ("_" + (w.second + ("_" + (w.construct + ("_" + (w.sample + (".csv" + w.rest))))))))
  }

  /** The length of the run of digits that `s` starts with. */
  function DigitRun(s: string): (n: nat)
    ensures n <= |s|
  {
    if s != [] && IsDigit(s[0]) then 1 + DigitRun(s[1..]) else 0
  }

  /** The run is all digits, and it is the longest such prefix. */
  lemma {:induction false} DigitRunSpec(s: string)
    ensures var n := DigitRun(s); AllDigits(s[..n]) && (n < |s| ==> !IsDigit(s[n]))
  {
    if s != [] && IsDigit(s[0]) {
      DigitRunSpec(s[1..]);
      var n := DigitRun(s);
      assert s[..n] == [s[0]] + s[1..][..n - 1];
    }
  }

  lemma {:induction false} DigitRunOf(d: string, tail: string)
    requires AllDigits(d)
    requires tail == [] || !IsDigit(tail[0])
    ensures DigitRun(d + tail) == |d|
  {
    if d != [] {
      assert (d + tail)[1..] == d[1..] + tail;
      DigitRunOf(d[1..], tail);
    } else {
      assert d + tail == tail;
    }
  }

  /** `\d+` followed by `sep`: the digits and what follows the separator. Since
      `sep` starts with a non-digit, the greedy run is the only one that can match. */
  function MatchNumber(s: string, sep: string): (r: Option<(string, string)>)
    ensures r.Some? ==> Number(r.value.0) && s == r.value.0 + (sep + r.value.1)
  {
    var n := DigitRun(s);
    if n > 0 && StartsWith(s[n..], sep) then
      DigitRunSpec(s);
      StartsWithSlice(s[n..], sep);
      assert s == s[..n] + (sep + s[n + |sep|..]);
      Some((s[..n], s[n + |sep|..]))
    else None
  }

  lemma MatchNumberOf(d: string, sep: string, tail: string)
    requires Number(d) && sep != [] && !IsDigit(sep[0])
    ensures MatchNumber(d + (sep + tail), sep) == Some((d, tail))
  {
    DigitRunOf(d, sep + tail);
    var s := d + (sep + tail);
    assert s[|d|..][..|sep|] == sep;
    StartsWithSlice(s[|d|..], sep);
    assert s[..|d|] == d && s[|d| + |sep|..] == tail;
  }

  /** The separators that follow the four numbers of a workspace name. */
  const Separators: seq<string> := ["_", "_", "_", ".csv"]

  /** `\d+` followed by `seps[0]`, then `\d+` followed by `seps[1]`, and so on:
      the numbers and what follows the last separator. */
  function MatchNumbers(s: string, seps: seq<string>): (r: Option<(seq<string>, string)>)
    ensures r.Some? ==> |r.value.0| == |seps| && forall i :: 0 <= i < |seps| ==> Number(r.value.0[i])
  {
    if seps == [] then Some(([], s))
    else
      match MatchNumber(s, seps[0])
      case None => None
      case Some((d, rest)) =>
        match MatchNumbers(rest, seps[1..])
        case None => None
        case Some((ds, tail)) => Some(([d] + ds, tail))
  }

  /** The string `MatchNumbers` recognises: each number followed by its separator. */
  function Interleave(ds: seq<string>, seps: seq<string>): string
    requires |ds| == |seps|
  {
    if ds == [] then [] else ds[0] + (seps[0] + Interleave(ds[1..], seps[1..]))
  }

  lemma {:induction false} MatchNumbersSpelled(s: string, seps: seq<string>)
    requires MatchNumbers(s, seps).Some?
    ensures var (ds, tail) := MatchNumbers(s, seps).value; s == Interleave(ds, seps) + tail
  {
    if seps != [] {
      var (d, rest) := MatchNumber(s, seps[0]).value;
      MatchNumbersSpelled(rest, seps[1..]);
      var (ds, tail) := MatchNumbers(rest, seps[1..]).value;
      assert ([d] + ds)[1..] == ds;
    }
  }

  lemma {:induction false} MatchInterleaved(ds: seq<string>, seps: seq<string>, tail: string)
    requires |ds| == |seps|
    requires forall i :: 0 <= i < |ds| ==> Number(ds[i]) && seps[i] != [] && !IsDigit(seps[i][0])
    ensures MatchNumbers(Interleave(ds, seps) + tail, seps) == Some((ds, tail))
  {
    if ds != [] {
      var rest := Interleave(ds[1..], seps[1..]) + tail;
      assert Interleave(ds, seps) + tail == ds[0] + (seps[0] + rest);
      MatchNumberOf(ds[0], seps[0], rest);
      MatchInterleaved(ds[1..], seps[1..], tail);
      assert [ds[0]] + ds[1..] == ds;
    } else {
      assert Interleave(ds, seps) + tail == tail;
    }
  }

  /** `re.match(r'WorkSpace_(\d+)_(\d+)_(\d+)_(\d+)\.csv', name)`. */
  function MatchWorkspace(name: string): (r: Option<WorkspaceName>)
    ensures r.Some? ==> WellFormed(r.value)
  {
    if !StartsWith(name, "WorkSpace_") then None
    else
      match MatchNumbers(name[10..], Separators)
      case None => None
      case Some((ds, rest)) => Some(WorkspaceName(ds[0], ds[1], ds[2], ds[3], rest))
  }

  /** The spelling of a workspace name, as the matcher reads it. */
  lemma SpellInterleaved(w: WorkspaceName)
    ensures Spell(w) == "WorkSpace_" + (Interleave([w.first, w.second, w.construct, w.sample], Separators) + w.rest)
  {
    var ds := [w.first, w.second, w.construct, w.sample];
    assert Interleave(ds[4..], Separators[4..]) == [];
    InterleaveCons(ds[3..], Separators[3..], w.rest);
    assert ds[3..][1..] == ds[4..] && Separators[3..][1..] == Separators[4..];
    InterleaveCons(ds[2..], Separators[2..], w.rest);
    assert ds[2..][1..] == ds[3..] && Separators[2..][1..] == Separators[3..];
    InterleaveCons(ds[1..], Separators[1..], w.rest);
    assert ds[1..][1..] == ds[2..] && Separators[1..][1..] == Separators[2..];
    InterleaveCons(ds, Separators, w.rest);
  }

  lemma InterleaveCons(ds: seq<string>, seps: seq<string>, tail: string)
    requires |ds| == |seps| && ds != []
    ensures Interleave(ds, seps) + tail == ds[0] + (seps[0] + (Interleave(ds[1..], seps[1..]) + tail))
  {
  }

  /** A name matches only as the spelling of what it matches to. */
  lemma MatchedIsSpelled(name: string)
    requires MatchWorkspace(name).Some?
    ensures Spell(MatchWorkspace(name).value) == name
  {
    var w := MatchWorkspace(name).value;
    StartsWithSlice(name, "WorkSpace_");
    MatchNumbersSpelled(name[10..], Separators);
    var (ds, rest) := MatchNumbers(name[10..], Separators).value;
    assert ds == [w.first, w.second, w.construct, w.sample];
    SpellInterleaved(w);
    assert name == name[..10] + name[10..];
  }

  /** Every well-formed spelling matches, whatever follows `.csv`. */
  lemma MatchSpelled(w: WorkspaceName)
    requires WellFormed(w)
    ensures MatchWorkspace(Spell(w)) == Some(w)
  {
    var name := Spell(w);
    var ds := [w.first, w.second, w.construct, w.sample];
    SpellInterleaved(w);
    assert name[..10] == "WorkSpace_";
    StartsWithSlice(name, "WorkSpace_");
    assert name[10..] == Interleave(ds, Separators) + w.rest;
    MatchInterleaved(ds, Separators, w.rest);
  }

  /** What `parse_filename` yields: `None`, a (modality, sample) pair, or the
      `UnboundLocalError` raised when the construct number is neither 1 nor 2. */
  datatype Parsed = NotWorkspace | Workspace(modality: Modality, sample: int) | BadConstruct(construct: int)

  /** `parse_filename`: construct 1 is the promoter, construct 2 the protein, the
      fourth number the sample; the first two numbers are ignored. */
  function ParseFilename(name: string): Parsed {
    match MatchWorkspace(name)
    case None => NotWorkspace
    case Some(w) =>
      var construct := DigitsValue(w.construct);
      if construct == 1 then Workspace(Promoter, DigitsValue(w.sample))
      else if construct == 2 then Workspace(Protein, DigitsValue(w.sample))
      else BadConstruct(construct)
  }

  /** A well-formed name parses to its construct's modality and its sample number. */
  lemma ParseSpelled(w: WorkspaceName)
    requires WellFormed(w)
    ensures ParseFilename(Spell(w)) ==
      var construct := DigitsValue(w.construct);
      if construct == 1 then Workspace(Promoter, DigitsValue(w.sample))
      else if construct == 2 then Workspace(Protein, DigitsValue(w.sample))
      else BadConstruct(construct)
  {
    MatchSpelled(w);
  }

  /** A name that is not so spelled parses to `None`. */
  lemma ParseOnlySpelled(name: string)
    requires !ParseFilename(name).NotWorkspace?
    ensures exists w :: WellFormed(w) && Spell(w) == name
  {
    MatchedIsSpelled(name);
  }

  /** The tab-separated fields of a line of the file-info table, after `strip()`. */
  function Fields(line: string): seq<string> {
    Split(Strip(line), '\t')
  }

  /** The (file name, gene) pair a line of the table gives, if it has at least
      two fields. */
  function LineEntry(line: string): Option<(string, string)> {
    var parts := Fields(line);
    if |parts| < 2 then None else Some((parts[0], parts[1]))
  }

  /** The mapping `build_filename_to_gene_map` returns for a table whose first
      line is the header. */
  function GeneTable(lines: seq<string>): map<string, string>
    requires lines != []
  {
    FromPairs(Collect(lines[1..], LineEntry))
  }

  /** `build_filename_to_gene_map`: `None` when the file is empty (`next(f)` raises). */
  method BuildFilenameToGeneMap(lines: seq<string>) returns (r: Option<map<string, string>>)
    ensures r.None? <==> lines == []
    ensures r.Some? ==> r.value == GeneTable(lines)
  {
    if lines == [] {
      return None;
    }
    var table: map<string, string> := map[];
    var i := 1;
    while i < |lines|
      invariant 1 <= i <= |lines|
      invariant table == FromPairs(Collect(lines[1..i], LineEntry))
    {
      CollectSliceStep(lines, 1, i, LineEntry);
      var entry := LineEntry(lines[i]);
      if entry.Some? {
        table := table[entry.value.0 := entry.value.1];
      }
      i := i + 1;
    }
    assert lines[1..i] == lines[1..];
    return Some(table);
  }

  /** The table `build_filename_to_gene_map` reads: a file is present exactly when
      a line after the header names it, with the gene of the last such line. */
  lemma GeneTableLastWins(lines: seq<string>, name: string)
    requires lines != []
    ensures name in GeneTable(lines) <==>
      exists i :: 1 <= i < |lines| && Assigns(LineEntry, lines[i], name)
    ensures name in GeneTable(lines) ==>
      exists i :: 1 <= i < |lines| && Assigns(LineEntry, lines[i], name)
        && LineEntry(lines[i]).value.1 == GeneTable(lines)[name]
        && forall j :: i < j < |lines| ==> !Assigns(LineEntry, lines[j], name)
  {
    CollectSuffixLastWins(lines, 1, LineEntry, name);
  }

  /** One measurement row of a workspace file: `Table1` (the cell), `Table2` (the
      time point) and `Table4` (the expression rate, `None` for NaN). */
  datatype Row = Row(cell: string, time: int, rate: Option<real>)

  /** A `.csv` file of the data directory: its name and its rows. */
  datatype CsvFile = CsvFile(name: string, rows: seq<Row>)

  /** A file both passes read: its name parsed to a modality and a sample, and the
      table assigned it a gene. */
  datatype Source = Source(modality: Modality, sample: int, gene: string, rows: seq<Row>)

  /** `parse_filename` and `filename_to_gene.get` for one file: `None` when either
      gives `None`, and the file is skipped. */
  function Classify(f: CsvFile, genes: map<string, string>): Option<Source> {
    match ParseFilename(f.name)
    case Workspace(m, s) => if f.name in genes then Some(Source(m, s, genes[f.name], f.rows)) else None
    case _ => None
  }

  /** The files in order, each classified. */
  function Sources(files: seq<CsvFile>, genes: map<string, string>): (srcs: seq<Option<Source>>)
    ensures |srcs| == |files|
  {
    if files == [] then []
    else Sources(files[..|files| - 1], genes) + [Classify(files[|files| - 1], genes)]
  }

  lemma {:induction false} SourcesAt(files: seq<CsvFile>, genes: map<string, string>, k: nat)
    requires k < |files|
    ensures Sources(files, genes)[k] == Classify(files[k], genes)
  {
    var n := |files| - 1;
    if k < n {
      SourcesAt(files[..n], genes, k);
    }
  }

  function RowCells(rows: seq<Row>): set<string> {
    set r | r in rows :: r.cell
  }

  function RowTimes(rows: seq<Row>): set<int> {
    set r | r in rows :: r.time
  }

  /** The four sets the first pass fills. */
  datatype Axes = Axes(features: set<string>, samples: set<int>, cells: set<string>, times: set<int>)

  /** The sets after the first pass: every file read adds its gene, its sample, and
      the cell and time of every row, whether or not the row has a rate. */
  function AxesOf(srcs: seq<Option<Source>>): Axes {
    if srcs == [] then Axes({}, {}, {}, {})
    else
      var a := AxesOf(srcs[..|srcs| - 1]);
      match srcs[|srcs| - 1]
      case None => a
      case Some(src) =>
        Axes(a.features + {src.gene}, a.samples + {src.sample},
             a.cells + RowCells(src.rows), a.times + RowTimes(src.rows))
  }

  /** The features are the genes of the files read. */
  lemma {:induction false} FeaturesOf(srcs: seq<Option<Source>>, g: string)
    ensures g in AxesOf(srcs).features <==>
      exists k :: 0 <= k < |srcs| && srcs[k].Some? && srcs[k].value.gene == g
  {
    if srcs != [] {
      var n := |srcs| - 1;
      FeaturesOf(srcs[..n], g);
      if k :| 0 <= k < n && srcs[..n][k].Some? && srcs[..n][k].value.gene == g {
        assert srcs[k] == srcs[..n][k];
      }
      if k :| 0 <= k < |srcs| && srcs[k].Some? && srcs[k].value.gene == g {
        if k < n {
          assert srcs[k] == srcs[..n][k];
        }
      }
    }
  }

  /** The samples are the sample numbers of the files read. */
  lemma {:induction false} SamplesOf(srcs: seq<Option<Source>>, s: int)
    ensures s in AxesOf(srcs).samples <==>
      exists k :: 0 <= k < |srcs| && srcs[k].Some? && srcs[k].value.sample == s
  {
    if srcs != [] {
      var n := |srcs| - 1;
      SamplesOf(srcs[..n], s);
      if k :| 0 <= k < n && srcs[..n][k].Some? && srcs[..n][k].value.sample == s {
        assert srcs[k] == srcs[..n][k];
      }
      if k :| 0 <= k < |srcs| && srcs[k].Some? && srcs[k].value.sample == s {
        if k < n {
          assert srcs[k] == srcs[..n][k];
        }
      }
    }
  }

  /** The cells are those of every row of the files read, measured or not. */
  lemma {:induction false} CellsOf(srcs: seq<Option<Source>>, c: string)
    ensures c in AxesOf(srcs).cells <==>
      exists k :: 0 <= k < |srcs| && srcs[k].Some? && c in RowCells(srcs[k].value.rows)
  {
    if srcs != [] {
      var n := |srcs| - 1;
      CellsOf(srcs[..n], c);
      if k :| 0 <= k < n && srcs[..n][k].Some? && c in RowCells(srcs[..n][k].value.rows) {
        assert srcs[k] == srcs[..n][k];
      }
      if k :| 0 <= k < |srcs| && srcs[k].Some? && c in RowCells(srcs[k].value.rows) {
        if k < n {
          assert srcs[k] == srcs[..n][k];
        }
      }
    }
  }

  /** The times are those of every row of the files read, measured or not. */
  lemma {:induction false} TimesOf(srcs: seq<Option<Source>>, t: int)
    ensures t in AxesOf(srcs).times <==>
      exists k :: 0 <= k < |srcs| && srcs[k].Some? && t in RowTimes(srcs[k].value.rows)
  {
    if srcs != [] {
      var n := |srcs| - 1;
      TimesOf(srcs[..n], t);
      if k :| 0 <= k < n && srcs[..n][k].Some? && t in RowTimes(srcs[..n][k].value.rows) {
        assert srcs[k] == srcs[..n][k];
      }
      if k :| 0 <= k < |srcs| && srcs[k].Some? && t in RowTimes(srcs[k].value.rows) {
        if k < n {
          assert srcs[k] == srcs[..n][k];
        }
      }
    }
  }

  /** The tensor's key for an entry: (sample, time, cell, modality, feature). */
  type Key = (int, int, string, Modality, string)

  /** The entry a row of a file read writes to. */
  function KeyOf(src: Source, r: Row): Key {
    (src.sample, r.time, r.cell, src.modality, src.gene)
  }

  /** The writes of the second pass for the rows of one file, in row order: rows
      without a rate are filtered out. */
  function RowWrites(src: Source, rows: seq<Row>): seq<(Key, real)> {
    if rows == [] then []
    else
      var init := RowWrites(src, rows[..|rows| - 1]);
      var r := rows[|rows| - 1];
      if r.rate.None? then init
      else init + [(KeyOf(src, r), r.rate.value)]
  }

  /** Every write of the second pass, in file and row order. */
  function Writes(srcs: seq<Option<Source>>): seq<(Key, real)> {
    if srcs == [] then []
    else
      var init := Writes(srcs[..|srcs| - 1]);
      match srcs[|srcs| - 1]
      case None => init
      case Some(src) => init + RowWrites(src, src.rows)
  }

  /** The entries the second pass leaves set: the last write at each key wins. */
  function Measured(srcs: seq<Option<Source>>): map<Key, real> {
    FromPairs(Writes(srcs))
  }

  lemma AxesOfSnoc(srcs: seq<Option<Source>>, c: Option<Source>)
    ensures AxesOf(srcs + [c]) == match c
      case None => AxesOf(srcs)
      case Some(src) =>
        var a := AxesOf(srcs);
        Axes(a.features + {src.gene}, a.samples + {src.sample},
             a.cells + RowCells(src.rows), a.times + RowTimes(src.rows))
  {
    assert (srcs + [c])[..|srcs|] == srcs;
  }

  lemma WritesSnoc(srcs: seq<Option<Source>>, c: Option<Source>)
    ensures Writes(srcs + [c]) == match c
      case None => Writes(srcs)
      case Some(src) => Writes(srcs) + RowWrites(src, src.rows)
  {
    assert (srcs + [c])[..|srcs|] == srcs;
  }

  /** The first pass over one more file. */
  lemma AxesStep(files: seq<CsvFile>, genes: map<string, string>, i: nat)
    requires i < |files|
    ensures AxesOf(Sources(files[..i + 1], genes)) == match Classify(files[i], genes)
      case None => AxesOf(Sources(files[..i], genes))
      case Some(src) =>
        var a := AxesOf(Sources(files[..i], genes));
        Axes(a.features + {src.gene}, a.samples + {src.sample},
             a.cells + RowCells(src.rows), a.times + RowTimes(src.rows))
  {
    assert files[..i + 1][..i] == files[..i];
    AxesOfSnoc(Sources(files[..i], genes), Classify(files[i], genes));
  }

  /** A file read puts its sample, its gene, and every row's cell and time on the axes. */
  lemma SourceOnAxes(srcs: seq<Option<Source>>, k: nat, src: Source)
    requires k < |srcs| && srcs[k] == Some(src)
    ensures src.sample in AxesOf(srcs).samples && src.gene in AxesOf(srcs).features
    ensures forall row | row in src.rows :: row.cell in AxesOf(srcs).cells && row.time in AxesOf(srcs).times
  {
    SamplesOf(srcs, src.sample);
    FeaturesOf(srcs, src.gene);
    forall row | row in src.rows
      ensures row.cell in AxesOf(srcs).cells && row.time in AxesOf(srcs).times
    {
      CellsOf(srcs, row.cell);
      TimesOf(srcs, row.time);
    }
  }

  /** The second pass over one more file. */
  lemma WritesStep(files: seq<CsvFile>, genes: map<string, string>, i: nat)
    requires i < |files|
    ensures Writes(Sources(files[..i + 1], genes)) == match Classify(files[i], genes)
      case None => Writes(Sources(files[..i], genes))
      case Some(src) => Writes(Sources(files[..i], genes)) + RowWrites(src, src.rows)
  {
    assert files[..i + 1][..i] == files[..i];
    WritesSnoc(Sources(files[..i], genes), Classify(files[i], genes));
  }

  /** Row `j` of `rows` has a rate, at key `k`. */
  predicate RowMeasures(src: Source, rows: seq<Row>, j: int, k: Key) {
    0 <= j < |rows| && rows[j].rate.Some? && KeyOf(src, rows[j]) == k
  }

  /** Row `j` of the `i`-th file has a rate, at key `k`; the file was read. */
  predicate MeasuredAt(srcs: seq<Option<Source>>, i: int, j: int, k: Key) {
    0 <= i < |srcs| && srcs[i].Some? && RowMeasures(srcs[i].value, srcs[i].value.rows, j, k)
  }

  /** One file's writes: a key is set exactly when one of its rows with a rate has
      that key, to the rate of the last such row. */
  lemma {:induction false} RowEntries(src: Source, rows: seq<Row>, k: Key)
    ensures k in FromPairs(RowWrites(src, rows)) <==> exists j :: RowMeasures(src, rows, j, k)
    ensures k in FromPairs(RowWrites(src, rows)) ==>
      exists j :: RowMeasures(src, rows, j, k) && FromPairs(RowWrites(src, rows))[k] == rows[j].rate.value
        && forall j2 :: RowMeasures(src, rows, j2, k) ==> j2 <= j
  {
    if rows != [] {
      var n := |rows| - 1;
      var init := rows[..n];
      RowEntries(src, init, k);
      assert forall j :: 0 <= j < n ==> (RowMeasures(src, init, j, k) <==> RowMeasures(src, rows, j, k));
      if rows[n].rate.Some? {
        FromPairsSnoc(RowWrites(src, init), (KeyOf(src, rows[n]), rows[n].rate.value));
        if KeyOf(src, rows[n]) == k {
          assert RowMeasures(src, rows, n, k);
        }
      }
    }
  }

  /** After the second pass, an entry is set exactly when some row of a file read
      has a rate at its key, and it holds the rate of the last such row: no later
      file, and no later row of the same file, measures that key. */
  lemma {:induction false} MeasuredEntries(srcs: seq<Option<Source>>, k: Key)
    ensures k in Measured(srcs) <==> exists i, j :: MeasuredAt(srcs, i, j, k)
    ensures k in Measured(srcs) ==>
      exists i, j :: MeasuredAt(srcs, i, j, k) && Measured(srcs)[k] == srcs[i].value.rows[j].rate.value
        && forall i2, j2 :: MeasuredAt(srcs, i2, j2, k) ==> i2 < i || (i2 == i && j2 <= j)
  {
    if srcs != [] {
      var n := |srcs| - 1;
      var init := srcs[..n];
      MeasuredEntries(init, k);
      assert forall i, j :: 0 <= i < n ==> (MeasuredAt(init, i, j, k) <==> MeasuredAt(srcs, i, j, k)) by {
        forall i, j | 0 <= i < n ensures MeasuredAt(init, i, j, k) <==> MeasuredAt(srcs, i, j, k) {
          assert init[i] == srcs[i];
        }
      }
      match srcs[n]
      case None =>
        assert Measured(srcs) == Measured(init);
        assert forall j :: !MeasuredAt(srcs, n, j, k);
      case Some(src) =>
        FromPairsConcat(Writes(init), RowWrites(src, src.rows));
        assert Measured(srcs) == Measured(init) + FromPairs(RowWrites(src, src.rows));
        RowEntries(src, src.rows, k);
        assert forall j :: MeasuredAt(srcs, n, j, k) <==> RowMeasures(src, src.rows, j, k);
        if k in FromPairs(RowWrites(src, src.rows)) {
          var j :| RowMeasures(src, src.rows, j, k) && FromPairs(RowWrites(src, src.rows))[k] == src.rows[j].rate.value
            && forall j2 :: RowMeasures(src, src.rows, j2, k) ==> j2 <= j;
          assert MeasuredAt(srcs, n, j, k);
        } else if k in Measured(init) {
          var i, j :| MeasuredAt(init, i, j, k) && Measured(init)[k] == init[i].value.rows[j].rate.value
            && forall i2, j2 :: MeasuredAt(init, i2, j2, k) ==> i2 < i || (i2 == i && j2 <= j);
          assert MeasuredAt(srcs, i, j, k) && init[i] == srcs[i];
        }
    }
  }

  /** A file that is not read, because its name does not parse or the table has
      no gene for it, changes neither the axes nor the entries. */
  lemma SkippedFileIgnored(files: seq<CsvFile>, f: CsvFile, genes: map<string, string>)
    requires Classify(f, genes).None?
    ensures AxesOf(Sources(files + [f], genes)) == AxesOf(Sources(files, genes))
    ensures Measured(Sources(files + [f], genes)) == Measured(Sources(files, genes))
  {
    assert (files + [f])[..|files|] == files;
  }

  function Lookup(m: map<Key, real>, k: Key): Option<real> {
    if k in m then Some(m[k]) else None
  }

  function ModalityAt(d: nat): Modality {
    if d == 0 then Promoter else Protein
  }

  /** `modality_to_idx`. */
  function ModalityIndex(m: Modality): (d: nat)
    ensures d < 2 && ModalityAt(d) == m
  {
    match m
    case Promoter => 0
    case Protein => 1
  }

  /** The dictionary `modality_to_idx` maps every modality to its index. */
  lemma ModalityMapIndex(m: Modality)
    ensures m in map[Promoter := 0, Protein := 1] && map[Promoter := 0, Protein := 1][m] == ModalityIndex(m)
  {
  }

  /** `t` holds, at each index, the entry of `m` at the key the axis orders name. */
  ghost predicate Holds(t: array5<Option<real>>, m: map<Key, real>,
                        samples: seq<int>, times: seq<int>, cells: seq<string>, features: seq<string>)
    reads t
  {
    && t.Length0 == |samples| && t.Length1 == |times| && t.Length2 == |cells|
    && t.Length3 == 2 && t.Length4 == |features|
    && forall a, b, c, d, e | 0 <= a < t.Length0 && 0 <= b < t.Length1 && 0 <= c < t.Length2
         && 0 <= d < 2 && 0 <= e < t.Length4 ::
         t[a, b, c, d, e] == Lookup(m, (samples[a], times[b], cells[c], ModalityAt(d), features[e]))
  }

  datatype Mappings = Mappings(
    sampleToIdx: map<int, nat>, timeToIdx: map<int, nat>, cellToIdx: map<string, nat>,
    modalityToIdx: map<Modality, nat>, featureToIdx: map<string, nat>, filenameToGene: map<string, string>)

  /** What `create_tensor` returns: the array and its mappings. */
  datatype Tensor = Tensor(data: array5<Option<real>>, mappings: Mappings)

  /** The empty `FileInfo.txt` (`next(f)` raises) or the file whose construct number
      leaves `modality` unbound. */
  datatype CreateError = EmptyFileInfo | UnboundModality(filename: string)

  ghost function SampleOrder(srcs: seq<Option<Source>>): seq<int> {
    SortedInts(AxesOf(srcs).samples)
  }

  ghost function TimeOrder(srcs: seq<Option<Source>>): seq<int> {
    SortedInts(AxesOf(srcs).times)
  }

  ghost function CellOrder(srcs: seq<Option<Source>>): seq<string> {
    SortedStrings(AxesOf(srcs).cells)
  }

  ghost function FeatureOrder(srcs: seq<Option<Source>>): seq<string> {
    SortedStrings(AxesOf(srcs).features)
  }

  /** The result of `create_tensor` for the files read: each index map numbers its
      axis in sorted order, and the array holds the measured rate at every index
      whose key some row measured, NaN elsewhere. */
  ghost predicate Pivots(t: Tensor, srcs: seq<Option<Source>>, genes: map<string, string>)
    reads t.data
  {
    var so, to, co, fo := SampleOrder(srcs), TimeOrder(srcs), CellOrder(srcs), FeatureOrder(srcs);
    && Distinct(so) && Distinct(to) && Distinct(co) && Distinct(fo)
    && t.mappings.sampleToIdx == IndexMap(so)
    && t.mappings.timeToIdx == IndexMap(to)
    && t.mappings.cellToIdx == IndexMap(co)
    && t.mappings.featureToIdx == IndexMap(fo)
    && t.mappings.modalityToIdx == map[Promoter := 0, Protein := 1]
    && t.mappings.filenameToGene == genes
    && Holds(t.data, Measured(srcs), so, to, co, fo)
  }

  /** `parse_filename` raises on this file: its construct number is neither 1 nor 2. */
  predicate Crashes(f: CsvFile) {
    ParseFilename(f.name).BadConstruct?
  }

  /** No file of `files` crashes, checked from the last. */
  predicate NoCrash(files: seq<CsvFile>) {
    files == [] || (NoCrash(files[..|files| - 1]) && !Crashes(files[|files| - 1]))
  }

  lemma {:induction false} NoCrashAll(files: seq<CsvFile>)
    ensures NoCrash(files) <==> forall k :: 0 <= k < |files| ==> !Crashes(files[k])
  {
    if files != [] {
      var n := |files| - 1;
      NoCrashAll(files[..n]);
      assert forall k :: 0 <= k < n ==> files[..n][k] == files[k];
    }
  }

  /** `create_tensor`: reads the gene table, gathers and sorts the four axes over
      the files read, allocates an all-NaN array of shape (samples, times, cells,
      2, features) and writes every measured rate at its indices. */
  method CreateTensor(files: seq<CsvFile>, info: seq<string>) returns (r: Result<Tensor, CreateError>)
    ensures info == [] ==> r == Failure(EmptyFileInfo)
    ensures info != [] ==>
      (r.Failure? <==> exists k :: 0 <= k < |files| && Crashes(files[k]))
    ensures info != [] && r.Failure? ==> exists k :: (0 <= k < |files| && Crashes(files[k])
      && r.error == UnboundModality(files[k].name)
      && forall j :: 0 <= j < k ==> !Crashes(files[j]))
    ensures r.Success? ==>
      info != [] && fresh(r.value.data) && Pivots(r.value, Sources(files, GeneTable(info)), GeneTable(info))
  {
    var table := BuildFilenameToGeneMap(info);
    if table.None? {
      return Failure(EmptyFileInfo);
    }
    var genes := table.value;
    var axes :- GatherAxes(files, genes);
    var tensor := Pivot(files, genes, axes);
    return Success(tensor);
  }

  /** Everything after the first pass: sort the axes, number them, allocate the
      all-NaN array and fill it. */
  method Pivot(files: seq<CsvFile>, genes: map<string, string>, axes: Axes) returns (tensor: Tensor)
    requires axes == AxesOf(Sources(files, genes))
    ensures fresh(tensor.data) && Pivots(tensor, Sources(files, genes), genes)
  {
    ghost var srcs := Sources(files, genes);
    var sampleOrder, timeOrder, cellOrder, featureOrder := SortAxes(srcs, axes);
    var mappings := Mappings(IndexMap(sampleOrder), IndexMap(timeOrder), IndexMap(cellOrder),
      map[Promoter := 0, Protein := 1], IndexMap(featureOrder), genes);
    var data := AllMissing(sampleOrder, timeOrder, cellOrder, featureOrder);
    FillTensor(data, files, genes, srcs, sampleOrder, timeOrder, cellOrder, featureOrder, mappings);
    tensor := Tensor(data, mappings);
  }

  /** `np.full(..., np.nan)`: one position per axis value, every one missing. */
  method AllMissing(samples: seq<int>, times: seq<int>, cells: seq<string>, features: seq<string>)
    returns (data: array5<Option<real>>)
    ensures fresh(data) && Holds(data, map[], samples, times, cells, features)
  {
    data := new Option<real>[|samples|, |times|, |cells|, 2, |features|]((a, b, c, d, e) => None);
  }

  /** The index maps of a tensor `create_tensor` returns number each axis densely
      from 0, in sorted order, and the array has one position per axis value. */
  lemma PivotsDense(t: Tensor, srcs: seq<Option<Source>>, genes: map<string, string>)
    requires Pivots(t, srcs, genes)
    ensures DenseIndex(t.mappings.sampleToIdx, AxesOf(srcs).samples, IntLess)
    ensures DenseIndex(t.mappings.timeToIdx, AxesOf(srcs).times, IntLess)
    ensures DenseIndex(t.mappings.cellToIdx, AxesOf(srcs).cells, StrLess)
    ensures DenseIndex(t.mappings.featureToIdx, AxesOf(srcs).features, StrLess)
    ensures t.data.Length0 == |AxesOf(srcs).samples| && t.data.Length1 == |AxesOf(srcs).times|
    ensures t.data.Length2 == |AxesOf(srcs).cells| && t.data.Length3 == 2
    ensures t.data.Length4 == |AxesOf(srcs).features|
  {
    IntLessIsStrictTotalOrder();
    StrLessIsStrictTotalOrder();
    SortedIndexIsDense(AxesOf(srcs).samples, IntLess);
    SortedIndexIsDense(AxesOf(srcs).times, IntLess);
    SortedIndexIsDense(AxesOf(srcs).cells, StrLess);
    SortedIndexIsDense(AxesOf(srcs).features, StrLess);
  }

  /** Each entry of a tensor `create_tensor` returns is set exactly when some row
      of a file read measures its key, to the last such rate. */
  lemma PivotsEntry(t: Tensor, srcs: seq<Option<Source>>, genes: map<string, string>, a: nat, b: nat, c: nat, d: nat, e: nat)
    requires Pivots(t, srcs, genes)
    requires a < t.data.Length0 && b < t.data.Length1 && c < t.data.Length2 && d < 2 && e < t.data.Length4
    ensures var k := (SampleOrder(srcs)[a], TimeOrder(srcs)[b], CellOrder(srcs)[c], ModalityAt(d), FeatureOrder(srcs)[e]);
      && (t.data[a, b, c, d, e].Some? <==> exists i, j :: MeasuredAt(srcs, i, j, k))
      && (t.data[a, b, c, d, e].Some? ==> exists i, j :: (MeasuredAt(srcs, i, j, k)
            && t.data[a, b, c, d, e].value == srcs[i].value.rows[j].rate.value
            && forall i2, j2 :: MeasuredAt(srcs, i2, j2, k) ==> i2 < i || (i2 == i && j2 <= j)))
  {
    var k := (SampleOrder(srcs)[a], TimeOrder(srcs)[b], CellOrder(srcs)[c], ModalityAt(d), FeatureOrder(srcs)[e]);
    MeasuredEntries(srcs, k);
  }

  /** A cell whose only row has no rate is still on the cell axis, though no entry
      of it is set. */
  lemma UnmeasuredCellOnAxis()
    ensures var srcs := [Some(Source(Promoter, 1, "g", [Row("c", 0, None)]))];
      "c" in AxesOf(srcs).cells && Measured(srcs) == map[]
  {
    var srcs := [Some(Source(Promoter, 1, "g", [Row("c", 0, None)]))];
    assert srcs[..0] == [];
    var rows := [Row("c", 0, None)];
    assert rows[..0] == [];
    assert RowWrites(srcs[0].value, rows) == [];
  }

  /** The four `sorted(...)` calls of `create_tensor`. */
  method SortAxes(ghost srcs: seq<Option<Source>>, axes: Axes)
      returns (samples: seq<int>, times: seq<int>, cells: seq<string>, features: seq<string>)
    requires axes == AxesOf(srcs)
    ensures samples == SampleOrder(srcs) && times == TimeOrder(srcs)
    ensures cells == CellOrder(srcs) && features == FeatureOrder(srcs)
  {
    samples := SortInts(axes.samples);
    times := SortInts(axes.times);
    cells := SortStrings(axes.cells);
    features := SortStrings(axes.features);
  }

  /** The first pass: the four axis sets, or the first file whose construct number
      is neither 1 nor 2. */
  method GatherAxes(files: seq<CsvFile>, genes: map<string, string>) returns (r: Result<Axes, CreateError>)
    ensures r.Failure? <==> exists k :: 0 <= k < |files| && Crashes(files[k])
    ensures r.Failure? ==> exists k :: (0 <= k < |files| && Crashes(files[k])
      && r.error == UnboundModality(files[k].name)
      && forall j :: 0 <= j < k ==> !Crashes(files[j]))
    ensures r.Success? ==> r.value == AxesOf(Sources(files, genes))
  {
    var features: set<string>, samples: set<int>, cells: set<string>, times: set<int> := {}, {}, {}, {};
    var i := 0;
    while i < |files|
      invariant 0 <= i <= |files|
      invariant NoCrash(files[..i])
      invariant Axes(features, samples, cells, times) == AxesOf(Sources(files[..i], genes))
    {
      var f := files[i];
      if ParseFilename(f.name).BadConstruct? {
        NoCrashAll(files[..i]);
        assert forall j :: 0 <= j < i ==> files[..i][j] == files[j];
        return Failure(UnboundModality(f.name));
      }
      assert files[..i + 1][..i] == files[..i];
      var read := Classify(f, genes);
      AxesStep(files, genes, i);
      if read.Some? {
        features := features + {read.value.gene};
        cells := cells + RowCells(read.value.rows);
        times := times + RowTimes(read.value.rows);
        samples := samples + {read.value.sample};
      }
      i := i + 1;
    }
    assert files[..i] == files;
    NoCrashAll(files);
    return Success(Axes(features, samples, cells, times));
  }

  /** The second pass over the files read. */
  method FillTensor(t: array5<Option<real>>, files: seq<CsvFile>, genes: map<string, string>,
                    ghost srcs: seq<Option<Source>>,
                    samples: seq<int>, times: seq<int>, cells: seq<string>, features: seq<string>,
                    mappings: Mappings)
    requires srcs == Sources(files, genes)
    requires Distinct(samples) && Distinct(times) && Distinct(cells) && Distinct(features)
    requires SortedEnumeration(samples, AxesOf(srcs).samples, IntLess)
    requires SortedEnumeration(times, AxesOf(srcs).times, IntLess)
    requires SortedEnumeration(cells, AxesOf(srcs).cells, StrLess)
    requires SortedEnumeration(features, AxesOf(srcs).features, StrLess)
    requires mappings.sampleToIdx == IndexMap(samples) && mappings.timeToIdx == IndexMap(times)
    requires mappings.cellToIdx == IndexMap(cells) && mappings.featureToIdx == IndexMap(features)
    requires mappings.modalityToIdx == map[Promoter := 0, Protein := 1]
    requires Holds(t, map[], samples, times, cells, features)
    modifies t
    ensures Holds(t, Measured(srcs), samples, times, cells, features)
  {
    var i := 0;
    while i < |files|
      invariant 0 <= i <= |files|
      invariant Holds(t, Measured(Sources(files[..i], genes)), samples, times, cells, features)
    {
      if Classify(files[i], genes).Some? {
        SourcesAt(files, genes, i);
        SourceOnAxes(srcs, i, Classify(files[i], genes).value);
      }
      FillFile(t, files, genes, i, samples, times, cells, features, mappings);
      i := i + 1;
    }
    assert files[..i] == files;
  }

  /** The sample, gene, cells and times of `src` all have an index on the axes. */
  predicate OnAxes(src: Source, samples: seq<int>, times: seq<int>, cells: seq<string>, features: seq<string>) {
    && src.sample in samples && src.gene in features
    && forall row | row in src.rows :: row.cell in cells && row.time in times
  }

  /** One step of the second pass: the rows of file `i`, when it is read. */
  method FillFile(t: array5<Option<real>>, files: seq<CsvFile>, genes: map<string, string>,
                  i: nat, samples: seq<int>, times: seq<int>, cells: seq<string>, features: seq<string>,
                  mappings: Mappings)
    requires i < |files|
    requires Distinct(samples) && Distinct(times) && Distinct(cells) && Distinct(features)
    requires Classify(files[i], genes).Some? ==>
      OnAxes(Classify(files[i], genes).value, samples, times, cells, features)
    requires mappings.sampleToIdx == IndexMap(samples) && mappings.timeToIdx == IndexMap(times)
    requires mappings.cellToIdx == IndexMap(cells) && mappings.featureToIdx == IndexMap(features)
    requires mappings.modalityToIdx == map[Promoter := 0, Protein := 1]
    requires Holds(t, Measured(Sources(files[..i], genes)), samples, times, cells, features)
    modifies t
    ensures Holds(t, Measured(Sources(files[..i + 1], genes)), samples, times, cells, features)
  {
    var read := Classify(files[i], genes);
    WritesStep(files, genes, i);
    if read.Some? {
      var src := read.value;
      IndexMapAt(samples, src.sample);
      IndexMapAt(features, src.gene);
      ModalityMapIndex(src.modality);
      var modality := mappings.modalityToIdx[src.modality];
      var sample := mappings.sampleToIdx[src.sample];
      var feature := mappings.featureToIdx[src.gene];
      WriteRows(t, Writes(Sources(files[..i], genes)), src, src.rows, samples, times, cells, features,
                mappings.cellToIdx, mappings.timeToIdx, sample, modality, feature);
    }
  }

  /** The rows of one file read, NaN rates filtered out, each written at its indices. */
  method WriteRows(t: array5<Option<real>>, ghost ws: seq<(Key, real)>, src: Source, rows: seq<Row>,
                   ghost samples: seq<int>, ghost times: seq<int>, ghost cells: seq<string>, ghost features: seq<string>,
                   cellToIdx: map<string, nat>, timeToIdx: map<int, nat>, sample: nat, modality: nat, feature: nat)
    requires Distinct(samples) && Distinct(times) && Distinct(cells) && Distinct(features)
    requires cellToIdx == IndexMap(cells) && timeToIdx == IndexMap(times)
    requires Holds(t, FromPairs(ws), samples, times, cells, features)
    requires sample < t.Length0 && modality < 2 && feature < t.Length4
    requires samples[sample] == src.sample && ModalityAt(modality) == src.modality && features[feature] == src.gene
    requires forall r :: r in rows ==> r.cell in cells && r.time in times
    modifies t
    ensures Holds(t, FromPairs(ws + RowWrites(src, rows)), samples, times, cells, features)
  {
    var j := 0;
    assert ws + RowWrites(src, rows[..0]) == ws;
    while j < |rows|
      invariant 0 <= j <= |rows|
      invariant Holds(t, FromPairs(ws + RowWrites(src, rows[..j])), samples, times, cells, features)
    {
      var row := rows[j];
      ghost var before := ws + RowWrites(src, rows[..j]);
      RowWritesStep(ws, src, rows, j);
      if row.rate.Some? {
        var cell := cellToIdx[row.cell];
        var time := timeToIdx[row.time];
        WriteEntry(t, before, KeyOf(src, row), row.rate.value,
                   samples, times, cells, features, sample, time, cell, modality, feature);
      }
      j := j + 1;
    }
    assert rows[..j] == rows;
  }

  /** The writes after one more row of a file. */
  lemma RowWritesStep(ws: seq<(Key, real)>, src: Source, rows: seq<Row>, j: nat)
    requires j < |rows|
    ensures ws + RowWrites(src, rows[..j + 1]) == if rows[j].rate.Some?
      then ws + RowWrites(src, rows[..j]) + [(KeyOf(src, rows[j]), rows[j].rate.value)]
      else ws + RowWrites(src, rows[..j])
  {
    assert rows[..j + 1][..j] == rows[..j];
  }

  method WriteEntry(t: array5<Option<real>>, ghost ws: seq<(Key, real)>, ghost k: Key, rate: real,
                    ghost samples: seq<int>, ghost times: seq<int>, ghost cells: seq<string>, ghost features: seq<string>,
                    a: nat, b: nat, c: nat, d: nat, e: nat)
    requires Distinct(samples) && Distinct(times) && Distinct(cells) && Distinct(features)
    requires Holds(t, FromPairs(ws), samples, times, cells, features)
    requires a < t.Length0 && b < t.Length1 && c < t.Length2 && d < 2 && e < t.Length4
    requires k == (samples[a], times[b], cells[c], ModalityAt(d), features[e])
    modifies t
    ensures Holds(t, FromPairs(ws + [(k, rate)]), samples, times, cells, features)
  {
    t[a, b, c, d, e] := Some(rate);
    FromPairsSnoc(ws, (k, rate));
  }
}
