# CMOS expression pipeline in Dafny

This project models the data pipeline of the CMOS repository. The pipeline
turns per-cell gene-expression measurements of *C. elegans* embryos into a
tensor and then into JSON files and plots. Six scripts are modelled, each in
its own module:

- `create_tensor.py` (`CreateTensor`) reads `WorkSpace_<a>_<b>_<construct>_<sample>.csv`
  files and the tab-separated `FileInfo.txt` table that gives each file its gene.
  It collects the sample, time, cell and feature axes, sorts them into index
  maps, and fills a NaN-initialised five-dimensional array in place.
- `tensor_to_json.py` (`TensorToJson`) walks a tensor in five nested loops and
  emits one record per (feature, modality, cell, sample) that holds at least one
  rate.
- `build_lineage_tree.py` (`BuildLineageTree`) combines the explicit
  parent/children rows with children inferred from the naming rules (`d`/`v`,
  `l`/`r`, `a`/`p`). It writes a children table sorted by parent and a parent
  table with one row per known cell.
- `create_json_alive.py` (`CreateJsonAlive`) builds, per sample, the
  `output[cell][time]` objects for every cell's alive window. Each object holds
  age, parent, fate, surface, volume, the symmetric contact map and the
  tensor's gene rates.
- `plot_json.py` (`PlotJson`) offers cells and genes from the JSON files. It
  extracts, per sample, the time series that a figure is drawn from and the
  name of the file it is saved under.
- `plot_tensor.py` (`PlotTensor`) extracts the sorted series of one
  (source, gene, modality, cell, sample) combination and its value range.

Shared modules:

- `Wrappers`: `Option` and `Result`.
- `Text`: Python's `str.split`, `strip` and `int()`, and string order.
- `Ordering`: `sorted` and the `enumerate(sorted(...))` index maps.
- `Dicts`: a Python dict as its list of items in insertion order.
- `Prompt`: the `get_valid_input` retry loop both plot scripts define.

Inputs the scripts read from disk are given to the model as values:

- CSV rows, text lines and JSON objects;
- the tensor, as an `array5<Option<real>>` whose `None` is NaN;
- the pickled index maps.

The two layouts the scripts use are kept apart, as in the source.
`create_tensor.py` writes `(sample, time, cell, modality, feature)` and keys
features by gene name. `tensor_to_json.py` and `plot_tensor.py` read
`(feature, modality, cell, time, sample)` and key features by a
`(source number, gene number)` pair.

The loops that change state are methods. Each is proved against a
specification function, and the lemmas beside that function state what the
script promises.

Some error paths are modelled as results instead of left out:

- the `UnboundLocalError` of `parse_filename` for a construct other than 1 or 2;
- the `StopIteration` of an empty `FileInfo.txt`;
- the `ValueError` of `int()` on a lifecycle time field;
- the `KeyError` of a missing `proteins` key and of an unknown modality in `plot_json.py`;
- the `KeyError` that `sort_values('parent')` raises in `build_lineage_tree.py` when the tree is empty.

A lifecycle line is split with its line break still attached. The last
field `"12\n"` therefore still converts, because `int()` strips whitespace.
A trailing comma, however, leaves a field `"\n"` that is not skipped as
empty, and `int()` raises on it. The model keeps this behaviour.

## Model

| member | source | states |
|---|---|---|
| Prompt.GetValidInput | plot_json.py:5-13 | returns the value of the first line that converts and lies in the valid values (any converting line when there are none), every earlier line being rejected; `None` exactly when no line is accepted |
| Prompt.IntLineAccepted | plot_tensor.py:38-40 | a number typed at an `int` prompt is accepted exactly when it is one of the valid values |
| Wrappers.FirstFailureIsFirst | plot_json.py:64-220 | running the samples in turn fails iff some sample fails, with the error of the first one; otherwise it gives every sample's outcome in order |
| Wrappers.AllSomeIff | create_json_alive.py:57 | converting every field succeeds with `ys` iff each field converts to the matching element of `ys` |
| Text.JoinSplit | create_json_alive.py:52 | `str.split(',')` yields fields without the separator that join back to the line |
| Text.SplitJoin | create_json_alive.py:52 | splitting the join of separator-free fields gives those fields back |
| Text.TrimPadded | create_tensor.py:24 | `strip` removes exactly the padding around a core that does not start or end with a stripped character |
| Text.StripUnpadded | plot_json.py:8 | a line without surrounding whitespace is unchanged by `strip()` |
| Text.ParseIntToString | plot_json.py:86 | `int(str(n)) == n` for every integer |
| Text.IntToStringInjective | create_json_alive.py:91 | distinct times have distinct `str(t)` keys |
| Text.SortStrings | build_lineage_tree.py:69 | `sorted` of a set of strings lists each element once, in strictly increasing order |
| Ordering.SortInts | create_tensor.py:58-59 | `sorted` of a set of integers lists each element once, in strictly increasing order |
| Ordering.SortedElements | create_tensor.py:56-59 | sorting a set under a strict total order gives its unique sorted enumeration |
| Ordering.SortedEnumerationUnique | create_tensor.py:56-59 | a set has only one strictly sorted enumeration |
| Ordering.IndexMapDense | create_tensor.py:56-59 | `enumerate(sorted(s))` maps exactly the elements of `s` onto `0..|s|-1` |
| Ordering.IndexMapOrder | create_tensor.py:56-59 | the index map preserves and reflects the order of the elements |
| Ordering.SortByKey | plot_json.py:74 | sorting by a key gives a permutation of the input that is ordered by the key |
| Dicts.FromPairsLastWins | build_lineage_tree.py:66 | after a sequence of dict assignments a key is present iff some assignment names it, and holds the value of the last one |
| Dicts.CollectLastWins | create_tensor.py:22-29 | a loop that assigns some of its items' entries leaves a key iff some item assigns it, with the last such item's value |
| Dicts.PutUpdates | build_lineage_tree.py:19 | `d[k] = v` gives `k` the value `v`, leaves every other key alone, and keeps each key once |
| Dicts.GetPut | create_json_alive.py:79-80 | reading a dict right after `d[k] = v` gives `v` at `k` and the old value elsewhere |
| Dicts.PutAllMap | create_json_alive.py:59 | the dict built by successive assignments holds the last value assigned to each key |
| Dicts.PutParsedCollect | create_json_alive.py:49-59 | a loop that assigns parsed lines fails iff some line fails to parse, and otherwise builds the dict of the parsed entries |
| CreateTensor.DigitRunSpec | create_tensor.py:8 | the run `\d+` consumes is all digits and cannot be extended |
| CreateTensor.DigitRunOf | create_tensor.py:8 | a digit string followed by a non-digit is consumed whole |
| CreateTensor.MatchNumber | create_tensor.py:8 | a matched `(\d+)<sep>` is a number followed by the separator, the rest of the input following them |
| CreateTensor.MatchNumberOf | create_tensor.py:8 | a number followed by a separator that starts with a non-digit is always matched |
| CreateTensor.MatchNumbers | create_tensor.py:8 | a match yields one number per separator |
| CreateTensor.MatchNumbersSpelled | create_tensor.py:8 | the matched numbers interleaved with the separators are a prefix of the input |
| CreateTensor.MatchInterleaved | create_tensor.py:8 | any numbers interleaved with the separators are matched back, whatever follows |
| CreateTensor.MatchWorkspace | create_tensor.py:8 | a match gives four digit strings |
| CreateTensor.MatchedIsSpelled | create_tensor.py:8 | the match is anchored at the start only: a matched name is `WorkSpace_a_b_c_d.csv` followed by arbitrary text |
| CreateTensor.MatchSpelled | create_tensor.py:8 | every `WorkSpace_a_b_c_d.csv` name, with anything after `.csv`, matches to its own four numbers |
| CreateTensor.ParseSpelled | create_tensor.py:9-16 | construct 1 gives `Promoter`, construct 2 gives `Protein` and the fourth number is the sample, the first two being ignored; any other construct is the unbound-`modality` failure |
| CreateTensor.ParseOnlySpelled | create_tensor.py:7-17 | `parse_filename` returns `None` unless the name starts with a workspace name |
| CreateTensor.BuildFilenameToGeneMap | create_tensor.py:19-30 | fails exactly on an empty file (`next(f)`), and otherwise builds the table the header-skipping, short-line-skipping loop defines |
| CreateTensor.GeneTableLastWins | create_tensor.py:22-29 | a file name is in the table iff some line after the header has at least two tab-separated fields naming it; the last such line gives the gene |
| CreateTensor.SourcesAt | create_tensor.py:41-48 | each file is parsed, looked up and read independently of the others |
| CreateTensor.FeaturesOf | create_tensor.py:51 | a gene is a feature iff some parsed, mapped file has it |
| CreateTensor.SamplesOf | create_tensor.py:54 | a sample is on the axis iff some parsed, mapped file has it |
| CreateTensor.CellsOf | create_tensor.py:52 | a cell is on the axis iff some row of a parsed, mapped file names it, whether or not its rate is missing |
| CreateTensor.TimesOf | create_tensor.py:53 | a time is on the axis iff some row of a parsed, mapped file has it, whether or not its rate is missing |
| CreateTensor.SourceOnAxes | create_tensor.py:41-54 | every file read puts its sample, gene, cells and times on the axes, so the second pass finds all its indices |
| CreateTensor.RowEntries | create_tensor.py:82-90 | within one file an entry is written iff some row with a rate has its key; the last such row's rate stays |
| CreateTensor.MeasuredEntries | create_tensor.py:71-90 | across files an entry is written iff some file and row measure it; the last measurement in file-then-row order stays |
| CreateTensor.SkippedFileIgnored | create_tensor.py:42-48 | a file that does not parse or has no gene changes neither the axes nor the entries |
| CreateTensor.ModalityIndex | create_tensor.py:60 | the modality index is 0 or 1 and names its modality back |
| CreateTensor.ModalityMapIndex | create_tensor.py:60 | the literal `{'Promoter': 0, 'Protein': 1}` holds every modality at its index |
| CreateTensor.CreateTensor | create_tensor.py:32-98 | an empty file table fails; otherwise the call fails iff some file's construct is neither 1 nor 2, with the `UnboundLocalError` of the first such file, and succeeds with a fresh array that pivots the files read |
| CreateTensor.GatherAxes | create_tensor.py:41-54 | the first pass fails at the first file with a bad construct, and otherwise collects exactly the axes of the files read |
| CreateTensor.SortAxes | create_tensor.py:56-59 | the four axes are put in sorted order |
| CreateTensor.Pivot | create_tensor.py:56-90 | the index maps, the shape and the contents of a fresh array all pivot the files read |
| CreateTensor.AllMissing | create_tensor.py:63-69 | a fresh array of the axes' shape whose every entry is missing |
| CreateTensor.PivotsDense | create_tensor.py:56-69 | each index map is a bijection from its axis onto `0..n-1` in sorted order, and the shape is `(samples, times, cells, 2, features)` |
| CreateTensor.PivotsEntry | create_tensor.py:71-90 | an entry is present iff some file read has a row with a rate at its sample, time, cell, modality and gene; its value is the last such rate |
| CreateTensor.UnmeasuredCellOnAxis | create_tensor.py:50-53 | a cell whose only row lacks a rate is on the cell axis while no entry is present |
| CreateTensor.FillTensor | create_tensor.py:71-90 | the second pass turns the all-missing array into the array of the measured entries |
| CreateTensor.FillFile | create_tensor.py:72-90 | one file adds exactly its measured rows to the array |
| CreateTensor.WriteRows | create_tensor.py:82-90 | rows with a missing rate are dropped and every other row is written at its indices, later rows over earlier ones |
| CreateTensor.WriteEntry | create_tensor.py:90 | one assignment changes exactly the entry at its five indices |
| TensorToJson.Swapped | tensor_to_json.py:9-13 | the comprehension sees each item with key and value exchanged, in insertion order |
| TensorToJson.InvertLastWins | tensor_to_json.py:9-13 | an index has an inverse entry iff some key maps to it; when several do, the last key wins |
| TensorToJson.InvertInjective | tensor_to_json.py:9-13 | for an injective map the inverse sends every index back to its key |
| TensorToJson.PresentTimesExactly | tensor_to_json.py:27-31 | the inner loop keeps a time index iff its rate is present, once, in increasing order |
| TensorToJson.HasRecordIff | tensor_to_json.py:32 | a record is emitted iff some time index holds a rate |
| TensorToJson.TimePointsAt | tensor_to_json.py:30 | the k-th time point is the time of the k-th present index |
| TensorToJson.RatesAt | tensor_to_json.py:31 | the k-th rate is the rate at the k-th present index |
| TensorToJson.TensorToJson | tensor_to_json.py:15-43 | the output is the record of every emitted slot, in emission order |
| TensorToJson.ModalityLoop | tensor_to_json.py:19-43 | one feature's records are those of its modalities in turn |
| TensorToJson.CellLoop | tensor_to_json.py:21-43 | one modality's records are those of its cells in turn |
| TensorToJson.SampleLoop | tensor_to_json.py:23-43 | one cell's records are those of its samples that hold a rate |
| TensorToJson.Series | tensor_to_json.py:25-31 | the two lists are the times and rates of the present entries |
| TensorToJson.EmittedSpec | tensor_to_json.py:17-32 | the emitted slots are exactly the slots holding some rate, in strictly increasing lexicographic (feature, modality, cell, sample) order |
| TensorToJson.EmittedRecord | tensor_to_json.py:32-43 | each record names its slot through the inverse maps, and its time and rate lists have equal non-zero length and pair up with the present entries |
| TensorToJson.PresentEntryEmittedOnce | tensor_to_json.py:17-43 | every present entry appears, with its time and its value, in the record of its slot, which is emitted exactly once |
| BuildLineageTree.LoadExplicit | build_lineage_tree.py:13-19 | the explicit dict is built by the row loop, each parent once |
| BuildLineageTree.ExplicitLastWins | build_lineage_tree.py:14-19 | a parent has an explicit entry iff it is non-empty and some row names it; the last such row's children stay, a missing child read as `''` |
| BuildLineageTree.ExplicitPairsLastWins | build_lineage_tree.py:14-19 | the same, for the sequence of assignments the loop makes |
| BuildLineageTree.InferPair | build_lineage_tree.py:32-47 | the pair left after the three checks is the inferred pair, `d`/`v` over `l`/`r` over `a`/`p` |
| BuildLineageTree.InferredPairNamesKnownCells | build_lineage_tree.py:36-47 | a pair is inferred iff both names of some suffix pair are known cells; the daughters are known cells named by the mother plus one letter |
| BuildLineageTree.InferChildren | build_lineage_tree.py:29-49 | explicit entries stay unchanged and in front; exactly the cells without an entry that have an inferable pair are added, each with that pair |
| BuildLineageTree.EntryClaimsMap | build_lineage_tree.py:63-66 | one entry claims exactly its non-empty children for its parent |
| BuildLineageTree.ClaimsLastWins | build_lineage_tree.py:62-66 | a child has a parent iff some entry lists it; the last listing entry gives the parent |
| BuildLineageTree.ChildToParent | build_lineage_tree.py:62-66 | the loop builds the child-to-parent map of every claim |
| BuildLineageTree.ChildrenTable | build_lineage_tree.py:52-58 | the sort raises `KeyError` exactly when the tree is empty; otherwise the children table holds one row per entry, strictly sorted by parent |
| BuildLineageTree.TableHasEveryEntry | build_lineage_tree.py:52-56 | the rows built over the sorted parents are exactly the rows of the entries |
| BuildLineageTree.ParentTable | build_lineage_tree.py:68-71 | one row per known cell, in sorted order, with its parent or `''` |
| BuildLineageTree.ParentTableRows | build_lineage_tree.py:68-71 | the parent table has exactly one row per known cell, strictly sorted by child |
| BuildLineageTree.BuildLineageTree | build_lineage_tree.py:13-87 | the tree completes the explicit rows; the script stops with `KeyError` exactly when it is empty, and otherwise the two tables and the parentless cells are derived from it |
| BuildLineageTree.EmptyTreeIff | build_lineage_tree.py:13-58 | the tree is empty, so that the sort raises, exactly when no row has a non-empty parent and no known cell has both daughters of a pair |
| BuildLineageTree.EmptyParentIffParentless | build_lineage_tree.py:85 | a known cell is reported as parentless iff its parent-table entry is `''` |
| BuildLineageTree.TreeKeysNamed | build_lineage_tree.py:18 | when `''` is not a known cell, no entry has an empty parent |
| CreateJsonAlive.NameDictLastWins | create_json_alive.py:14-16 | an id is named iff some row after the first lists it; the last such row gives the name |
| CreateJsonAlive.ParentDictLastWins | create_json_alive.py:19-24 | a child has a parent iff some row names it; the last such row gives the parent, `"nan"` for an empty cell |
| CreateJsonAlive.LoadCellFateData | create_json_alive.py:27-38 | the loop builds the dict of every row's unquoted entry |
| CreateJsonAlive.FateLastWins | create_json_alive.py:30-37 | a cell has fate data iff some row's unquoted identity is that cell; the last such row's lineage and fate stay |
| CreateJsonAlive.UnquotedField | create_json_alive.py:31-33 | `strip("'")` removes exactly the surrounding single quotes of a field |
| CreateJsonAlive.NonEmpty | create_json_alive.py:57 | every kept time field is non-empty |
| CreateJsonAlive.NonEmptyKept | create_json_alive.py:57 | every non-empty field is kept, in order, at the position that counts the non-empty fields before it |
| CreateJsonAlive.NonEmptyFrom | create_json_alive.py:57 | every kept field is a non-empty field of the input, at that position, so nothing else is kept |
| CreateJsonAlive.NonEmptyAll | create_json_alive.py:57 | fields that are all non-empty are all kept |
| CreateJsonAlive.Window | create_json_alive.py:59 | the window has `last - first + 1` times, none when `last < first` |
| CreateJsonAlive.WindowMembers | create_json_alive.py:59 | a time is in the window iff it lies between the first and the last listed time, at position `time - first` |
| CreateJsonAlive.LoadLifecycles | create_json_alive.py:48-59 | the loop builds the lifecycle windows, or stops with `int()`'s error |
| CreateJsonAlive.LifecyclesFail | create_json_alive.py:57 | the loop stops iff some line has a time field `int()` rejects |
| CreateJsonAlive.LifecyclesError | create_json_alive.py:57 | a stop is always the `ValueError` of `int()` |
| CreateJsonAlive.LifecyclesParsed | create_json_alive.py:49-59 | once every line parses, the windows are the entries the lines give, the last line per cell winning |
| CreateJsonAlive.LifecycleKeys | create_json_alive.py:53-59 | a cell has a window iff some line with a non-empty id and at least one time names it (through the name dictionary) |
| CreateJsonAlive.LifecycleLastWins | create_json_alive.py:55-59 | a cell's window is the one the last line naming it gives |
| CreateJsonAlive.ParsedLine | create_json_alive.py:52-59 | a line of an id and times gives the translated name and the window from its first to its last listed time, not the least to the greatest |
| CreateJsonAlive.LifecycleWindows | create_json_alive.py:59 | every window is a run of consecutive times, so no time is listed twice |
| CreateJsonAlive.LineWindow | create_json_alive.py:59 | one line's window is a run of consecutive times |
| CreateJsonAlive.WindowDistinct | create_json_alive.py:59 | a run of consecutive times has no repeated time |
| CreateJsonAlive.ApplyConcat | create_json_alive.py:74-80 | applying two batches of contact writes is applying one after the other |
| CreateJsonAlive.BuildContacts | create_json_alive.py:73-80 | the loop builds the contact map the rows define |
| CreateJsonAlive.RecordRow | create_json_alive.py:76-80 | one row applies its writes for every time column |
| CreateJsonAlive.RowWritesStep | create_json_alive.py:77-80 | a time column writes the contact only when its value is present and positive |
| CreateJsonAlive.ApplyWellFormed | create_json_alive.py:73 | the `defaultdict` of contacts keeps each neighbour once per (cell, time) |
| CreateJsonAlive.WriteContact | create_json_alive.py:79-80 | one write sets the area in both directions and changes nothing else |
| CreateJsonAlive.ContactIsLastWrite | create_json_alive.py:73-80 | a recorded area is the area of the last write joining the two cells at that time |
| CreateJsonAlive.LastContactWritten | create_json_alive.py:79-80 | an area is recorded iff some write joins the two cells at that time, and it is one of those writes' areas |
| CreateJsonAlive.ContactWriteSource | create_json_alive.py:74-80 | every write comes from a row and a time column whose value is present and positive |
| CreateJsonAlive.RowWriteSource | create_json_alive.py:76-80 | every write of one row comes from one of its columns with a positive value |
| CreateJsonAlive.ContactWriteComplete | create_json_alive.py:74-80 | every present positive value gives a write |
| CreateJsonAlive.RowWriteComplete | create_json_alive.py:76-80 | every present positive value of a row gives a write of that row |
| CreateJsonAlive.ContactSymmetric | create_json_alive.py:79-80 | the area of `cell` with `other` equals the area of `other` with `cell` at every time |
| CreateJsonAlive.LastContactSymmetric | create_json_alive.py:79-80 | the last write joining two cells is the same in either direction |
| CreateJsonAlive.ContactPositive | create_json_alive.py:78 | every recorded area is positive |
| CreateJsonAlive.ContactPresent | create_json_alive.py:74-80 | an area is recorded iff some row pairs the two cells, in either order, with a present positive value at that time |
| CreateJsonAlive.LocateFound | create_json_alive.py:117-122 | the three lookups succeed iff the sample, the time and the cell all have an index, and then they index into the array |
| CreateJsonAlive.GeneExpression | create_json_alive.py:113-128 | builds the protein and promoter dicts of a cell at a time |
| CreateJsonAlive.ModalityLoop | create_json_alive.py:116-128 | the modality loop adds one feature's rates to the two dicts |
| CreateJsonAlive.AddModality | create_json_alive.py:117-128 | one modality adds its rate to the dict of its name when the lookups succeed and the rate is present |
| CreateJsonAlive.ModalityWritesStep | create_json_alive.py:123-128 | a modality writes a gene exactly when it is named after that dict and its rate is present |
| CreateJsonAlive.GeneExpressed | create_json_alive.py:115-128 | a gene is in the dict of a modality name iff some feature of that gene has a present rate under a modality of that name; a failed lookup leaves the dict empty |
| CreateJsonAlive.GeneRate | create_json_alive.py:123-128 | a gene's value in the dict is a present rate of that gene |
| CreateJsonAlive.GeneWriteSource | create_json_alive.py:115-128 | every gene written comes from a feature and a modality with a present rate |
| CreateJsonAlive.ModalityWriteSource | create_json_alive.py:116-128 | every gene one feature writes comes from one of its modalities with a present rate |
| CreateJsonAlive.GeneWriteComplete | create_json_alive.py:115-128 | every present rate of a gene under the named modality is written |
| CreateJsonAlive.ModalityWriteComplete | create_json_alive.py:116-128 | every present rate under the named modality of one feature is written |
| CreateJsonAlive.BuildOutput | create_json_alive.py:83-147 | the output holds the objects of every lifecycle cell |
| CreateJsonAlive.BuildEntry | create_json_alive.py:91-147 | the object of a cell at a time: `"alive"`, its age, parent, fate, genes, surface, volume, neighbours and contacts |
| CreateJsonAlive.CellTimes | create_json_alive.py:90-147 | a cell's objects are those of its window's times, keyed by `str(t)` |
| CreateJsonAlive.CellEntries | create_json_alive.py:90-91 | over a window's distinct times no object overwrites another, so the cell's entries are one per time, in window order, at age equal to position |
| CreateJsonAlive.OutputCells | create_json_alive.py:84-85 | over distinct lifecycle cells the output has one entry per cell, in lifecycle order |
| CreateJsonAlive.EntryNeighbours | create_json_alive.py:107-108 | `neighbours` is the key list of `contacting_area`, a neighbour is listed iff some contact row pairs the two cells at that time, and every area is positive |
| CreateJsonAlive.ProcessSample | create_json_alive.py:44-147 | a sample fails iff its lifecycle file has a bad time field, with `ValueError`; otherwise its output is built from the lifecycle windows, the contact map and the tables |
| CreateJsonAlive.SampleCell | create_json_alive.py:84-94 | the k-th output key is the k-th lifecycle cell, holding the objects of its window |
| PlotJson.GatherAllCellsAndGenes | plot_json.py:15-35 | the sorted cells of every existing file, and the sorted genes of each cell's first object |
| PlotJson.FirstGenesOf | plot_json.py:27-34 | the genes of the first object of each cell of one file |
| PlotJson.CellsOfIff | plot_json.py:19-25 | a cell is offered iff some existing file holds it |
| PlotJson.FirstGenesIff | plot_json.py:27-34 | a gene is gathered from a file iff the first object of some cell lists it |
| PlotJson.GenesOfIff | plot_json.py:19-34 | a gene is offered iff the first object of some cell of some existing file lists it |
| PlotJson.GetCellSpecificGenes | plot_json.py:37-54 | the sorted genes of every object of the cell over the existing files that hold it |
| PlotJson.AllGenesIff | plot_json.py:48-53 | a gene is listed for the cell iff some object of the cell lists it |
| PlotJson.FirstAmongAll | plot_json.py:27-34 | the genes of a cell's first object are among all the genes of that cell |
| PlotJson.Timeline | plot_json.py:74 | `sorted(..., key=int)` fails with `ValueError` iff some time key is not a number, and otherwise is a permutation in numeric order |
| PlotJson.SeriesOf | plot_json.py:82-87 | the loop builds the series the timeline defines |
| PlotJson.SeriesSticks | plot_json.py:84 | once a lookup raises, the later time points do not change the outcome |
| PlotJson.SeriesFails | plot_json.py:84 | extraction raises `KeyError` iff some object lacks the `proteins` or `promoters` key read |
| PlotJson.SeriesPoints | plot_json.py:82-87 | a point is in the series iff some time point has a non-null value there |
| PlotJson.SeriesFrom | plot_json.py:82-87 | every point of the series comes from a time point with that value |
| PlotJson.SeriesSorted | plot_json.py:74-87 | over the sorted timeline the series is in increasing time order |
| PlotJson.ContactSeriesExists | plot_json.py:194-196 | reading contact areas never raises |
| PlotJson.ContactLines | plot_json.py:181-199 | the neighbour set and each neighbour's series of the times it is recorded at |
| PlotJson.NeighbourSet | plot_json.py:181-186 | the neighbour set is the union of the contact keys of every time point |
| PlotJson.AddTimePoint | plot_json.py:192-199 | one time point extends each neighbour's series by its area there, if recorded |
| PlotJson.ContactStep | plot_json.py:192-199 | a neighbour's series over one more time point gains exactly that point's area, when recorded |
| PlotJson.LegendColumns | plot_json.py:210 | the legend has between 1 and 4 columns |
| PlotJson.LegendColumnsGrow | plot_json.py:210 | it has 4 columns iff there are at least 30 neighbours, and otherwise one column per started ten |
| PlotJson.LineOutcome | plot_json.py:88-90 | a single-line figure is either skipped for lack of data or saved |
| PlotJson.ContactOutcome | plot_json.py:186-188 | a contact figure is either skipped for lack of neighbours or saved |
| PlotJson.PlotSample | plot_json.py:65-220 | one sample's outcome: a missing file or cell is skipped, a bad time key or an unknown modality raises, otherwise its figure |
| PlotJson.PlotFigure | plot_json.py:80-220 | the figure of the modality chosen |
| PlotJson.PlotContacts | plot_json.py:180-217 | the contact figure of one sample |
| PlotJson.DrawLines | plot_json.py:201-203 | one line per neighbour in sorted order that has data |
| PlotJson.PlotAcrossSamples | plot_json.py:56-220 | every sample in turn, stopping at the first exception |
| PlotJson.UnknownModalityUnreached | plot_json.py:78 | the `Unknown modality` branch is never reached, since the folder lookup raises first; with an unknown modality a sample succeeds only when it is skipped |
| PlotJson.FigureKnown | plot_json.py:218-220 | a modality with a folder never takes the `Unknown modality` branch |
| PlotJson.SavedLine | plot_json.py:88-106 | a saved single-line figure has one unlabelled non-empty line, the series in time order, under the given file name |
| PlotJson.DrawnLines | plot_json.py:201-203 | every drawn line is labelled by a neighbour and is that neighbour's non-empty series |
| PlotJson.DrawnComplete | plot_json.py:201-203 | every neighbour with a non-empty series is drawn |
| PlotJson.LegendIffLines | plot_json.py:209-211 | a contact figure has a legend iff it has a line |
| PlotJson.ShortcutsAgree | plot_json.py:229-260 | each shortcut is offered once and names, through `modality_map`, the modality at its position in `modalities`, which has a folder |
| PlotTensor.SourceNumsOffered | plot_tensor.py:20 | a source number is offered iff some feature key has it, each once, in increasing order |
| PlotTensor.SourceToGenes | plot_tensor.py:23-27 | the keys are exactly the sources, and each source's list holds each of its genes exactly once |
| PlotTensor.ChosenFeatureFound | plot_tensor.py:41-52 | a gene chosen from its source's list names a feature the mappings hold |
| PlotTensor.ExtractSeries | plot_tensor.py:66-72 | the loop builds the times and rates of the present entries, in `time_to_idx` order |
| PlotTensor.PresentIff | plot_tensor.py:68-72 | a (time, rate) pair is extracted iff that time's index holds that rate |
| PlotTensor.PresentEmpty | plot_tensor.py:57-60 | the extracted series is empty iff no time index holds a rate |
| PlotTensor.SortedSeriesSpec | plot_tensor.py:74-76 | the reordered series has the same pairs and is in increasing time order |
| PlotTensor.MinOf | plot_tensor.py:84 | `min` is an element no greater than any other |
| PlotTensor.MaxOf | plot_tensor.py:85 | `max` is an element no less than any other |
| PlotTensor.ZipFirstsSeconds | plot_tensor.py:75-76 | the two sorted lists keep every rate paired with its time |
| PlotTensor.PlotQuery | plot_tensor.py:52-93 | one pass of the loop: a `KeyError`, the nonexistence warning, or the plot |
| PlotTensor.NonexistentIff | plot_tensor.py:57-60 | the warning is given iff no time index holds a rate for the combination |
| PlotTensor.PlottedSeries | plot_tensor.py:66-87 | a plot is saved under line 87's name, shows exactly the present (time, rate) pairs in increasing time order, and its range is the least and greatest rate |

## Left out

- Reading and writing files is not modelled: pandas CSV reading, `np.load`/`np.save`, pickle, `json.load`/`json.dump`, `os.path.exists`, `os.makedirs` and `os.listdir`. Their results are given as values.
- Plotting with matplotlib is not modelled. Only the data of each figure and the name of its file are.
- Printed messages and statistics are not modelled: the sample progress, the line counts of `build_lineage_tree.py` and the prompts' error messages.
- Floating point is not modelled: a rate is a `real` and NaN is `None`.
- The interactive `main` loops and the "create another plot?" questions are not modelled. `Prompt.GetValidInput` models one prompt over a given sequence of typed lines.
- `read_json.py` and `read_tensor_shape.py` are not part of this model. They only print.
- No round trip across scripts is modelled. `create_tensor.py` writes a layout and feature keys other than those `tensor_to_json.py` and `plot_tensor.py` read, so each script is modelled against its own layout.
- `explicit_parents` and `explicit_children` (build_lineage_tree.py:22-26) are not modelled: they are computed and never used.
- `valid_gene_nums` (plot_tensor.py:21) is not modelled: it is computed and never used.
- Python's iteration order over a `set` is not fixed by the language. `BuildLineageTree.InferChildren` walks the name set in an arbitrary order, and `PlotTensor.SourceToGenes` walks the feature set in an arbitrary order. Their contracts hold for every order.
- pandas details are reduced to what the code observes. An empty cell read back from `lineage_tree_parent.csv` is the string `"nan"`. The row and column lookups of the surface and volume frames are a partial map.
- `BuildLineageTree.LoadExplicit`: takes an empty parent cell of `lineage_tree_children_beginning.csv` as `""` and drops its row. pandas reads that cell as NaN, which is truthy, so the script keeps the row under a NaN key where the model drops it.
- `BuildLineageTree.ExplicitLastWins`: states the explicit entries for rows read as above, so it says nothing about a row whose parent cell pandas reads as NaN.
- `BuildLineageTree.EmptyParentIffParentless`: requires every tree key to be a name. The children of a NaN-keyed row would be claimed by that key, written with an empty parent and not reported as parentless.
- `CreateTensor.DigitRunSpec`: treats only the ASCII digits as `\d`. Python's `re` also matches other Unicode decimal digits, which `int()` converts.
- `CreateTensor.DigitRunOf`: the same ASCII-only reading of `\d`.
- `CreateTensor.MatchWorkspace`: matches workspace names whose numbers are ASCII digits only, so a name with other Unicode decimal digits does not match here.
- `CreateTensor.ParseOnlySpelled`: a name whose numbers use other Unicode decimal digits parses in Python but is `NotWorkspace` here.
- `Text.ParseInt`: does not accept the underscores or non-ASCII digits that Python's `int()` accepts.
- `PlotJson.Timeline`: states that the result is sorted and a permutation, but not that `sorted` is stable when two time keys convert to the same number.
- `CreateJsonAlive.ProcessSample`: requires every index of the mappings to fall inside the array. The script would raise `IndexError` otherwise, and that path is not modelled.
- `PlotTensor.PlotQuery`: requires every index of the mappings to fall inside the array. The script would raise `IndexError` otherwise, and that path is not modelled.
- `TensorToJson.TensorToJson`: requires the inverse maps to hold every key the loops look up: each feature index, each modality, cell and sample index when the loops around it run, and the time index of each entry that holds a rate. The script raises `KeyError` exactly when one is missing, and that path is not modelled.
