/** `create_json_alive.py`: for a wild-type sample, one JSON object per living
    cell, holding for each time point of the cell's life its age, parent,
    lineage, fate, gene expression, surface, volume and contacts.

    The files are parameters: the name dictionary, the parent table and the
    cell fate table as rows, the lifecycle file as its lines, surface and
    volume as grids, the contact statistics as rows, and the tensor with its
    index maps as built by `create_tensor.py`. Writing the JSON file is left
    out. */
module CreateJsonAlive {
  import opened Wrappers
  import opened Dicts
  import opened Text

  /** A feature key of the tensor `create_tensor.py` builds: the gene name. */
  type Feature = string

  /** The pickled `*_to_idx` dicts, in their insertion order. */
  datatype Mappings = Mappings(
    featureToIdx: Dict<Feature, nat>, modalityToIdx: Dict<string, nat>, cellToIdx: Dict<string, nat>,
    sampleToIdx: Dict<int, nat>, timeToIdx: Dict<int, nat>)

  /* ---------- name dictionary, lineage and fate tables ---------- */

  /** `load_name_dict`: the first row is skipped and column 0 maps to column 1. */
  function NameDict(rows: seq<(string, string)>): map<string, string> {
    if rows == [] then map[] else FromPairs(rows[1..])
  }

  /** `name_dict.get(cell_id, cell_id)`. */
  function CellName(names: map<string, string>, id: string): string {
    if id in names then names[id] else id
  }

  /** An id is named iff some row after the first lists it; the last such row
      gives the name. */
  lemma NameDictLastWins(rows: seq<(string, string)>, id: string)
    ensures id in NameDict(rows) <==> exists i :: 1 <= i < |rows| && rows[i].0 == id
    ensures id in NameDict(rows) ==>
      exists i :: 1 <= i < |rows| && rows[i].0 == id && NameDict(rows)[id] == rows[i].1
        && forall j :: i < j < |rows| ==> rows[j].0 != id
  {
    if rows != [] {
      var tail := rows[1..];
      FromPairsLastWins(tail, id);
      if i :| 1 <= i < |rows| && rows[i].0 == id {
        assert tail[i - 1].0 == id;
      }
      if id in NameDict(rows) {
        var i :| 0 <= i < |tail| && tail[i].0 == id && FromPairs(tail)[id] == tail[i].1
          && forall j :: i < j < |tail| ==> tail[j].0 != id;
        assert rows[i + 1] == tail[i];
        forall j | i + 1 < j < |rows|
          ensures rows[j].0 != id
        {
          assert rows[j] == tail[j - 1];
        }
      }
    }
  }

  /** A row of `lineage_tree_parent.csv` as pandas reads it: an empty parent
      cell is missing. */
  datatype ParentRow = ParentRow(child: string, parent: Option<string>)

  /** `load_lineage_trees`: `str` of a missing value is `"nan"`. */
  function ParentDict(rows: seq<ParentRow>): map<string, string> {
    FromPairs(seq(|rows|, i requires 0 <= i < |rows| => (rows[i].child, rows[i].parent.GetOr("nan"))))
  }

  /** A child has a parent entry iff some row names it; the last such row
      gives the parent, `"nan"` when its parent cell is empty. */
  lemma ParentDictLastWins(rows: seq<ParentRow>, child: string)
    ensures child in ParentDict(rows) <==> exists i :: 0 <= i < |rows| && rows[i].child == child
    ensures child in ParentDict(rows) ==>
      exists i :: 0 <= i < |rows| && rows[i].child == child && ParentDict(rows)[child] == rows[i].parent.GetOr("nan")
        && forall j :: i < j < |rows| ==> rows[j].child != child
  {
    var ps := seq(|rows|, i requires 0 <= i < |rows| => (rows[i].child, rows[i].parent.GetOr("nan")));
    assert ParentDict(rows) == FromPairs(ps);
    FromPairsLastWins(ps, child);
    assert forall i :: 0 <= i < |rows| ==> ps[i] == (rows[i].child, rows[i].parent.GetOr("nan"));
  }

  /** A row of `Cell Fate.csv`. */
  datatype FateRow = FateRow(identity: string, lineage: string, fate: string)

  /** The value `cell_fate_dict` holds for a cell. */
  datatype FateInfo = FateInfo(cellLineage: string, cellFate: string)

  /** What one row of the fate table writes: every field with its surrounding
      single quotes removed. */
  function FateEntry(row: FateRow): (string, FateInfo) {
    (StripQuotes(row.identity), FateInfo(StripQuotes(row.lineage), StripQuotes(row.fate)))
  }

  /** What one row writes into `cell_fate_dict`: always its entry. */
  function FateWrite(row: FateRow): Option<(string, FateInfo)> {
    Some(FateEntry(row))
  }

  /** `load_cell_fate_data`. */
  method LoadCellFateData(rows: seq<FateRow>) returns (fates: map<string, FateInfo>)
    ensures fates == FromPairs(Collect(rows, FateWrite))
  {
    fates := map[];
    for i := 0 to |rows|
      invariant fates == FromPairs(Collect(rows[..i], FateWrite))
    {
      var row := rows[i];
      var cellName := StripQuotes(row.identity);
      var cellLineage := StripQuotes(row.lineage);
      var cellFate := StripQuotes(row.fate);
      CollectSliceStep(rows, 0, i, FateWrite);
      assert rows[0..i] == rows[..i] && rows[0..i + 1] == rows[..i + 1];
      fates := fates[cellName := FateInfo(cellLineage, cellFate)];
    }
    assert rows[..|rows|] == rows;
  }

  /** A cell has fate data iff some row names it once unquoted; the last such
      row gives its lineage and fate, both unquoted. */
  lemma FateLastWins(rows: seq<FateRow>, cell: string)
    ensures var fates := FromPairs(Collect(rows, FateWrite));
      && (cell in fates <==> exists i :: 0 <= i < |rows| && FateEntry(rows[i]).0 == cell)
      && (cell in fates ==>
            exists i :: 0 <= i < |rows| && FateEntry(rows[i]).0 == cell && fates[cell] == FateEntry(rows[i]).1
              && forall j :: i < j < |rows| ==> FateEntry(rows[j]).0 != cell)
  {
    var fates := FromPairs(Collect(rows, FateWrite));
    CollectLastWins(rows, FateWrite, cell);
    forall j | 0 <= j < |rows|
      ensures Assigns(FateWrite, rows[j], cell) <==> FateEntry(rows[j]).0 == cell
    {
    }
    if cell in fates {
      var i :| 0 <= i < |rows| && Assigns(FateWrite, rows[i], cell)
        && fates[cell] == FateWrite(rows[i]).value.1
        && forall j :: i < j < |rows| ==> !Assigns(FateWrite, rows[j], cell);
      assert fates[cell] == FateEntry(rows[i]).1;
    }
  }

  /** A field written as `'text'` is read back as `text`, whatever number of
      quotes surrounds it. */
  lemma UnquotedField(pre: string, text: string, post: string)
    requires forall i :: 0 <= i < |pre| ==> pre[i] == '\''
    requires forall i :: 0 <= i < |post| ==> post[i] == '\''
    requires text != [] ==> text[0] != '\'' && text[|text| - 1] != '\''
    ensures StripQuotes(pre + text + post) == text
  {
    TrimPadded(pre, text, post, IsQuote);
  }

  /* ---------- lifecycle windows ---------- */

  /** `[x for x in fields if x]`. */
  function NonEmpty(fields: seq<string>): (r: seq<string>)
    ensures forall k :: 0 <= k < |r| ==> r[k] != ""
  {
    if fields == [] then []
    else
      var n := |fields| - 1;
      NonEmpty(fields[..n]) + (if fields[n] != "" then [fields[n]] else [])
  }

  /** Filtering distributes over concatenation. */
  lemma {:induction false} NonEmptyConcat(a: seq<string>, b: seq<string>)
    ensures NonEmpty(a + b) == NonEmpty(a) + NonEmpty(b)
  {
    if b == [] {
      assert a + b == a;
    } else {
      var n := |b| - 1;
      NonEmptyConcat(a, b[..n]);
      assert (a + b)[..|a + b| - 1] == a + b[..n];
      assert (a + b)[|a + b| - 1] == b[n];
      assert NonEmpty(a + b) == NonEmpty(a + b[..n]) + (if b[n] != "" then [b[n]] else []);
      assert NonEmpty(b) == NonEmpty(b[..n]) + (if b[n] != "" then [b[n]] else []);
    }
  }

  /** The filter keeps every non-empty field, in order: a non-empty field sits at
      the position that counts the non-empty fields before it. */
  lemma NonEmptyKept(fields: seq<string>, j: nat)
    requires j < |fields| && fields[j] != ""
    ensures |NonEmpty(fields[..j])| < |NonEmpty(fields)| && NonEmpty(fields)[|NonEmpty(fields[..j])|] == fields[j]
  {
    assert fields == (fields[..j] + [fields[j]]) + fields[j + 1..];
    NonEmptyConcat(fields[..j] + [fields[j]], fields[j + 1..]);
    NonEmptyConcat(fields[..j], [fields[j]]);
    assert [fields[j]][..0] == [];
    assert NonEmpty([fields[j]]) == [fields[j]];
  }

  /** The filter keeps nothing else: each kept field is a non-empty field, at the
      position that counts the non-empty fields before it. */
  lemma {:induction false} NonEmptyFrom(fields: seq<string>, k: nat)
    requires k < |NonEmpty(fields)|
    ensures exists j :: 0 <= j < |fields| && fields[j] != "" && |NonEmpty(fields[..j])| == k && NonEmpty(fields)[k] == fields[j]
  {
    var n := |fields| - 1;
    var init := fields[..n];
    assert NonEmpty(fields) == NonEmpty(init) + (if fields[n] != "" then [fields[n]] else []);
    if k < |NonEmpty(init)| {
      NonEmptyFrom(init, k);
      var j :| 0 <= j < |init| && init[j] != "" && |NonEmpty(init[..j])| == k && NonEmpty(init)[k] == init[j];
      assert init[..j] == fields[..j];
    } else {
      assert fields[..n] == init;
    }
  }

  /** `list(range(first, last + 1))`. */
  function Window(first: int, last: int): (w: seq<int>)
    ensures |w| == if first <= last then last - first + 1 else 0
  {
    seq(if first <= last then last - first + 1 else 0, k => first + k)
  }

  /** The window holds every integer from the first to the last listed time,
      each once, at the position of its distance from the first. */
  lemma WindowMembers(first: int, last: int, time: int)
    ensures time in Window(first, last) <==> first <= time <= last
    ensures forall k :: 0 <= k < |Window(first, last)| && Window(first, last)[k] == time ==> k == time - first
  {
    if first <= time <= last {
      assert Window(first, last)[time - first] == time;
    }
  }

  const ValueError := "invalid literal for int() with base 10"

  /** One line of a lifecycle file, as read with its line break: a skipped line
      gives `None`, a cell with times gives its name and window. */
  function ParseLine(names: map<string, string>, line: string): Result<Option<(string, seq<int>)>, string> {
    var parts := Split(line, ',');
    if parts[0] == "" then Success(None)
    else
      match AllSome(ParseInt, NonEmpty(parts[1..]))
      case None => Failure(ValueError)
      case Some(times) =>
        if times == [] then Success(None)
        else Success(Some((CellName(names, parts[0]), Window(times[0], times[|times| - 1]))))
  }

  function LineParser(names: map<string, string>): string -> Result<Option<(string, seq<int>)>, string> {
    line => ParseLine(names, line)
  }

  /** `cell_lifecycles` after reading `lines`: the script stops at the first
      line with a time field `int` rejects. */
  function Lifecycles(names: map<string, string>, lines: seq<string>): Result<Dict<string, seq<int>>, string> {
    PutParsed(LineParser(names), lines)
  }

  /** Step 1 of the per-sample loop. */
  method LoadLifecycles(names: map<string, string>, lines: seq<string>) returns (r: Result<Dict<string, seq<int>>, string>)
    ensures r == Lifecycles(names, lines)
  {
    var cellLifecycles: Dict<string, seq<int>> := [];
    for i := 0 to |lines|
      invariant PutParsed(LineParser(names), lines[..i]) == Success(cellLifecycles)
    {
      var entry := ParseLine(names, lines[i]);
      assert lines[..i + 1][..i] == lines[..i];
      if entry.Failure? {
        PutParsedFailureSticks(LineParser(names), lines, i + 1);
        return Failure(entry.error);
      }
      if entry.value.Some? {
        var (cellName, window) := entry.value.value;
        cellLifecycles := Put(cellLifecycles, cellName, window);
      }
    }
    assert lines[..|lines|] == lines;
    return Success(cellLifecycles);
  }

  /** The line gives `cell` a window. */
  predicate Names(names: map<string, string>, line: string, cell: string) {
    var e := ParseLine(names, line);
    e.Success? && e.value.Some? && e.value.value.0 == cell
  }

  /** The script stops iff some line has a time field `int` rejects. */
  lemma LifecyclesFail(names: map<string, string>, lines: seq<string>)
    ensures Lifecycles(names, lines).Failure? <==> exists k :: 0 <= k < |lines| && ParseLine(names, lines[k]).Failure?
  {
    PutParsedCollect(LineParser(names), lines);
  }

  /** Once every line parses, the windows are the pairs the lines give, in
      line order. */
  lemma LifecyclesParsed(names: map<string, string>, lines: seq<string>)
    requires Lifecycles(names, lines).Success?
    ensures Valid(Lifecycles(names, lines).value)
    ensures ToMap(Lifecycles(names, lines).value) == FromPairs(Collect(lines, Parsed(LineParser(names))))
    ensures forall line, cell :: Assigns(Parsed(LineParser(names)), line, cell) <==> Names(names, line, cell)
  {
    PutParsedCollect(LineParser(names), lines);
    PutAllMap(Collect(lines, Parsed(LineParser(names))));
  }

  /** Once every line parses, a cell has a window iff some line gives it one. */
  lemma LifecycleKeys(names: map<string, string>, lines: seq<string>, cell: string)
    requires Lifecycles(names, lines).Success?
    ensures Valid(Lifecycles(names, lines).value)
    ensures cell in ToMap(Lifecycles(names, lines).value) <==> exists i :: 0 <= i < |lines| && Names(names, lines[i], cell)
  {
    LifecyclesParsed(names, lines);
    CollectLastWins(lines, Parsed(LineParser(names)), cell);
  }

  /** The window a cell ends up with is the one the last line naming it gives. */
  lemma LifecycleLastWins(names: map<string, string>, lines: seq<string>, cell: string)
    requires Lifecycles(names, lines).Success?
    ensures Valid(Lifecycles(names, lines).value)
    ensures var windows := ToMap(Lifecycles(names, lines).value);
      cell in windows ==>
        exists i :: 0 <= i < |lines| && Names(names, lines[i], cell)
          && ParseLine(names, lines[i]).value.value.1 == windows[cell]
          && forall j :: i < j < |lines| ==> !Names(names, lines[j], cell)
  {
    var parse := Parsed(LineParser(names));
    PutParsedCollect(LineParser(names), lines);
    PutAllMap(Collect(lines, parse));
    CollectLastWins(lines, parse, cell);
    forall j | 0 <= j < |lines|
      ensures Assigns(parse, lines[j], cell) <==> Names(names, lines[j], cell)
    {
    }
    if cell in ToMap(Lifecycles(names, lines).value) {
      var i :| 0 <= i < |lines| && Assigns(parse, lines[i], cell)
        && FromPairs(Collect(lines, parse))[cell] == parse(lines[i]).value.1
        && forall j :: i < j < |lines| ==> !Assigns(parse, lines[j], cell);
      assert ParseLine(names, lines[i]).value.value.1 == parse(lines[i]).value.1;
    }
  }

  /** A line whose first field is a cell id and whose time fields parse gives
      the cell, translated through the name dictionary, the window from its
      first listed time to its last. */
  lemma ParsedLine(names: map<string, string>, id: string, fields: seq<string>, times: seq<int>)
    requires id != "" && ',' !in id
    requires forall k :: 0 <= k < |fields| ==> ',' !in fields[k]
    requires |times| == |fields| > 0
    requires forall k :: 0 <= k < |fields| ==> fields[k] != "" && ParseInt(fields[k]) == Some(times[k])
    ensures ParseLine(names, Join([id] + fields, ',')) ==
      Success(Some((CellName(names, id), Window(times[0], times[|times| - 1]))))
  {
    SplitJoin([id] + fields, ',');
    assert ([id] + fields)[1..] == fields;
    NonEmptyAll(fields);
    AllSomeIff(ParseInt, fields, times);
  }

  lemma {:induction false} NonEmptyAll(fields: seq<string>)
    requires forall k :: 0 <= k < |fields| ==> fields[k] != ""
    ensures NonEmpty(fields) == fields
  {
    if fields != [] {
      NonEmptyAll(fields[..|fields| - 1]);
      assert fields[..|fields| - 1] + [fields[|fields| - 1]] == fields;
    }
  }

  /* ---------- contact areas ---------- */

  /** A row of `WT_Sample<n>_Stat.csv`: the value under each time column, a
      missing one `None`. */
  datatype StatRow = StatRow(cell1: string, cell2: string, values: seq<Option<real>>)

  /** `row.get(t_str, None)` for the `k`-th time column. */
  function ValueAt(row: StatRow, k: nat): Option<real> {
    if k < |row.values| then row.values[k] else None
  }

  /** One recorded contact: both directions are written with the same area. */
  datatype ContactWrite = ContactWrite(cell1: string, cell2: string, time: string, area: real)

  /** `cell_time_to_neighbors`: for a (cell, time string), the neighbours in
      first-recorded order with their contact areas. */
  type Contacts = map<(string, string), Dict<string, real>>

  /** The writes one row makes over its first `k` time columns: only present,
      positive values. */
  function RowWrites(row: StatRow, times: seq<string>, k: nat): seq<ContactWrite>
    requires k <= |times|
  {
    if k == 0 then []
    else
      var v := ValueAt(row, k - 1);
      RowWrites(row, times, k - 1) +
        (if v.Some? && v.value > 0.0 then [ContactWrite(row.cell1, row.cell2, times[k - 1], v.value)] else [])
  }

  /** The writes of all rows, in file order. */
  function ContactWrites(rows: seq<StatRow>, times: seq<string>): seq<ContactWrite> {
    if rows == [] then []
    else ContactWrites(rows[..|rows| - 1], times) + RowWrites(rows[|rows| - 1], times, |times|)
  }

  /** Every neighbour list is a dict without repeated keys. */
  predicate WellFormed(m: Contacts) {
    forall key :: key in m ==> Valid(m[key])
  }

  /** `cell_time_to_neighbors[key]`, a fresh `{}` when missing. */
  function Neighbours(m: Contacts, key: (string, string)): Dict<string, real> {
    if key in m then m[key] else []
  }

  /** Lines 79-80. */
  function Write(m: Contacts, w: ContactWrite): Contacts {
    var m1 := m[(w.cell1, w.time) := Put(Neighbours(m, (w.cell1, w.time)), w.cell2, w.area)];
    m1[(w.cell2, w.time) := Put(Neighbours(m1, (w.cell2, w.time)), w.cell1, w.area)]
  }

  function Apply(m: Contacts, ws: seq<ContactWrite>): Contacts {
    Fold(Write, m, ws)
  }

  lemma ApplyConcat(m: Contacts, a: seq<ContactWrite>, b: seq<ContactWrite>)
    ensures Apply(m, a + b) == Apply(Apply(m, a), b)
  {
    FoldConcat(Write, m, a, b);
  }

  /** Lines 73-80: the contact map of a sample. */
  method BuildContacts(rows: seq<StatRow>, times: seq<string>) returns (contacts: Contacts)
    ensures contacts == ContactMap(rows, times)
  {
    contacts := map[];
    for i := 0 to |rows|
      invariant contacts == Apply(map[], ContactWrites(rows[..i], times))
    {
      assert rows[..i + 1][..i] == rows[..i];
      ApplyConcat(map[], ContactWrites(rows[..i], times), RowWrites(rows[i], times, |times|));
      contacts := RecordRow(contacts, rows[i], times);
    }
    assert rows[..|rows|] == rows;
  }

  /** The time loop for one row of the statistics. */
  method RecordRow(m: Contacts, row: StatRow, times: seq<string>) returns (contacts: Contacts)
    ensures contacts == Apply(m, RowWrites(row, times, |times|))
  {
    contacts := m;
    var c1, c2 := row.cell1, row.cell2;
    for k := 0 to |times|
      invariant contacts == Apply(m, RowWrites(row, times, k))
    {
      var val := ValueAt(row, k);
      RowWritesStep(m, row, times, k);
      if val.Some? && val.value > 0.0 {
        contacts := Write(contacts, ContactWrite(c1, c2, times[k], val.value));
      }
    }
  }

  /** One more time column writes its value when present and positive. */
  lemma RowWritesStep(m: Contacts, row: StatRow, times: seq<string>, k: nat)
    requires k < |times|
    ensures var v := ValueAt(row, k);
      Apply(m, RowWrites(row, times, k + 1)) ==
        if v.Some? && v.value > 0.0 then Write(Apply(m, RowWrites(row, times, k)), ContactWrite(row.cell1, row.cell2, times[k], v.value))
        else Apply(m, RowWrites(row, times, k))
  {
    var v := ValueAt(row, k);
    if v.Some? && v.value > 0.0 {
      var w := ContactWrite(row.cell1, row.cell2, times[k], v.value);
      assert RowWrites(row, times, k + 1) == RowWrites(row, times, k) + [w];
      FoldConcat(Write, m, RowWrites(row, times, k), [w]);
      assert Fold(Write, Apply(m, RowWrites(row, times, k)), [w]) == Write(Apply(m, RowWrites(row, times, k)), w);
    } else {
      assert RowWrites(row, times, k + 1) == RowWrites(row, times, k);
    }
  }

  /** No neighbour is listed twice for a cell and time. */
  lemma {:induction false} ApplyWellFormed(ws: seq<ContactWrite>)
    ensures WellFormed(Apply(map[], ws))
  {
    if ws != [] {
      var n := |ws| - 1;
      ApplyWellFormed(ws[..n]);
      assert Apply(map[], ws) == Write(Apply(map[], ws[..n]), ws[n]);
      WriteWellFormed(Apply(map[], ws[..n]), ws[n]);
    }
  }

  /** One write keeps each neighbour once per (cell, time). */
  lemma WriteWellFormed(m: Contacts, w: ContactWrite)
    requires WellFormed(m)
    ensures WellFormed(Write(m, w))
  {
    var d1 := Neighbours(m, (w.cell1, w.time));
    var m1 := m[(w.cell1, w.time) := Put(d1, w.cell2, w.area)];
    assert Valid(d1);
    assert WellFormed(m1);
    assert Valid(Neighbours(m1, (w.cell2, w.time)));
  }

  /** The area recorded between `cell` and `other` at `time`. */
  function Contact(m: Contacts, cell: string, other: string, time: string): Option<real> {
    Get(Neighbours(m, (cell, time)), other)
  }

  /** The write joins `cell` and `other` at `time`, in either direction. */
  predicate Joins(w: ContactWrite, cell: string, other: string, time: string) {
    w.time == time && ((w.cell1 == cell && w.cell2 == other) || (w.cell1 == other && w.cell2 == cell))
  }

  /** The area of the last write joining the two cells at `time`. */
  function LastContact(ws: seq<ContactWrite>, cell: string, other: string, time: string): Option<real> {
    if ws == [] then None
    else if Joins(ws[|ws| - 1], cell, other, time) then Some(ws[|ws| - 1].area)
    else LastContact(ws[..|ws| - 1], cell, other, time)
  }

  /** One write sets both directions of its pair and nothing else. */
  lemma WriteContact(m: Contacts, w: ContactWrite, cell: string, other: string, time: string)
    requires WellFormed(m)
    ensures Contact(Write(m, w), cell, other, time) ==
      if Joins(w, cell, other, time) then Some(w.area) else Contact(m, cell, other, time)
  {
    var d1 := Neighbours(m, (w.cell1, w.time));
    var m1 := m[(w.cell1, w.time) := Put(d1, w.cell2, w.area)];
    var d2 := Neighbours(m1, (w.cell2, w.time));
    var m2 := m1[(w.cell2, w.time) := Put(d2, w.cell1, w.area)];
    assert Write(m, w) == m2;
    assert Valid(d1);
    if (cell, time) == (w.cell2, w.time) {
      assert Valid(d2);
      GetPut(d2, w.cell1, w.area, other);
      if w.cell1 == w.cell2 {
        GetPut(d1, w.cell2, w.area, other);
      } else {
        assert d2 == Neighbours(m, (cell, time));
      }
    } else if (cell, time) == (w.cell1, w.time) {
      assert Neighbours(m2, (cell, time)) == Put(d1, w.cell2, w.area);
      GetPut(d1, w.cell2, w.area, other);
    } else {
      assert Neighbours(m2, (cell, time)) == Neighbours(m, (cell, time));
    }
  }

  /** The contact map holds, for each pair and time, the area of the last write
      joining them. */
  lemma {:induction false} ContactIsLastWrite(ws: seq<ContactWrite>, cell: string, other: string, time: string)
    ensures Contact(Apply(map[], ws), cell, other, time) == LastContact(ws, cell, other, time)
  {
    if ws != [] {
      var n := |ws| - 1;
      ContactIsLastWrite(ws[..n], cell, other, time);
      ApplyWellFormed(ws[..n]);
      WriteContact(Apply(map[], ws[..n]), ws[n], cell, other, time);
    }
  }

  /** A contact is present iff some write joins the pair at that time, and then
      its area is positive when every write's is. */
  lemma {:induction false} LastContactWritten(ws: seq<ContactWrite>, cell: string, other: string, time: string)
    ensures LastContact(ws, cell, other, time).Some? <==> exists j :: 0 <= j < |ws| && Joins(ws[j], cell, other, time)
    ensures LastContact(ws, cell, other, time).Some? ==>
      exists j :: 0 <= j < |ws| && Joins(ws[j], cell, other, time) && LastContact(ws, cell, other, time) == Some(ws[j].area)
  {
    if ws != [] {
      var n := |ws| - 1;
      LastContactWritten(ws[..n], cell, other, time);
      if j :| 0 <= j < n && Joins(ws[..n][j], cell, other, time) {
        assert ws[j] == ws[..n][j];
      }
      if j :| 0 <= j < n && Joins(ws[j], cell, other, time) {
        assert ws[..n][j] == ws[j];
      }
    }
  }

  /** A write of the statistics comes from a row and a time column whose value
      is present and positive. */
  lemma {:induction false} ContactWriteSource(rows: seq<StatRow>, times: seq<string>, w: ContactWrite)
    requires w in ContactWrites(rows, times)
    ensures w.area > 0.0
    ensures exists i, k :: (0 <= i < |rows| && 0 <= k < |times| && w.time == times[k]
      && w.cell1 == rows[i].cell1 && w.cell2 == rows[i].cell2 && ValueAt(rows[i], k) == Some(w.area))
  {
    var n := |rows| - 1;
    if w in ContactWrites(rows[..n], times) {
      ContactWriteSource(rows[..n], times, w);
      var i, k :| 0 <= i < n && 0 <= k < |times| && w.time == times[k]
        && w.cell1 == rows[..n][i].cell1 && w.cell2 == rows[..n][i].cell2 && ValueAt(rows[..n][i], k) == Some(w.area);
      assert rows[i] == rows[..n][i];
    } else {
      RowWriteSource(rows[n], times, |times|, w);
    }
  }

  lemma {:induction false} RowWriteSource(row: StatRow, times: seq<string>, k: nat, w: ContactWrite)
    requires k <= |times| && w in RowWrites(row, times, k)
    ensures w.area > 0.0
    ensures exists q :: 0 <= q < k && w == ContactWrite(row.cell1, row.cell2, times[q], w.area) && ValueAt(row, q) == Some(w.area)
  {
    if w in RowWrites(row, times, k - 1) {
      RowWriteSource(row, times, k - 1, w);
    }
  }

  /** Every present, positive value of the statistics is written. */
  lemma {:induction false} ContactWriteComplete(rows: seq<StatRow>, times: seq<string>, i: nat, k: nat)
    requires i < |rows| && k < |times|
    requires ValueAt(rows[i], k).Some? && ValueAt(rows[i], k).value > 0.0
    ensures ContactWrite(rows[i].cell1, rows[i].cell2, times[k], ValueAt(rows[i], k).value) in ContactWrites(rows, times)
  {
    var n := |rows| - 1;
    var w := ContactWrite(rows[i].cell1, rows[i].cell2, times[k], ValueAt(rows[i], k).value);
    assert ContactWrites(rows, times) == ContactWrites(rows[..n], times) + RowWrites(rows[n], times, |times|);
    if i < n {
      assert rows[..n][i] == rows[i];
      ContactWriteComplete(rows[..n], times, i, k);
      assert w in ContactWrites(rows[..n], times);
    } else {
      RowWriteComplete(rows[i], times, |times|, k);
      assert w in RowWrites(rows[n], times, |times|);
    }
  }

  lemma {:induction false} RowWriteComplete(row: StatRow, times: seq<string>, n: nat, k: nat)
    requires k < n <= |times|
    requires ValueAt(row, k).Some? && ValueAt(row, k).value > 0.0
    ensures ContactWrite(row.cell1, row.cell2, times[k], ValueAt(row, k).value) in RowWrites(row, times, n)
  {
    if k < n - 1 {
      RowWriteComplete(row, times, n - 1, k);
    }
  }

  /** The contact map of the statistics rows. */
  function ContactMap(rows: seq<StatRow>, times: seq<string>): Contacts {
    Apply(map[], ContactWrites(rows, times))
  }

  /** Row `i` pairs the two cells, in either order, with a present, positive
      value under column `k`. */
  predicate Pairs(rows: seq<StatRow>, times: seq<string>, i: int, k: int, cell: string, other: string, time: string) {
    && 0 <= i < |rows| && 0 <= k < |times| && times[k] == time
    && ValueAt(rows[i], k).Some? && ValueAt(rows[i], k).value > 0.0
    && ((rows[i].cell1 == cell && rows[i].cell2 == other) || (rows[i].cell1 == other && rows[i].cell2 == cell))
  }

  /** Contacts are recorded in both directions with the same area. */
  lemma ContactSymmetric(rows: seq<StatRow>, times: seq<string>, cell: string, other: string, time: string)
    ensures Contact(ContactMap(rows, times), cell, other, time) == Contact(ContactMap(rows, times), other, cell, time)
  {
    var ws := ContactWrites(rows, times);
    ContactIsLastWrite(ws, cell, other, time);
    ContactIsLastWrite(ws, other, cell, time);
    LastContactSymmetric(ws, cell, other, time);
  }

  lemma {:induction false} LastContactSymmetric(ws: seq<ContactWrite>, cell: string, other: string, time: string)
    ensures LastContact(ws, cell, other, time) == LastContact(ws, other, cell, time)
  {
    if ws != [] {
      LastContactSymmetric(ws[..|ws| - 1], cell, other, time);
    }
  }

  /** Only positive areas are recorded. */
  lemma ContactPositive(rows: seq<StatRow>, times: seq<string>, cell: string, other: string, time: string)
    ensures Contact(ContactMap(rows, times), cell, other, time).Some? ==> Contact(ContactMap(rows, times), cell, other, time).value > 0.0
  {
    var ws := ContactWrites(rows, times);
    ContactIsLastWrite(ws, cell, other, time);
    LastContactWritten(ws, cell, other, time);
    if LastContact(ws, cell, other, time).Some? {
      var j :| 0 <= j < |ws| && Joins(ws[j], cell, other, time) && LastContact(ws, cell, other, time) == Some(ws[j].area);
      ContactWriteSource(rows, times, ws[j]);
    }
  }

  /** Two cells are in contact at a time exactly when some row pairs them with
      a present, positive value under that time's column. */
  lemma ContactPresent(rows: seq<StatRow>, times: seq<string>, cell: string, other: string, time: string)
    ensures Contact(ContactMap(rows, times), cell, other, time).Some? <==>
      exists i, k :: Pairs(rows, times, i, k, cell, other, time)
  {
    var ws := ContactWrites(rows, times);
    ContactIsLastWrite(ws, cell, other, time);
    LastContactWritten(ws, cell, other, time);
    if j :| 0 <= j < |ws| && Joins(ws[j], cell, other, time) {
      ContactWriteSource(rows, times, ws[j]);
      var i, k :| (0 <= i < |rows| && 0 <= k < |times| && ws[j].time == times[k]
        && ws[j].cell1 == rows[i].cell1 && ws[j].cell2 == rows[i].cell2 && ValueAt(rows[i], k) == Some(ws[j].area));
      assert Pairs(rows, times, i, k, cell, other, time);
    }
    if i, k :| Pairs(rows, times, i, k, cell, other, time) {
      ContactWriteComplete(rows, times, i, k);
      var w := ContactWrite(rows[i].cell1, rows[i].cell2, times[k], ValueAt(rows[i], k).value);
      var j :| 0 <= j < |ws| && ws[j] == w;
      assert Joins(ws[j], cell, other, time);
    }
  }

  /* ---------- gene expression ---------- */

  /** The tensor fits its mappings: every index the mappings hand out lies
      within its axis of the layout (sample, time, cell, modality, feature). */
  predicate Fits(t: array5<Option<real>>, m: Mappings)
    reads t
  {
    && (forall i :: 0 <= i < |m.sampleToIdx| ==> m.sampleToIdx[i].1 < t.Length0)
    && (forall i :: 0 <= i < |m.timeToIdx| ==> m.timeToIdx[i].1 < t.Length1)
    && (forall i :: 0 <= i < |m.cellToIdx| ==> m.cellToIdx[i].1 < t.Length2)
    && (forall i :: 0 <= i < |m.modalityToIdx| ==> m.modalityToIdx[i].1 < t.Length3)
    && (forall i :: 0 <= i < |m.featureToIdx| ==> m.featureToIdx[i].1 < t.Length4)
  }

  /** The sample, time and cell indices of a lookup. */
  type Loc = (nat, nat, nat)

  /** The three index lookups of the gene loop; `None` where one of them
      raises `KeyError`. */
  function Locate(m: Mappings, sampleNum: int, time: int, cell: string): Option<Loc> {
    var s := Get(m.sampleToIdx, sampleNum);
    var ti := Get(m.timeToIdx, time);
    var c := Get(m.cellToIdx, cell);
    if s.Some? && ti.Some? && c.Some? then Some((s.value, ti.value, c.value)) else None
  }

  /** The lookups succeed iff the sample, the time and the cell all have an
      index; with a fitting tensor the indices lie within its axes. */
  lemma LocateFound(t: array5<Option<real>>, m: Mappings, sampleNum: int, time: int, cell: string)
    ensures Locate(m, sampleNum, time, cell).Some? <==>
      sampleNum in Keys(m.sampleToIdx) && time in Keys(m.timeToIdx) && cell in Keys(m.cellToIdx)
    ensures Fits(t, m) && Locate(m, sampleNum, time, cell).Some? ==>
      var loc := Locate(m, sampleNum, time, cell).value;
      loc.0 < t.Length0 && loc.1 < t.Length1 && loc.2 < t.Length2
  {
  }

  /** The rate stored at a slot; `None` is NaN, and so is a slot outside the
      tensor. */
  function Rate(t: array5<Option<real>>, loc: Loc, mi: nat, fi: nat): Option<real>
    reads t
  {
    if loc.0 < t.Length0 && loc.1 < t.Length1 && loc.2 < t.Length2 && mi < t.Length3 && fi < t.Length4
    then t[loc.0, loc.1, loc.2, mi, fi]
    else None
  }

  /** The rate feature `i` and modality `j` read at `loc`; `None` when a lookup
      failed or the rate is NaN. */
  function StepRate(t: array5<Option<real>>, m: Mappings, loc: Option<Loc>, i: nat, j: nat): Option<real>
    reads t
    requires i < |m.featureToIdx| && j < |m.modalityToIdx|
  {
    if loc.Some? then Rate(t, loc.value, m.modalityToIdx[j].1, m.featureToIdx[i].1) else None
  }

  /** What the modality loop writes into the dict of modality `name` for
      feature `i` over the first `j` modalities. */
  function ModalityWrites(t: array5<Option<real>>, m: Mappings, loc: Option<Loc>, i: nat, j: nat, name: string): seq<(Feature, real)>
    reads t
    requires i < |m.featureToIdx| && j <= |m.modalityToIdx|
  {
    if j == 0 then []
    else
      var modality := m.modalityToIdx[j - 1];
      var feature := m.featureToIdx[i];
      ModalityWrites(t, m, loc, i, j - 1, name) +
        (if loc.Some? && modality.0 == name && Rate(t, loc.value, modality.1, feature.1).Some?
         then [(feature.0, Rate(t, loc.value, modality.1, feature.1).value)] else [])
  }

  /** What the gene loop writes into the dict of modality `name` over the
      first `i` features. */
  function GeneWrites(t: array5<Option<real>>, m: Mappings, loc: Option<Loc>, i: nat, name: string): seq<(Feature, real)>
    reads t
    requires i <= |m.featureToIdx|
  {
    if i == 0 then []
    else GeneWrites(t, m, loc, i - 1, name) + ModalityWrites(t, m, loc, i - 1, |m.modalityToIdx|, name)
  }

  /** The dict the gene loop fills for modality `name`. */
  function Expressed(t: array5<Option<real>>, m: Mappings, sampleNum: int, time: int, cell: string, name: string): Dict<Feature, real>
    reads t
  {
    PutAll(GeneWrites(t, m, Locate(m, sampleNum, time, cell), |m.featureToIdx|, name))
  }

  /** Lines 113-128: the proteins and promoters of a cell at a time. */
  method GeneExpression(t: array5<Option<real>>, m: Mappings, sampleNum: int, time: int, cell: string)
    returns (proteins: Dict<Feature, real>, promoters: Dict<Feature, real>)
    ensures proteins == Expressed(t, m, sampleNum, time, cell, "Protein")
    ensures promoters == Expressed(t, m, sampleNum, time, cell, "Promoter")
  {
    ghost var loc := Locate(m, sampleNum, time, cell);
    proteins, promoters := [], [];
    for i := 0 to |m.featureToIdx|
      invariant proteins == Fold(PutPair, [], GeneWrites(t, m, loc, i, "Protein"))
      invariant promoters == Fold(PutPair, [], GeneWrites(t, m, loc, i, "Promoter"))
    {
      FoldConcat(PutPair, [], GeneWrites(t, m, loc, i, "Protein"), ModalityWrites(t, m, loc, i, |m.modalityToIdx|, "Protein"));
      FoldConcat(PutPair, [], GeneWrites(t, m, loc, i, "Promoter"), ModalityWrites(t, m, loc, i, |m.modalityToIdx|, "Promoter"));
      proteins, promoters := ModalityLoop(t, m, sampleNum, time, cell, i, proteins, promoters);
    }
    FoldPutAll(GeneWrites(t, m, loc, |m.featureToIdx|, "Protein"));
    FoldPutAll(GeneWrites(t, m, loc, |m.featureToIdx|, "Promoter"));
  }

  /** Lines 116-128: the modality loop for feature `i`. */
  method ModalityLoop(t: array5<Option<real>>, m: Mappings, sampleNum: int, time: int, cell: string, i: nat,
                      proteins0: Dict<Feature, real>, promoters0: Dict<Feature, real>)
    returns (proteins: Dict<Feature, real>, promoters: Dict<Feature, real>)
    requires i < |m.featureToIdx|
    ensures proteins == Fold(PutPair, proteins0, ModalityWrites(t, m, Locate(m, sampleNum, time, cell), i, |m.modalityToIdx|, "Protein"))
    ensures promoters == Fold(PutPair, promoters0, ModalityWrites(t, m, Locate(m, sampleNum, time, cell), i, |m.modalityToIdx|, "Promoter"))
  {
    var loc := Locate(m, sampleNum, time, cell);
    proteins, promoters := proteins0, promoters0;
    for j := 0 to |m.modalityToIdx|
      invariant proteins == Fold(PutPair, proteins0, ModalityWrites(t, m, loc, i, j, "Protein"))
      invariant promoters == Fold(PutPair, promoters0, ModalityWrites(t, m, loc, i, j, "Promoter"))
    {
      proteins, promoters := AddModality(t, m, loc, i, j, proteins0, promoters0, proteins, promoters);
    }
  }

  /** The body of the modality loop: modality `j` stores its rate under the
      gene in the dictionary its name selects, when the rate is there. */
  method AddModality(t: array5<Option<real>>, m: Mappings, loc: Option<Loc>, i: nat, j: nat,
                     proteins0: Dict<Feature, real>, promoters0: Dict<Feature, real>,
                     proteins: Dict<Feature, real>, promoters: Dict<Feature, real>)
    returns (proteins': Dict<Feature, real>, promoters': Dict<Feature, real>)
    requires i < |m.featureToIdx| && j < |m.modalityToIdx|
    requires proteins == Fold(PutPair, proteins0, ModalityWrites(t, m, loc, i, j, "Protein"))
    requires promoters == Fold(PutPair, promoters0, ModalityWrites(t, m, loc, i, j, "Promoter"))
    ensures proteins' == Fold(PutPair, proteins0, ModalityWrites(t, m, loc, i, j + 1, "Protein"))
    ensures promoters' == Fold(PutPair, promoters0, ModalityWrites(t, m, loc, i, j + 1, "Promoter"))
  {
    var gene := m.featureToIdx[i].0;
    var modality := m.modalityToIdx[j].0;
    var rate := StepRate(t, m, loc, i, j);
    ModalityWritesStep(t, m, loc, i, j, "Protein");
    ModalityWritesStep(t, m, loc, i, j, "Promoter");
    proteins', promoters' := proteins, promoters;
    if rate.Some? {
      if modality == "Protein" {
        FoldSnoc(PutPair, proteins0, ModalityWrites(t, m, loc, i, j, "Protein"), (gene, rate.value));
        proteins' := PutPair(proteins, (gene, rate.value));
      } else if modality == "Promoter" {
        FoldSnoc(PutPair, promoters0, ModalityWrites(t, m, loc, i, j, "Promoter"), (gene, rate.value));
        promoters' := PutPair(promoters, (gene, rate.value));
      }
    }
  }

  /** One more modality adds its rate to the writes of its name when the
      lookups succeed and the rate is not NaN, and nothing otherwise. */
  lemma ModalityWritesStep(t: array5<Option<real>>, m: Mappings, loc: Option<Loc>, i: nat, j: nat, name: string)
    requires i < |m.featureToIdx| && j < |m.modalityToIdx|
    ensures var rate := StepRate(t, m, loc, i, j);
      m.modalityToIdx[j].0 == name && rate.Some? ==>
        ModalityWrites(t, m, loc, i, j + 1, name) == ModalityWrites(t, m, loc, i, j, name) + [(m.featureToIdx[i].0, rate.value)]
    ensures var rate := StepRate(t, m, loc, i, j);
      !(m.modalityToIdx[j].0 == name && rate.Some?) ==>
        ModalityWrites(t, m, loc, i, j + 1, name) == ModalityWrites(t, m, loc, i, j, name)
  {
    var ws := ModalityWrites(t, m, loc, i, j, name);
    assert ws + [] == ws;
  }


  /** Feature `i` and modality `j` give `gene` a rate under `name`: the modality
      is named `name`, the lookups succeed and the rate is not NaN. */
  predicate Expresses(t: array5<Option<real>>, m: Mappings, loc: Option<Loc>, i: int, j: int, name: string, gene: Feature)
    reads t
  {
    && 0 <= i < |m.featureToIdx| && 0 <= j < |m.modalityToIdx|
    && m.featureToIdx[i].0 == gene && m.modalityToIdx[j].0 == name
    && loc.Some? && Rate(t, loc.value, m.modalityToIdx[j].1, m.featureToIdx[i].1).Some?
  }

  /** The gene dict of modality `name` holds a gene iff some feature of that
      gene has a rate under a modality of that name. */
  lemma GeneExpressed(t: array5<Option<real>>, m: Mappings, sampleNum: int, time: int, cell: string, name: string, gene: Feature)
    ensures gene in ToMap(Expressed(t, m, sampleNum, time, cell, name)) <==>
      exists i, j :: Expresses(t, m, Locate(m, sampleNum, time, cell), i, j, name, gene)
  {
    var loc := Locate(m, sampleNum, time, cell);
    var ws := GeneWrites(t, m, loc, |m.featureToIdx|, name);
    PutAllMap(ws);
    FromPairsLastWins(ws, gene);
    if k :| 0 <= k < |ws| && ws[k].0 == gene {
      GeneWriteSource(t, m, loc, |m.featureToIdx|, name, ws[k]);
    }
    if i, j :| Expresses(t, m, loc, i, j, name, gene) {
      GeneWriteComplete(t, m, loc, |m.featureToIdx|, name, i, j);
      var k :| 0 <= k < |ws| && ws[k] == (gene, Rate(t, loc.value, m.modalityToIdx[j].1, m.featureToIdx[i].1).value);
      assert ws[k].0 == gene;
    }
  }

  /** With feature keys and modality names distinct, the value the gene dict
      holds for a gene is the rate of its feature under the named modality. */
  lemma GeneRate(t: array5<Option<real>>, m: Mappings, sampleNum: int, time: int, cell: string, name: string,
                 gene: Feature, i: nat, j: nat)
    requires Valid(m.featureToIdx) && Valid(m.modalityToIdx)
    requires Expresses(t, m, Locate(m, sampleNum, time, cell), i, j, name, gene)
    ensures gene in ToMap(Expressed(t, m, sampleNum, time, cell, name))
    ensures ToMap(Expressed(t, m, sampleNum, time, cell, name))[gene] ==
      Rate(t, Locate(m, sampleNum, time, cell).value, m.modalityToIdx[j].1, m.featureToIdx[i].1).value
  {
    var loc := Locate(m, sampleNum, time, cell);
    var ws := GeneWrites(t, m, loc, |m.featureToIdx|, name);
    PutAllMap(ws);
    GeneExpressed(t, m, sampleNum, time, cell, name, gene);
    FromPairsLastWins(ws, gene);
    var k :| 0 <= k < |ws| && ws[k].0 == gene && FromPairs(ws)[gene] == ws[k].1;
    GeneWriteSource(t, m, loc, |m.featureToIdx|, name, ws[k]);
    var i', j' :| i' < |m.featureToIdx| && Expresses(t, m, loc, i', j', name, gene)
      && Rate(t, loc.value, m.modalityToIdx[j'].1, m.featureToIdx[i'].1) == Some(ws[k].1);
    assert i == i' && j == j';
  }

  /** Every pair written comes from a feature and a modality that express it. */
  lemma {:induction false} GeneWriteSource(t: array5<Option<real>>, m: Mappings, loc: Option<Loc>, n: nat, name: string, p: (Feature, real))
    requires n <= |m.featureToIdx| && p in GeneWrites(t, m, loc, n, name)
    ensures exists i, j :: (i < n && Expresses(t, m, loc, i, j, name, p.0)
      && Rate(t, loc.value, m.modalityToIdx[j].1, m.featureToIdx[i].1) == Some(p.1))
  {
    if p in GeneWrites(t, m, loc, n - 1, name) {
      GeneWriteSource(t, m, loc, n - 1, name, p);
    } else {
      ModalityWriteSource(t, m, loc, n - 1, |m.modalityToIdx|, name, p);
    }
  }

  lemma {:induction false} ModalityWriteSource(t: array5<Option<real>>, m: Mappings, loc: Option<Loc>, i: nat, n: nat, name: string, p: (Feature, real))
    requires i < |m.featureToIdx| && n <= |m.modalityToIdx| && p in ModalityWrites(t, m, loc, i, n, name)
    ensures exists j :: (j < n && Expresses(t, m, loc, i, j, name, p.0)
      && Rate(t, loc.value, m.modalityToIdx[j].1, m.featureToIdx[i].1) == Some(p.1))
  {
    if p in ModalityWrites(t, m, loc, i, n - 1, name) {
      ModalityWriteSource(t, m, loc, i, n - 1, name, p);
    }
  }

  /** Every expressing feature and modality writes its rate. */
  lemma {:induction false} GeneWriteComplete(t: array5<Option<real>>, m: Mappings, loc: Option<Loc>, n: nat, name: string, i: nat, j: nat)
    requires n <= |m.featureToIdx| && i < n && Expresses(t, m, loc, i, j, name, m.featureToIdx[i].0)
    ensures (m.featureToIdx[i].0, Rate(t, loc.value, m.modalityToIdx[j].1, m.featureToIdx[i].1).value) in GeneWrites(t, m, loc, n, name)
  {
    if i < n - 1 {
      GeneWriteComplete(t, m, loc, n - 1, name, i, j);
    } else {
      ModalityWriteComplete(t, m, loc, i, |m.modalityToIdx|, name, j);
    }
  }

  lemma {:induction false} ModalityWriteComplete(t: array5<Option<real>>, m: Mappings, loc: Option<Loc>, i: nat, n: nat, name: string, j: nat)
    requires i < |m.featureToIdx| && n <= |m.modalityToIdx| && j < n && Expresses(t, m, loc, i, j, name, m.featureToIdx[i].0)
    ensures (m.featureToIdx[i].0, Rate(t, loc.value, m.modalityToIdx[j].1, m.featureToIdx[i].1).value) in ModalityWrites(t, m, loc, i, n, name)
  {
    if j < n - 1 {
      ModalityWriteComplete(t, m, loc, i, n - 1, name, j);
    }
  }

  /* ---------- the output of a sample ---------- */

  /** `surface.csv` or `volume.csv`: a (time, cell) key is present iff the time
      is in the table's index and the cell among its columns; `None` is NaN. */
  type Frame = map<(int, string), Option<real>>

  /** Lines 99-104: the value at (time, cell), `None` when missing or NaN. */
  function Measure(f: Frame, time: int, cell: string): Option<real> {
    if (time, cell) in f then f[(time, cell)] else None
  }

  /** `d.get(k, None)`. */
  function Lookup<K, V>(d: map<K, V>, k: K): Option<V> {
    if k in d then Some(d[k]) else None
  }

  /** One `output[cell][str(t)]` object. */
  datatype TimeEntry = TimeEntry(
    lifecycle: string, age: nat, parent: Option<string>, cellLineage: Option<string>, cellFate: Option<string>,
    proteins: Dict<Feature, real>, promoters: Dict<Feature, real>, surfaceArea: Option<real>, volume: Option<real>,
    neighbours: seq<string>, contactingArea: Dict<string, real>)

  /** Everything one sample's output is computed from, besides the tensor. */
  datatype Sample = Sample(
    mappings: Mappings, sampleNum: int, parents: map<string, string>, fates: map<string, FateInfo>,
    surface: Frame, volume: Frame, contacts: Contacts)

  const Alive := "alive"

  /** Lines 91-147: the object of `cell` at `time`, the `age`-th time point of
      its lifecycle. */
  function EntryAt(t: array5<Option<real>>, s: Sample, cell: string, time: int, age: nat): TimeEntry
    reads t
  {
    var fate := Lookup(s.fates, cell);
    var area := Neighbours(s.contacts, (cell, IntToString(time)));
    TimeEntry(Alive, age, Lookup(s.parents, cell),
      if fate.Some? then Some(fate.value.cellLineage) else None,
      if fate.Some? then Some(fate.value.cellFate) else None,
      Expressed(t, s.mappings, s.sampleNum, time, cell, "Protein"),
      Expressed(t, s.mappings, s.sampleNum, time, cell, "Promoter"),
      Measure(s.surface, time, cell), Measure(s.volume, time, cell), Keys(area), area)
  }

  /** The writes into `output[cell]`, one per time point, keyed by `str(t)`. */
  function TimePairs(t: array5<Option<real>>, s: Sample, cell: string, times: seq<int>): seq<(string, TimeEntry)>
    reads t
  {
    seq(|times|, j requires 0 <= j < |times| reads t => (IntToString(times[j]), EntryAt(t, s, cell, times[j], j)))
  }

  /** The writes into `output`, one per lifecycle. */
  function CellPairs(t: array5<Option<real>>, s: Sample, lifecycles: Dict<string, seq<int>>): seq<(string, Dict<string, TimeEntry>)>
    reads t
  {
    seq(|lifecycles|, k requires 0 <= k < |lifecycles| reads t =>
      (lifecycles[k].0, PutAll(TimePairs(t, s, lifecycles[k].0, lifecycles[k].1))))
  }

  /** `output`: for each cell, its objects keyed by time. */
  type Output = Dict<string, Dict<string, TimeEntry>>

  /** Step 4 of the per-sample loop. */
  method BuildOutput(t: array5<Option<real>>, s: Sample, lifecycles: Dict<string, seq<int>>) returns (output: Output)
    ensures output == PutAll(CellPairs(t, s, lifecycles))
  {
    ghost var ps := CellPairs(t, s, lifecycles);
    output := [];
    for k := 0 to |lifecycles|
      invariant output == PutAll(ps[..k])
    {
      var (cell, times) := lifecycles[k];
      var entries := CellTimes(t, s, cell, times);
      TakeSnoc(ps, k);
      PutAllSnoc(ps[..k], (cell, entries));
      output := Put(output, cell, entries);
    }
    assert ps[..|lifecycles|] == ps;
  }

  /** Lines 91-147: the object of `cell` at `time`, built field by field. */
  method BuildEntry(t: array5<Option<real>>, s: Sample, cell: string, time: int, age: nat) returns (entry: TimeEntry)
    ensures entry == EntryAt(t, s, cell, time, age)
  {
    var tStr := IntToString(time);
    var surface := Measure(s.surface, time, cell);
    var volume := Measure(s.volume, time, cell);
    var area := Neighbours(s.contacts, (cell, tStr));
    var neighbours := Keys(area);
    var proteins, promoters := GeneExpression(t, s.mappings, s.sampleNum, time, cell);
    var fate := Lookup(s.fates, cell);
    var lineage := if fate.Some? then Some(fate.value.cellLineage) else None;
    var cellFate := if fate.Some? then Some(fate.value.cellFate) else None;
    entry := TimeEntry(Alive, age, Lookup(s.parents, cell), lineage, cellFate, proteins, promoters,
      surface, volume, neighbours, area);
  }

  /** Lines 85-147 for one cell. */
  method CellTimes(t: array5<Option<real>>, s: Sample, cell: string, times: seq<int>) returns (entries: Dict<string, TimeEntry>)
    ensures entries == PutAll(TimePairs(t, s, cell, times))
  {
    ghost var ps := TimePairs(t, s, cell, times);
    entries := [];
    for i := 0 to |times|
      invariant entries == PutAll(ps[..i])
    {
      var tStr := IntToString(times[i]);
      var entry := BuildEntry(t, s, cell, times[i], i);
      assert ps[i] == (tStr, entry);
      TakeSnoc(ps, i);
      PutAllSnoc(ps[..i], (tStr, entry));
      entries := Put(entries, tStr, entry);
    }
    assert ps[..|times|] == ps;
  }

  /** Distinct time points get one object each, in lifecycle order, keyed by
      `str(t)`. */
  lemma CellEntries(t: array5<Option<real>>, s: Sample, cell: string, times: seq<int>)
    requires forall i, j :: 0 <= i < j < |times| ==> times[i] != times[j]
    ensures PutAll(TimePairs(t, s, cell, times)) == TimePairs(t, s, cell, times)
  {
    var ps := TimePairs(t, s, cell, times);
    forall i, j | 0 <= i < j < |ps|
      ensures ps[i].0 != ps[j].0
    {
      if ps[i].0 == ps[j].0 {
        IntToStringInjective(times[i], times[j]);
      }
    }
    PutAllDistinct(ps);
  }

  /** Every cell with a lifecycle gets one entry of `output`, in lifecycle
      order. */
  lemma OutputCells(t: array5<Option<real>>, s: Sample, lifecycles: Dict<string, seq<int>>)
    requires Valid(lifecycles)
    ensures PutAll(CellPairs(t, s, lifecycles)) == CellPairs(t, s, lifecycles)
  {
    var ps := CellPairs(t, s, lifecycles);
    assert Valid(ps) by {
      forall i, j | 0 <= i < j < |ps|
        ensures ps[i].0 != ps[j].0
      {
        assert ps[i].0 == lifecycles[i].0 && ps[j].0 == lifecycles[j].0;
      }
    }
    PutAllDistinct(ps);
  }

  /** A cell's neighbours at a time are exactly the cells some statistics row
      pairs it with under that time's column, and each contact area is
      positive. */
  lemma EntryNeighbours(t: array5<Option<real>>, s: Sample, rows: seq<StatRow>, times: seq<string>,
                        cell: string, time: int, age: nat, other: string)
    requires s.contacts == ContactMap(rows, times)
    ensures var entry := EntryAt(t, s, cell, time, age);
      && entry.neighbours == Keys(entry.contactingArea)
      && (other in entry.neighbours <==> exists i, k :: Pairs(rows, times, i, k, cell, other, IntToString(time)))
      && (Get(entry.contactingArea, other).Some? ==> Get(entry.contactingArea, other).value > 0.0)
  {
    ContactPresent(rows, times, cell, other, IntToString(time));
    ContactPositive(rows, times, cell, other, IntToString(time));
  }

  /** Every window the lifecycle file gives is the run of consecutive times
      from a first to a last, so no two of its times coincide. */
  lemma LifecycleWindows(names: map<string, string>, lines: seq<string>, k: nat)
    requires Lifecycles(names, lines).Success? && k < |Lifecycles(names, lines).value|
    ensures IsWindow(Lifecycles(names, lines).value[k].1)
    ensures var times := Lifecycles(names, lines).value[k].1;
      forall i, j :: 0 <= i < j < |times| ==> times[i] != times[j]
  {
    var parse := LineParser(names);
    PutParsedCollect(parse, lines);
    var ps := Collect(lines, Parsed(parse));
    PutAllFrom(ps, k);
    CollectFrom(lines, Parsed(parse), PutAll(ps)[k]);
    var q :| 0 <= q < |lines| && Parsed(parse)(lines[q]) == Some(PutAll(ps)[k]);
    LineWindow(names, lines[q]);
    WindowDistinct(PutAll(ps)[k].1);
  }

  /** Consecutive integers: each time is one more than the one before, as
      `range` gives them (an empty run when the last listed time precedes the
      first). */
  predicate IsWindow(times: seq<int>) {
    forall i :: 0 <= i < |times| ==> times[i] == times[0] + i
  }

  lemma LineWindow(names: map<string, string>, line: string)
    requires ParseLine(names, line).Success? && ParseLine(names, line).value.Some?
    ensures IsWindow(ParseLine(names, line).value.value.1)
  {
    var parts := Split(line, ',');
    var times := AllSome(ParseInt, NonEmpty(parts[1..])).value;
    var w := Window(times[0], times[|times| - 1]);
    assert ParseLine(names, line).value.value.1 == w;
  }

  lemma WindowDistinct(times: seq<int>)
    requires IsWindow(times)
    ensures forall i, j :: 0 <= i < j < |times| ==> times[i] != times[j]
  {
  }

  /* ---------- one sample ---------- */

  /** Steps 1-4 of the per-sample loop (lines 45-147): the lifecycles, the
      contact map and the output of one sample. A time field `int` rejects
      stops the script with its error. */
  method ProcessSample(t: array5<Option<real>>, m: Mappings, sampleNum: int, names: map<string, string>, lines: seq<string>,
                       surface: Frame, volume: Frame, stats: seq<StatRow>, statTimes: seq<string>,
                       parents: map<string, string>, fates: map<string, FateInfo>)
    returns (r: Result<Output, string>)
    requires Fits(t, m)
    ensures r.Failure? <==> Lifecycles(names, lines).Failure?
    ensures r.Failure? ==> r.error == ValueError
    ensures r.Success? ==>
      r.value == PutAll(CellPairs(t, Sample(m, sampleNum, parents, fates, surface, volume, ContactMap(stats, statTimes)),
                                  Lifecycles(names, lines).value))
  {
    var lifecycles := LoadLifecycles(names, lines);
    if lifecycles.Failure? {
      LifecyclesError(names, lines);
      return Failure(lifecycles.error);
    }
    var contacts := BuildContacts(stats, statTimes);
    var s := Sample(m, sampleNum, parents, fates, surface, volume, contacts);
    var output := BuildOutput(t, s, lifecycles.value);
    return Success(output);
  }

  /** The only error reading the lifecycles raises is `int`'s. */
  lemma {:induction false} LifecyclesError(names: map<string, string>, lines: seq<string>)
    requires Lifecycles(names, lines).Failure?
    ensures Lifecycles(names, lines).error == ValueError
  {
    if lines != [] {
      var init := lines[..|lines| - 1];
      if Lifecycles(names, init).Failure? {
        LifecyclesError(names, init);
      }
    }
  }

  /** The `k`-th cell of a sample's output is the `k`-th cell of its lifecycle
      file, its times are consecutive, and it holds one object per time point
      in order. */
  lemma SampleCell(t: array5<Option<real>>, s: Sample, names: map<string, string>, lines: seq<string>, k: nat)
    requires Lifecycles(names, lines).Success? && k < |Lifecycles(names, lines).value|
    ensures var lifecycles := Lifecycles(names, lines).value;
      var (cell, times) := lifecycles[k];
      && k < |PutAll(CellPairs(t, s, lifecycles))|
      && PutAll(CellPairs(t, s, lifecycles))[k] == (cell, TimePairs(t, s, cell, times))
      && IsWindow(times)
  {
    var lifecycles := Lifecycles(names, lines).value;
    LifecyclesParsed(names, lines);
    OutputCells(t, s, lifecycles);
    LifecycleWindows(names, lines, k);
    CellEntries(t, s, lifecycles[k].0, lifecycles[k].1);
  }
}
