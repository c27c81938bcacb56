/** `build_lineage_tree.py`: completes the lineage tree of the embryo's cells and
    writes it both as a children table (parent, child1, child2) and as a parent
    table (child, parent).

    The explicit rows of `lineage_tree_children_beginning.csv` are kept. Every
    other cell of the name dictionary whose two daughters are named (by the
    suffixes `a`/`p`, `l`/`r` or `d`/`v`) gets those daughters. The result is
    inverted into a child-to-parent map. Reading and writing the CSV files is
    left out: the name set and the rows are parameters. */
module BuildLineageTree {
  import opened Wrappers
  import opened Dicts
  import opened Ordering
  import opened Text

  /** A row of `lineage_tree_children_beginning.csv`; an empty child cell is `None`. */
  datatype BeginningRow = BeginningRow(parent: string, child1: Option<string>, child2: Option<string>)

  /** The two children of a parent; `""` stands for a missing child. */
  type Children = (string, string)

  /** `parent_to_children`, in insertion order. */
  type Tree = Dict<string, Children>

  /** What one explicit row writes into `parent_to_children`: nothing when its
      parent is empty. */
  function RowEntry(row: BeginningRow): Option<(string, Children)> {
    if row.parent == "" then None else Some((row.parent, RowChildren(row)))
  }

  /** A row's children, a missing one read as `""`. */
  function RowChildren(row: BeginningRow): Children {
    (row.child1.GetOr(""), row.child2.GetOr(""))
  }

  /** Row `i` is the last one whose parent is `p`. */
  predicate LastRowFor(rows: seq<BeginningRow>, p: string, i: int) {
    0 <= i < |rows| && rows[i].parent == p && forall j :: i < j < |rows| ==> rows[j].parent != p
  }

  /** The explicit rows, read in order; a later row for a parent replaces an
      earlier one but keeps its place. */
  method LoadExplicit(rows: seq<BeginningRow>) returns (tree: Tree)
    ensures Valid(tree) && tree == PutAll(Collect(rows, RowEntry))
  {
    tree := [];
    for i := 0 to |rows|
      invariant Valid(tree) && tree == PutAll(Collect(rows[..i], RowEntry))
    {
      var row := rows[i];
      var c1 := if row.child1.Some? then row.child1.value else "";
      var c2 := if row.child2.Some? then row.child2.value else "";
      ghost var ps := Collect(rows[..i], RowEntry);
      assert rows[..i + 1] == rows[..i] + [row];
      CollectAppend(rows[..i], row, RowEntry);
      if row.parent != "" {
        PutAllSnoc(ps, (row.parent, (c1, c2)));
        tree := Put(tree, row.parent, (c1, c2));
      }
    }
    assert rows[..|rows|] == rows;
  }

  /** A parent has an explicit entry iff some row with that non-empty parent
      exists; the entry holds the children of the last such row, a missing
      child read as `""`. */
  lemma ExplicitLastWins(rows: seq<BeginningRow>, p: string)
    ensures var m := ToMap(PutAll(Collect(rows, RowEntry)));
      && (p in m <==> p != "" && exists i :: 0 <= i < |rows| && rows[i].parent == p)
      && (p in m ==> exists i :: LastRowFor(rows, p, i) && m[p] == RowChildren(rows[i]))
  {
    PutAllMap(Collect(rows, RowEntry));
    ExplicitPairsLastWins(rows, p);
  }

  lemma ExplicitPairsLastWins(rows: seq<BeginningRow>, p: string)
    ensures var m := FromPairs(Collect(rows, RowEntry));
      && (p in m <==> p != "" && exists i :: 0 <= i < |rows| && rows[i].parent == p)
      && (p in m ==> exists i :: LastRowFor(rows, p, i) && m[p] == RowChildren(rows[i]))
  {
    CollectLastWins(rows, RowEntry, p);
    forall i | 0 <= i < |rows|
      ensures Assigns(RowEntry, rows[i], p) <==> p != "" && rows[i].parent == p
    {
    }
  }

  /** The daughters the suffix rules give `cell`: `d`/`v` before `l`/`r` before
      `a`/`p`, each pair only when both names are known cells. */
  function InferredPair(cell: string, cells: set<string>): Option<Children> {
    if cell + "d" in cells && cell + "v" in cells then Some((cell + "d", cell + "v"))
    else if cell + "l" in cells && cell + "r" in cells then Some((cell + "l", cell + "r"))
    else if cell + "a" in cells && cell + "p" in cells then Some((cell + "a", cell + "p"))
    else None
  }

  /** Lines 32-47: each complete pair overwrites the one found before it. */
  method InferPair(cell: string, cells: set<string>) returns (pair: seq<string>)
    ensures pair == if InferredPair(cell, cells).Some? then
                      [InferredPair(cell, cells).value.0, InferredPair(cell, cells).value.1]
                    else []
  {
    pair := [];
    var childA, childP := cell + "a", cell + "p";
    if childA in cells && childP in cells {
      pair := [childA, childP];
    }
    var childL, childR := cell + "l", cell + "r";
    if childL in cells && childR in cells {
      pair := [childL, childR];
    }
    var childD, childV := cell + "d", cell + "v";
    if childD in cells && childV in cells {
      pair := [childD, childV];
    }
  }

  /** An inferred pair names two known cells, formed from the parent's name. */
  lemma InferredPairNamesKnownCells(cell: string, cells: set<string>)
    ensures InferredPair(cell, cells).Some? <==>
      exists sfx :: sfx in [("a", "p"), ("l", "r"), ("d", "v")] && cell + sfx.0 in cells && cell + sfx.1 in cells
    ensures InferredPair(cell, cells).Some? ==>
      var pair := InferredPair(cell, cells).value;
      pair.0 in cells && pair.1 in cells && |pair.0| == |pair.1| == |cell| + 1
        && pair.0[..|cell|] == cell && pair.1[..|cell|] == cell
  {
    if cell + "a" in cells && cell + "p" in cells {
      assert ("a", "p") in [("a", "p"), ("l", "r"), ("d", "v")];
    }
    if cell + "l" in cells && cell + "r" in cells {
      assert ("l", "r") in [("a", "p"), ("l", "r"), ("d", "v")];
    }
    if cell + "d" in cells && cell + "v" in cells {
      assert ("d", "v") in [("a", "p"), ("l", "r"), ("d", "v")];
    }
  }

  /** `cell` gets inferred daughters: it is a known cell without an explicit
      entry, and some pair is complete. */
  predicate Inferable(cells: set<string>, explicit: Tree, cell: string) {
    cell in cells && cell !in Keys(explicit) && InferredPair(cell, cells).Some?
  }

  /** `tree` is `explicit` followed by exactly the inferable cells, each with
      its inferred daughters. */
  ghost predicate Completes(cells: set<string>, explicit: Tree, tree: Tree) {
    && Valid(tree) && |explicit| <= |tree| && tree[..|explicit|] == explicit
    && (forall i :: |explicit| <= i < |tree| ==>
          Inferable(cells, explicit, tree[i].0) && InferredPair(tree[i].0, cells) == Some(tree[i].1))
    && (forall cell :: Inferable(cells, explicit, cell) ==> cell in Keys(tree))
  }

  /** Lines 29-49, walking the name set in an arbitrary order: the explicit
      entries stay as they are, in front, and every inferable cell is appended
      with its inferred daughters. */
  method InferChildren(cells: set<string>, explicit: Tree) returns (tree: Tree)
    requires Valid(explicit)
    ensures Completes(cells, explicit, tree)
  {
    tree := explicit;
    var rest := cells;
    while rest != {}
      invariant rest <= cells
      invariant Valid(tree) && |explicit| <= |tree| && tree[..|explicit|] == explicit
      invariant forall i :: |explicit| <= i < |tree| ==>
        tree[i].0 !in rest && Inferable(cells, explicit, tree[i].0) && InferredPair(tree[i].0, cells) == Some(tree[i].1)
      invariant forall cell :: cell !in rest && Inferable(cells, explicit, cell) ==> cell in Keys(tree)
      decreases rest
    {
      var cell :| cell in rest;
      if cell !in Keys(tree) {
        var pair := InferPair(cell, cells);
        if pair != [] {
          forall i | 0 <= i < |explicit|
            ensures explicit[i].0 != cell
          {
            assert tree[i] == explicit[i];
          }
          var old_tree := tree;
          tree := Put(tree, cell, (pair[0], pair[1]));
          assert tree == old_tree + [(cell, (pair[0], pair[1]))];
          assert tree[..|explicit|] == old_tree[..|explicit|];
        }
      }
      rest := rest - {cell};
    }
  }

  /** The (child, parent) pairs one entry contributes, in list order. */
  function EntryClaims(entry: (string, Children)): seq<(string, string)> {
    (if entry.1.0 != "" then [(entry.1.0, entry.0)] else []) +
    (if entry.1.1 != "" then [(entry.1.1, entry.0)] else [])
  }

  /** The (child, parent) pairs of all entries, in iteration order. */
  function Claims(tree: Tree): seq<(string, string)> {
    if tree == [] then [] else Claims(tree[..|tree| - 1]) + EntryClaims(tree[|tree| - 1])
  }

  /** The entry lists `child` as one of its non-empty children. */
  predicate Lists(entry: (string, Children), child: string) {
    child != "" && (entry.1.0 == child || entry.1.1 == child)
  }

  lemma EntryClaimsMap(entry: (string, Children), child: string)
    ensures child in FromPairs(EntryClaims(entry)) <==> Lists(entry, child)
    ensures child in FromPairs(EntryClaims(entry)) ==> FromPairs(EntryClaims(entry))[child] == entry.0
  {
    var a := if entry.1.0 != "" then [(entry.1.0, entry.0)] else [];
    var b := if entry.1.1 != "" then [(entry.1.1, entry.0)] else [];
    FromPairsConcat(a, b);
  }

  /** Lines 62-66: `child_to_parent` holds each listed child, sent to the parent
      of the last entry that lists it. */
  lemma {:induction false} ClaimsLastWins(tree: Tree, child: string)
    ensures var m := FromPairs(Claims(tree));
      && (child in m <==> exists i :: 0 <= i < |tree| && Lists(tree[i], child))
      && (child in m ==>
            exists i :: 0 <= i < |tree| && Lists(tree[i], child) && m[child] == tree[i].0
              && forall j :: i < j < |tree| ==> !Lists(tree[j], child))
  {
    if tree != [] {
      var n := |tree| - 1;
      var init := tree[..n];
      ClaimsLastWins(init, child);
      FromPairsConcat(Claims(init), EntryClaims(tree[n]));
      EntryClaimsMap(tree[n], child);
      var m0, m := FromPairs(Claims(init)), FromPairs(Claims(tree));
      if !Lists(tree[n], child) {
        if child in m0 {
          var i :| 0 <= i < |init| && Lists(init[i], child) && m0[child] == init[i].0
            && forall j :: i < j < |init| ==> !Lists(init[j], child);
          assert tree[i] == init[i];
          forall j | i < j < |tree| ensures !Lists(tree[j], child) {
            if j < n {
              assert tree[j] == init[j];
            }
          }
        }
        if i :| 0 <= i < |tree| && Lists(tree[i], child) {
          assert i < n && init[i] == tree[i];
        }
      }
    }
  }

  /** Lines 62-66. */
  method ChildToParent(tree: Tree) returns (childToParent: map<string, string>)
    ensures childToParent == FromPairs(Claims(tree))
  {
    childToParent := map[];
    for i := 0 to |tree|
      invariant childToParent == FromPairs(Claims(tree[..i]))
    {
      var parent, children := tree[i].0, tree[i].1;
      ghost var claims := Claims(tree[..i]);
      assert Claims(tree[..i + 1]) == claims + EntryClaims(tree[i]) by {
        assert tree[..i + 1][..i] == tree[..i];
      }
      if children.0 != "" {
        FromPairsSnoc(claims, (children.0, parent));
        childToParent := childToParent[children.0 := parent];
        claims := claims + [(children.0, parent)];
      }
      if children.1 != "" {
        FromPairsSnoc(claims, (children.1, parent));
        childToParent := childToParent[children.1 := parent];
        claims := claims + [(children.1, parent)];
      }
      assert claims == Claims(tree[..i + 1]);
    }
    assert tree[..|tree|] == tree;
  }

  /** A row of `lineage_tree_children.csv`. */
  datatype ChildrenRow = ChildrenRow(parent: string, child1: string, child2: string)

  /** The row written for one entry of `parent_to_children`. */
  function EntryRow(entry: (string, Children)): ChildrenRow {
    ChildrenRow(entry.0, entry.1.0, entry.1.1)
  }

  /** The children table lists each entry once, in increasing order of parent. */
  ghost predicate TabulatesTree(tree: Tree, table: seq<ChildrenRow>) {
    && (forall i, j :: 0 <= i < j < |table| ==> StrLess(table[i].parent, table[j].parent))
    && (forall row :: row in table <==> exists i :: 0 <= i < |tree| && row == EntryRow(tree[i]))
  }

  /** What `sort_values('parent')` raises on a frame built from no rows, which
      has no `parent` column. */
  const ParentKeyError := "KeyError: 'parent'"

  /** Lines 52-58: one row per entry, sorted by parent. With no entry at all the
      frame has no columns and the sort raises `KeyError`. */
  method ChildrenTable(tree: Tree) returns (r: Result<seq<ChildrenRow>, string>)
    requires Valid(tree)
    ensures r.Failure? <==> tree == []
    ensures r.Failure? ==> r.error == ParentKeyError
    ensures r.Success? ==> TabulatesTree(tree, r.value)
  {
    var m := ToMap(tree);
    var parents := SortStrings(m.Keys);
    assert forall q :: 0 <= q < |parents| ==> parents[q] in m by {
      forall q | 0 <= q < |parents| ensures parents[q] in m {
        assert parents[q] in parents;
      }
    }
    var table := seq(|parents|, q requires 0 <= q < |parents| => EntryRow((parents[q], m[parents[q]])));
    KeyRowsTabulate(tree, parents, table);
    TableEmptyIff(tree, table);
    if table == [] {
      return Failure(ParentKeyError);
    }
    return Success(table);
  }

  /** One row per key, in sorted key order, tabulates the tree. */
  lemma KeyRowsTabulate(tree: Tree, parents: seq<string>, table: seq<ChildrenRow>)
    requires Valid(tree) && parents == SortedStrings(ToMap(tree).Keys)
    requires |table| == |parents|
    requires forall q :: 0 <= q < |parents| ==>
      parents[q] in ToMap(tree) && table[q] == EntryRow((parents[q], ToMap(tree)[parents[q]]))
    ensures TabulatesTree(tree, table)
  {
    assert forall i, j :: 0 <= i < j < |table| ==> StrLess(table[i].parent, table[j].parent) by {
      forall i, j | 0 <= i < j < |table| ensures StrLess(table[i].parent, table[j].parent) {
        assert table[i].parent == parents[i] && table[j].parent == parents[j];
      }
    }
    TableHasEveryEntry(tree, parents, table);
  }

  /** The table is empty exactly when the tree is. */
  lemma TableEmptyIff(tree: Tree, table: seq<ChildrenRow>)
    requires forall row :: row in table <==> exists i :: 0 <= i < |tree| && row == EntryRow(tree[i])
    ensures table == [] <==> tree == []
  {
    assert tree != [] ==> EntryRow(tree[0]) in table;
    assert table != [] ==> table[0] in table;
  }

  /** A table holding, for each key of the dict, that key's row has exactly the
      rows of the dict's entries. */
  lemma TableHasEveryEntry(tree: Tree, parents: seq<string>, table: seq<ChildrenRow>)
    requires Valid(tree)
    requires forall p :: p in parents <==> p in ToMap(tree)
    requires |table| == |parents|
    requires forall q :: 0 <= q < |parents| ==>
      parents[q] in ToMap(tree) && table[q] == EntryRow((parents[q], ToMap(tree)[parents[q]]))
    ensures forall row :: row in table <==> exists i :: 0 <= i < |tree| && row == EntryRow(tree[i])
  {
    var m := ToMap(tree);
    forall row | row in table
      ensures exists i :: 0 <= i < |tree| && row == EntryRow(tree[i])
    {
      var q :| 0 <= q < |table| && table[q] == row;
      var i :| 0 <= i < |tree| && tree[i].0 == parents[q];
    }
    forall i | 0 <= i < |tree|
      ensures EntryRow(tree[i]) in table
    {
      assert tree[i].0 in m;
      var q :| 0 <= q < |parents| && parents[q] == tree[i].0;
      assert table[q] == EntryRow(tree[i]);
    }
  }

  /** A row of `lineage_tree_parent.csv`. */
  datatype ParentRow = ParentRow(child: string, parent: string)

  /** `child_to_parent.get(cell, '')`. */
  function ParentOf(childToParent: map<string, string>, cell: string): string {
    if cell in childToParent then childToParent[cell] else ""
  }

  /** The parent table has one row per known cell, in sorted order, with the
      cell's parent or `""`. */
  ghost predicate TabulatesCells(cells: set<string>, childToParent: map<string, string>, table: seq<ParentRow>) {
    && |table| == |SortedStrings(cells)|
    && forall i :: 0 <= i < |table| ==>
         table[i] == ParentRow(SortedStrings(cells)[i], ParentOf(childToParent, SortedStrings(cells)[i]))
  }

  /** Lines 68-71: one row per known cell, in sorted order. */
  method ParentTable(cells: set<string>, childToParent: map<string, string>) returns (table: seq<ParentRow>)
    ensures TabulatesCells(cells, childToParent, table)
  {
    var sorted := SortStrings(cells);
    table := [];
    for k := 0 to |sorted|
      invariant |table| == k
      invariant forall q :: 0 <= q < k ==> table[q] == ParentRow(sorted[q], ParentOf(childToParent, sorted[q]))
    {
      var cell := sorted[k];
      var parent := if cell in childToParent then childToParent[cell] else "";
      table := table + [ParentRow(cell, parent)];
    }
  }

  /** The parent table lists every known cell exactly once, in increasing order. */
  lemma ParentTableRows(cells: set<string>, childToParent: map<string, string>, table: seq<ParentRow>)
    requires TabulatesCells(cells, childToParent, table)
    ensures |table| == |cells|
    ensures forall i, j :: 0 <= i < j < |table| ==> StrLess(table[i].child, table[j].child)
    ensures forall cell :: cell in cells <==> exists i :: 0 <= i < |table| && table[i].child == cell
  {
    var sorted := SortedStrings(cells);
    forall cell | cell in cells
      ensures exists i :: 0 <= i < |table| && table[i].child == cell
    {
      assert cell in sorted;
      var i :| 0 <= i < |sorted| && sorted[i] == cell;
      assert table[i].child == cell;
    }
    forall i | 0 <= i < |table|
      ensures table[i].child in cells
    {
      assert sorted[i] in sorted;
    }
  }

  /** Line 85: the known cells that no entry lists as a child. */
  function Parentless(cells: set<string>, childToParent: map<string, string>): set<string> {
    set cell | cell in cells && cell !in childToParent
  }

  /** What the script writes: the two tables, and the cells it reports as having
      no parent. */
  datatype Outputs = Outputs(childrenTable: seq<ChildrenRow>, parentTable: seq<ParentRow>, parentless: set<string>)

  /** The whole script: `parent_to_children`, then the children table, the parent
      table and the cells reported as having no parent, or the `KeyError` of an
      empty tree, raised before anything is written. */
  method BuildLineageTree(cells: set<string>, rows: seq<BeginningRow>) returns (tree: Tree, r: Result<Outputs, string>)
    ensures Completes(cells, PutAll(Collect(rows, RowEntry)), tree)
    ensures r.Failure? <==> tree == []
    ensures r.Failure? ==> r.error == ParentKeyError
    ensures r.Success? ==>
      && TabulatesTree(tree, r.value.childrenTable)
      && TabulatesCells(cells, FromPairs(Claims(tree)), r.value.parentTable)
      && r.value.parentless == Parentless(cells, FromPairs(Claims(tree)))
  {
    var explicit := LoadExplicit(rows);
    tree := InferChildren(cells, explicit);
    var childrenTable := ChildrenTable(tree);
    if childrenTable.Failure? {
      r := Failure(childrenTable.error);
      return;
    }
    var childToParent := ChildToParent(tree);
    var parentTable := ParentTable(cells, childToParent);
    var parentless := set cell | cell in cells && cell !in childToParent;
    r := Success(Outputs(childrenTable.value, parentTable, parentless));
  }

  /** No explicit row names a parent. */
  predicate NoParentRows(rows: seq<BeginningRow>) {
    forall i :: 0 <= i < |rows| ==> rows[i].parent == ""
  }

  /** No known cell has both daughters of a pair. */
  predicate NoPairs(cells: set<string>) {
    forall cell :: cell in cells ==> InferredPair(cell, cells).None?
  }

  /** The tree is empty, and the script stops at the sort, exactly when no row
      has a non-empty parent and no known cell has both daughters of a pair. */
  lemma EmptyTreeIff(cells: set<string>, rows: seq<BeginningRow>, tree: Tree)
    requires Completes(cells, PutAll(Collect(rows, RowEntry)), tree)
    ensures tree == [] <==> NoParentRows(rows) && NoPairs(cells)
  {
    var explicit := PutAll(Collect(rows, RowEntry));
    if tree == [] {
      assert explicit == [];
      forall i | 0 <= i < |rows|
        ensures rows[i].parent == ""
      {
        ExplicitLastWins(rows, rows[i].parent);
      }
      forall cell | cell in cells
        ensures InferredPair(cell, cells).None?
      {
        assert cell !in Keys(tree);
      }
    } else {
      var p := tree[0].0;
      if Inferable(cells, explicit, p) {
        assert !NoPairs(cells);
      } else {
        assert p in ToMap(explicit) by {
          assert tree[..|explicit|][0] == tree[0];
        }
        ExplicitLastWins(rows, p);
        assert !NoParentRows(rows);
      }
    }
  }

  /** Every key of the tree is a real name: explicit parents are non-empty, and
      inferred ones are known cells. With no empty name among the known cells, a
      cell's row in the parent table has an empty parent exactly when it is
      reported as having no parent. */
  lemma EmptyParentIffParentless(cells: set<string>, tree: Tree, cell: string)
    requires forall i :: 0 <= i < |tree| ==> tree[i].0 != ""
    requires cell in cells
    ensures ParentOf(FromPairs(Claims(tree)), cell) == "" <==> cell in Parentless(cells, FromPairs(Claims(tree)))
  {
    ClaimsLastWins(tree, cell);
  }

  /** Explicit keys are non-empty and inferred keys are known cells. */
  lemma TreeKeysNamed(rows: seq<BeginningRow>, cells: set<string>, tree: Tree)
    requires "" !in cells
    requires Completes(cells, PutAll(Collect(rows, RowEntry)), tree)
    ensures forall i :: 0 <= i < |tree| ==> tree[i].0 != ""
  {
    var explicit := PutAll(Collect(rows, RowEntry));
    forall i | 0 <= i < |tree|
      ensures tree[i].0 != ""
    {
      if i < |explicit| {
        assert tree[i] == explicit[i];
        ExplicitLastWins(rows, explicit[i].0);
        assert explicit[i].0 in ToMap(explicit);
      }
    }
  }
}
