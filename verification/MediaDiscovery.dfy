/** The discovery of the link rewrite (backend/scripts/rewrite_signed_media_links.py): one keyset
    scan for each of its queries, each over rows that change between pages. */
module MediaDiscovery {

  import opened Containers
  import opened Options
  import opened Text
  import opened MediaRewrite
  import opened KeysetPaging

  // ------------------------------------------------------------ one scanned table

  /** Does this cell of a scanned row need rewriting? */
  predicate Needs(row: Row, cell: Cell, canonical: (Cell, string) -> string) {
    cell.column in row.columns && canonical(cell, row.columns[cell.column]) != row.columns[cell.column]
  }

  function Proposed(row: Row, cell: Cell, canonical: (Cell, string) -> string): Change
    requires cell.column in row.columns
  {
    Change(cell.row, cell.column, row.columns[cell.column], canonical(cell, row.columns[cell.column]), row.updatedAt)
  }

  function Wanted(row: Row, cell: Cell, canonical: (Cell, string) -> string): seq<Change> {
    if Needs(row, cell, canonical) then [Proposed(row, cell, canonical)] else []
  }

  function RowChanges(id: RowId, columns: seq<string>, row: Row, canonical: (Cell, string) -> string): seq<Change> {
    if columns == [] then []
    else
      var n := |columns| - 1;
      RowChanges(id, columns[..n], row, canonical) + Wanted(row, Cell(id, columns[n]), canonical)
  }

  function TableChanges(table: string, columns: seq<string>, rows: seq<(int, Row)>, canonical: (Cell, string) -> string): seq<Change> {
    if rows == [] then []
    else
      var n := |rows| - 1;
      TableChanges(table, columns, rows[..n], canonical) + RowChanges(RowId(table, rows[n].0), columns, rows[n].1, canonical)
  }

  method DiscoverRow(id: RowId, columns: seq<string>, row: Row, canonical: (Cell, string) -> string) returns (changes: seq<Change>)
    ensures changes == RowChanges(id, columns, row, canonical)
  {
    changes := [];
    for c := 0 to |columns|
      invariant changes == RowChanges(id, columns[..c], row, canonical)
    {
      var cell := Cell(id, columns[c]);
      assert columns[..c + 1][..c] == columns[..c];
      if Needs(row, cell, canonical) { changes := changes + [Proposed(row, cell, canonical)]; }
    }
    assert columns[..|columns|] == columns;
  }

  /** Discovery over one scanned table: a change is appended for each column that needs one. */
  method DiscoverTable(table: string, columns: seq<string>, rows: seq<(int, Row)>, canonical: (Cell, string) -> string)
      returns (changes: seq<Change>)
    ensures changes == TableChanges(table, columns, rows, canonical)
  {
    changes := [];
    for i := 0 to |rows|
      invariant changes == TableChanges(table, columns, rows[..i], canonical)
    {
      var more := DiscoverRow(RowId(table, rows[i].0), columns, rows[i].1, canonical);
      changes := changes + more;
      assert rows[..i + 1][..i] == rows[..i];
    }
    assert rows[..|rows|] == rows;
  }

  lemma DistinctAppend(a: seq<Change>, b: seq<Change>)
    requires DistinctCells(a) && DistinctCells(b)
    requires forall x, y | x in a && y in b :: CellOf(x) != CellOf(y)
    ensures DistinctCells(a + b)
  {
    forall i, j | 0 <= i < j < |a + b| ensures CellOf((a + b)[i]) != CellOf((a + b)[j]) {
      if i < |a| <= j {
        assert (a + b)[i] in a && (a + b)[j] in b;
      }
    }
  }

  /** A row contributes at most one change to each of its columns, and all it needs. */
  lemma {:induction false} RowChangesFacts(id: RowId, columns: seq<string>, row: Row, canonical: (Cell, string) -> string)
    requires Distinct(columns)
    ensures var changes := RowChanges(id, columns, row, canonical);
      && DistinctCells(changes)
      && (forall x | x in changes :: x.row == id && x.column in columns && x in Wanted(row, CellOf(x), canonical))
      && (forall column | column in columns && Needs(row, Cell(id, column), canonical) :: Proposed(row, Cell(id, column), canonical) in changes)
  {
    if columns != [] {
      var n := |columns| - 1;
      var earlier := RowChanges(id, columns[..n], row, canonical);
      RowChangesFacts(id, columns[..n], row, canonical);
      DistinctAppend(earlier, Wanted(row, Cell(id, columns[n]), canonical));
      assert columns == columns[..n] + [columns[n]];
    }
  }

  lemma LastIsNew(keys: seq<int>)
    requires Increasing(keys) && keys != []
    ensures var n := |keys| - 1; Increasing(keys[..n]) && (forall k | k in keys[..n] :: k < keys[n]) && keys == keys[..n] + [keys[n]]
  {
  }

  /** Strictly increasing keys give one change per cell, so every promise about the rewrite that
      needs distinct cells holds of what discovery lists. */
  lemma {:induction false} OneChangePerCell(table: string, columns: seq<string>, rows: seq<(int, Row)>, canonical: (Cell, string) -> string)
    requires Distinct(columns) && Increasing(KeysOf(rows))
    ensures DistinctCells(TableChanges(table, columns, rows, canonical))
    ensures forall x | x in TableChanges(table, columns, rows, canonical) :: x.row.table == table && x.row.pk in KeysOf(rows)
  {
    if rows != [] {
      var n := |rows| - 1;
      var keys := KeysOf(rows);
      var earlier, more := TableChanges(table, columns, rows[..n], canonical), RowChanges(RowId(table, rows[n].0), columns, rows[n].1, canonical);
      assert KeysOf(rows[..n]) == keys[..n];
      LastIsNew(keys);
      OneChangePerCell(table, columns, rows[..n], canonical);
      RowChangesFacts(RowId(table, rows[n].0), columns, rows[n].1, canonical);
      forall x, y | x in earlier && y in more ensures CellOf(x) != CellOf(y) {
        assert x.row.pk < keys[n] == y.row.pk;
      }
      DistinctAppend(earlier, more);
    }
  }

  /** Each change reports a scanned row as it was found. */
  lemma {:induction false} ReportedRow(table: string, columns: seq<string>, rows: seq<(int, Row)>, canonical: (Cell, string) -> string, x: Change)
      returns (r: nat)
    requires Distinct(columns) && x in TableChanges(table, columns, rows, canonical)
    ensures r < |rows| && x.row == RowId(table, rows[r].0) && x.column in columns && x in Wanted(rows[r].1, CellOf(x), canonical)
  {
    var n := |rows| - 1;
    if x in TableChanges(table, columns, rows[..n], canonical) {
      r := ReportedRow(table, columns, rows[..n], canonical, x);
    } else {
      RowChangesFacts(RowId(table, rows[n].0), columns, rows[n].1, canonical);
      r := n;
    }
  }

  lemma RowMissesNothing(id: RowId, columns: seq<string>, row: Row, canonical: (Cell, string) -> string, column: string)
    requires Distinct(columns) && column in columns && Needs(row, Cell(id, column), canonical)
    ensures Proposed(row, Cell(id, column), canonical) in RowChanges(id, columns, row, canonical)
  {
    RowChangesFacts(id, columns, row, canonical);
  }

  lemma LastRowAdds(table: string, columns: seq<string>, rows: seq<(int, Row)>, canonical: (Cell, string) -> string, x: Change)
    requires rows != []
    requires var n := |rows| - 1;
      || x in TableChanges(table, columns, rows[..n], canonical)
      || x in RowChanges(RowId(table, rows[n].0), columns, rows[n].1, canonical)
    ensures x in TableChanges(table, columns, rows, canonical)
  {
  }

  /** Every column of a scanned row that needs a change has one. */
  lemma {:induction false} NothingMissed(table: string, columns: seq<string>, rows: seq<(int, Row)>, canonical: (Cell, string) -> string, r: nat, cell: Cell)
    requires Distinct(columns) && r < |rows| && cell.column in columns && cell.row == RowId(table, rows[r].0)
    requires Needs(rows[r].1, cell, canonical)
    ensures Proposed(rows[r].1, cell, canonical) in TableChanges(table, columns, rows, canonical)
  {
    var n := |rows| - 1;
    if r < n {
      NothingMissed(table, columns, rows[..n], canonical, r, cell);
    } else {
      RowMissesNothing(cell.row, columns, rows[n].1, canonical, cell.column);
    }
    LastRowAdds(table, columns, rows, canonical, Proposed(rows[r].1, cell, canonical));
  }

  // --------------------------------------------------------------- all four queries

  datatype Source = Source(table: string, columns: seq<string>)

  const SOURCES: seq<Source> := [
    Source("notes", ["content"]),
    Source("cards", ["description"]),
    Source("boards", ["description"]),
    Source("definitions", ["scope", "content"])
  ]

  lemma SourcesDistinct()
    ensures forall s | 0 <= s < |SOURCES| :: Distinct(SOURCES[s].columns)
    ensures forall s, t | 0 <= s < t < |SOURCES| :: SOURCES[s].table != SOURCES[t].table
  {
    assert "notes"[0] == 'n' && "cards"[0] == 'c' && "boards"[0] == 'b' && "definitions"[0] == 'd';
    assert "scope"[0] == 's' && "content"[0] == 'c';
  }

  /** The columns that are searched. */
  lemma SourcesCover(table: string, column: string)
    ensures (exists s | 0 <= s < |SOURCES| :: SOURCES[s].table == table && column in SOURCES[s].columns) <==>
      || (table == "notes" && column == "content")
      || (table == "cards" && column == "description")
      || (table == "boards" && column == "description")
      || (table == "definitions" && (column == "scope" || column == "content"))
  {
    assert SOURCES[0] == Source("notes", ["content"]) && SOURCES[1] == Source("cards", ["description"]);
    assert SOURCES[2] == Source("boards", ["description"]) && SOURCES[3] == Source("definitions", ["scope", "content"]);
  }

  predicate Holds(value: Option<string>, holds: string -> bool) { value.Some? && holds(value.value) }

  /** The query's condition: one of the columns looks as if it held a storage link. */
  predicate Selected(db: Rows, row: RowId, columns: seq<string>, holds: string -> bool) {
    exists c | 0 <= c < |columns| :: Holds(ValueOf(db, Cell(row, columns[c])), holds)
  }

  function Query(db: Rows, source: Source, holds: string -> bool): map<int, Row> {
    map id | id in db && id.table == source.table && Selected(db, id, source.columns, holds) :: id.pk := db[id]
  }

  lemma QueryFacts(db: Rows, source: Source, holds: string -> bool, pk: int)
    ensures var id := RowId(source.table, pk);
      && (pk in Query(db, source, holds) <==> id in db && Selected(db, id, source.columns, holds))
      && (pk in Query(db, source, holds) ==> Query(db, source, holds)[pk] == db[id])
  {
    var id := RowId(source.table, pk);
    assert id in db && Selected(db, id, source.columns, holds) ==> id.pk in Query(db, source, holds);
  }

  /** The cell's text has another canonical form. */
  ghost predicate Pending(db: Rows, cell: Cell, canonical: (Cell, string) -> string) {
    ValueOf(db, cell).Some? && canonical(cell, ValueOf(db, cell).value) != ValueOf(db, cell).value
  }

  /** `found(s, n)` is the database as the n-th page query of the s-th source finds it. */
  type Finds = (nat, nat) -> Rows

  /** The change repeats a selected row: its text, the canonical form of it, its timestamp. */
  ghost predicate ReportsAt(db: Rows, source: Source, holds: string -> bool, canonical: (Cell, string) -> string, x: Change) {
    && x.row.table == source.table && x.column in source.columns && Selected(db, x.row, source.columns, holds)
    && Matches(db, x) && x.after == canonical(CellOf(x), x.before) && x.after != x.before
    && x.updatedAt == db[x.row].updatedAt
  }

  ghost predicate Reports(found: Finds, s: nat, holds: string -> bool, canonical: (Cell, string) -> string, x: Change) {
    s < |SOURCES| && exists n: nat :: ReportsAt(found(s, n), SOURCES[s], holds, canonical, x)
  }

  /** At every page the cell's row is selected and the cell needs rewriting. */
  ghost predicate AlwaysNeeds(found: Finds, s: nat, holds: string -> bool, canonical: (Cell, string) -> string, cell: Cell) {
    && s < |SOURCES| && cell.row.table == SOURCES[s].table && cell.column in SOURCES[s].columns
    && forall n: nat :: Selected(found(s, n), cell.row, SOURCES[s].columns, holds) && Pending(found(s, n), cell, canonical)
  }

  /** What the change list promises of one query: at most one change to a cell, each one true of
      some page, none missing. */
  ghost predicate ListsSource(found: Finds, s: nat, holds: string -> bool, canonical: (Cell, string) -> string, changes: seq<Change>) {
    && DistinctCells(changes)
    && (forall i | 0 <= i < |changes| :: Reports(found, s, holds, canonical, changes[i]))
    && (forall cell | AlwaysNeeds(found, s, holds, canonical, cell) :: !Spares(changes, cell))
  }

  ghost predicate ReportsSome(found: Finds, upto: nat, holds: string -> bool, canonical: (Cell, string) -> string, x: Change) {
    exists s: nat :: s < upto && Reports(found, s, holds, canonical, x)
  }

  /** The same of the first `upto` queries together. */
  ghost predicate Lists(found: Finds, upto: nat, holds: string -> bool, canonical: (Cell, string) -> string, changes: seq<Change>) {
    && DistinctCells(changes)
    && (forall i | 0 <= i < |changes| :: ReportsSome(found, upto, holds, canonical, changes[i]))
    && (forall s: nat, cell | s < upto && AlwaysNeeds(found, s, holds, canonical, cell) :: !Spares(changes, cell))
  }

  /** The rows are a scan of the query's pages. */
  ghost predicate Scanned(found: Finds, s: nat, holds: string -> bool, rows: seq<(int, Row)>) {
    && s < |SOURCES| && Increasing(KeysOf(rows))
    && (forall r | 0 <= r < |rows| :: Yielded(found, s, holds, rows[r].0, rows[r].1))
    && (forall pk | (forall n: nat :: pk in Query(found(s, n), SOURCES[s], holds)) :: pk in KeysOf(rows))
  }

  ghost predicate Yielded(found: Finds, s: nat, holds: string -> bool, pk: int, row: Row) {
    s < |SOURCES| && exists n: nat :: pk in Query(found(s, n), SOURCES[s], holds) && Query(found(s, n), SOURCES[s], holds)[pk] == row
  }

  lemma ScannedReports(found: Finds, s: nat, holds: string -> bool, canonical: (Cell, string) -> string, rows: seq<(int, Row)>, x: Change)
    requires Scanned(found, s, holds, rows) && x in TableChanges(SOURCES[s].table, SOURCES[s].columns, rows, canonical)
    ensures Reports(found, s, holds, canonical, x)
  {
    var source := SOURCES[s];
    SourcesDistinct();
    var r := ReportedRow(source.table, source.columns, rows, canonical, x);
    assert Yielded(found, s, holds, rows[r].0, rows[r].1);
    var n: nat :| rows[r].0 in Query(found(s, n), source, holds) && Query(found(s, n), source, holds)[rows[r].0] == rows[r].1;
    QueryFacts(found(s, n), source, holds, rows[r].0);
    assert ReportsAt(found(s, n), source, holds, canonical, x);
  }

  lemma AlwaysNeedsIsYielded(found: Finds, s: nat, holds: string -> bool, canonical: (Cell, string) -> string, rows: seq<(int, Row)>, cell: Cell)
      returns (r: nat)
    requires Scanned(found, s, holds, rows) && AlwaysNeeds(found, s, holds, canonical, cell)
    ensures r < |rows| && cell.row == RowId(SOURCES[s].table, rows[r].0) && Needs(rows[r].1, cell, canonical)
  {
    var pk := cell.row.pk;
    forall n: nat ensures pk in Query(found(s, n), SOURCES[s], holds) {
      assert Pending(found(s, n), cell, canonical);
      QueryFacts(found(s, n), SOURCES[s], holds, pk);
    }
    assert pk in KeysOf(rows);
    r :| r < |rows| && rows[r].0 == pk;
    assert Yielded(found, s, holds, rows[r].0, rows[r].1);
    var n: nat :| pk in Query(found(s, n), SOURCES[s], holds) && Query(found(s, n), SOURCES[s], holds)[pk] == rows[r].1;
    QueryFacts(found(s, n), SOURCES[s], holds, pk);
    assert Pending(found(s, n), cell, canonical);
  }

  lemma ScannedMissesNothing(found: Finds, s: nat, holds: string -> bool, canonical: (Cell, string) -> string, rows: seq<(int, Row)>, cell: Cell)
    requires Scanned(found, s, holds, rows) && AlwaysNeeds(found, s, holds, canonical, cell)
    ensures !Spares(TableChanges(SOURCES[s].table, SOURCES[s].columns, rows, canonical), cell)
  {
    var changes := TableChanges(SOURCES[s].table, SOURCES[s].columns, rows, canonical);
    SourcesDistinct();
    var r := AlwaysNeedsIsYielded(found, s, holds, canonical, rows, cell);
    NothingMissed(SOURCES[s].table, SOURCES[s].columns, rows, canonical, r, cell);
    var i :| 0 <= i < |changes| && changes[i] == Proposed(rows[r].1, cell, canonical);
    assert CellOf(changes[i]) == cell;
  }

  lemma ScannedLists(found: Finds, s: nat, holds: string -> bool, canonical: (Cell, string) -> string, rows: seq<(int, Row)>)
    requires Scanned(found, s, holds, rows)
    ensures ListsSource(found, s, holds, canonical, TableChanges(SOURCES[s].table, SOURCES[s].columns, rows, canonical))
  {
    var changes := TableChanges(SOURCES[s].table, SOURCES[s].columns, rows, canonical);
    SourcesDistinct();
    OneChangePerCell(SOURCES[s].table, SOURCES[s].columns, rows, canonical);
    forall i | 0 <= i < |changes| ensures Reports(found, s, holds, canonical, changes[i]) {
      ScannedReports(found, s, holds, canonical, rows, changes[i]);
    }
    forall cell | AlwaysNeeds(found, s, holds, canonical, cell) ensures !Spares(changes, cell) {
      ScannedMissesNothing(found, s, holds, canonical, rows, cell);
    }
  }

  lemma SparesAppend(a: seq<Change>, b: seq<Change>, cell: Cell)
    ensures Spares(a + b, cell) <==> Spares(a, cell) && Spares(b, cell)
  {
    forall i | 0 <= i < |a| ensures (a + b)[i] == a[i] {}
    forall i | 0 <= i < |b| ensures (a + b)[|a| + i] == b[i] {}
  }

  lemma DifferentTables(found: Finds, s: nat, holds: string -> bool, canonical: (Cell, string) -> string, x: Change, y: Change)
    requires ReportsSome(found, s, holds, canonical, x) && Reports(found, s, holds, canonical, y)
    ensures CellOf(x) != CellOf(y)
  {
    SourcesDistinct();
  }

  lemma ListsMore(found: Finds, s: nat, holds: string -> bool, canonical: (Cell, string) -> string, a: seq<Change>, b: seq<Change>)
    requires Lists(found, s, holds, canonical, a) && ListsSource(found, s, holds, canonical, b)
    ensures Lists(found, s + 1, holds, canonical, a + b)
  {
    forall x, y | x in a && y in b ensures CellOf(x) != CellOf(y) {
      DifferentTables(found, s, holds, canonical, x, y);
    }
    DistinctAppend(a, b);
    forall i | 0 <= i < |a + b| ensures ReportsSome(found, s + 1, holds, canonical, (a + b)[i]) {
      if i < |a| {
        assert ReportsSome(found, s, holds, canonical, a[i]);
      } else {
        assert Reports(found, s, holds, canonical, b[i - |a|]);
      }
    }
    forall t: nat, cell | t < s + 1 && AlwaysNeeds(found, t, holds, canonical, cell) ensures !Spares(a + b, cell) {
      SparesAppend(a, b, cell);
    }
  }

  /** `discover`: the change list over all four queries, whatever is committed between any two pages. */
  method Discover(found: Finds, holds: string -> bool, canonical: (Cell, string) -> string, size: nat) returns (changes: seq<Change>)
    requires forall s: nat, n: nat, id | id in found(s, n) :: 0 <= id.pk < KEYS
    ensures size > 0 ==> Lists(found, |SOURCES|, holds, canonical, changes)
    ensures size == 0 ==> changes == []
  {
    changes := [];
    for s := 0 to |SOURCES|
      invariant size > 0 ==> Lists(found, s, holds, canonical, changes)
      invariant size == 0 ==> changes == []
    {
      var rows := ScanSource(found, s, holds, size);
      var more := DiscoverTable(SOURCES[s].table, SOURCES[s].columns, rows, canonical);
      if size > 0 {
        ScannedLists(found, s, holds, canonical, rows);
        ListsMore(found, s, holds, canonical, changes, more);
      }
      changes := changes + more;
    }
  }

  method ScanSource(found: Finds, s: nat, holds: string -> bool, size: nat) returns (rows: seq<(int, Row)>)
    requires s < |SOURCES| && forall n: nat, id | id in found(s, n) :: 0 <= id.pk < KEYS
    ensures size > 0 ==> Scanned(found, s, holds, rows)
    ensures size == 0 ==> rows == []
  {
    var source := SOURCES[s];
    var tables := (n: nat) => Query(found(s, n), source, holds);
    forall n: nat, pk | pk in tables(n) ensures 0 <= pk < KEYS { QueryFacts(found(s, n), source, holds, pk); }
    rows := Scan(tables, size);
    forall r | 0 <= r < |rows| ensures Yielded(found, s, holds, rows[r].0, rows[r].1) {
      assert SeenIn(tables, rows[r].0, rows[r].1);
    }
    if size > 0 {
      forall pk | (forall n: nat :: pk in Query(found(s, n), source, holds)) ensures pk in KeysOf(rows) {
        assert AlwaysThere(tables, pk);
      }
    }
  }

  // --------------------------------------------------------- rows nobody touches

  /** Nobody changes the row while a discovery runs on `db`. */
  ghost predicate Steady(found: Finds, db: Rows, row: RowId) {
    forall s: nat, n: nat, column :: ValueOf(found(s, n), Cell(row, column)) == ValueOf(db, Cell(row, column))
  }

  lemma SteadySelected(found: Finds, db: Rows, row: RowId, s: nat, n: nat, columns: seq<string>, holds: string -> bool)
    requires Steady(found, db, row)
    ensures Selected(found(s, n), row, columns, holds) <==> Selected(db, row, columns, holds)
  {
    forall c | 0 <= c < |columns| ensures ValueOf(found(s, n), Cell(row, columns[c])) == ValueOf(db, Cell(row, columns[c])) {
    }
  }

  /** A change of a steady row is true of the database the discovery ran on. */
  lemma SteadyReport(found: Finds, db: Rows, holds: string -> bool, canonical: (Cell, string) -> string, x: Change) returns (s: nat)
    requires ReportsSome(found, |SOURCES|, holds, canonical, x) && Steady(found, db, x.row)
    ensures s < |SOURCES| && x.row.table == SOURCES[s].table && x.column in SOURCES[s].columns
    ensures Selected(db, x.row, SOURCES[s].columns, holds) && Matches(db, x)
    ensures x.after == canonical(CellOf(x), x.before) && x.after != x.before
  {
    s :| s < |SOURCES| && Reports(found, s, holds, canonical, x);
    var n: nat :| ReportsAt(found(s, n), SOURCES[s], holds, canonical, x);
    SteadySelected(found, db, x.row, s, n, SOURCES[s].columns, holds);
  }

  /** A cell no change names, in a row nobody edits, stays as it is. */
  lemma SparedStays(db: Rows, events: seq<Event>, cell: Cell, normal: string -> string)
    requires Spares(Swaps(events), cell) && Quiet(events, cell.row)
    ensures ValueOf(Run(db, events, normal), cell) == ValueOf(db, cell)
  {
    OthersUntouched(db, events, cell, normal);
    QuietKeeps(ValueOf(db, cell), events, cell);
  }

  predicate InSource(cell: Cell, s: nat) {
    s < |SOURCES| && cell.row.table == SOURCES[s].table && cell.column in SOURCES[s].columns
  }

  lemma SteadyNeeds(found: Finds, db: Rows, holds: string -> bool, canonical: (Cell, string) -> string, cell: Cell, s: nat)
    requires Steady(found, db, cell.row) && InSource(cell, s)
    requires Selected(db, cell.row, SOURCES[s].columns, holds) && Pending(db, cell, canonical)
    ensures AlwaysNeeds(found, s, holds, canonical, cell)
  {
    forall n: nat ensures Selected(found(s, n), cell.row, SOURCES[s].columns, holds) && Pending(found(s, n), cell, canonical) {
      SteadySelected(found, db, cell.row, s, n, SOURCES[s].columns, holds);
    }
  }

  /** A named cell was selected and pending, and its change holds its text and canonical form. */
  lemma NamedCell(found: Finds, db: Rows, holds: string -> bool, canonical: (Cell, string) -> string, changes: seq<Change>, i: nat, s: nat)
    requires Lists(found, |SOURCES|, holds, canonical, changes) && i < |changes|
    requires Steady(found, db, changes[i].row) && InSource(CellOf(changes[i]), s)
    ensures Selected(db, changes[i].row, SOURCES[s].columns, holds) && Matches(db, changes[i])
    ensures changes[i].after == canonical(CellOf(changes[i]), changes[i].before) && changes[i].after != changes[i].before
  {
    assert ReportsSome(found, |SOURCES|, holds, canonical, changes[i]);
    var t := SteadyReport(found, db, holds, canonical, changes[i]);
    SourcesDistinct();
  }

  /** A discovery names a cell of a row nobody changes meanwhile if and only if the query selects the
      row and the cell's canonical form differs. */
  lemma ListedIff(found: Finds, db: Rows, holds: string -> bool, canonical: (Cell, string) -> string, changes: seq<Change>, cell: Cell, s: nat)
    requires Lists(found, |SOURCES|, holds, canonical, changes) && Steady(found, db, cell.row) && InSource(cell, s)
    ensures !Spares(changes, cell) <==> Selected(db, cell.row, SOURCES[s].columns, holds) && Pending(db, cell, canonical)
  {
    if Selected(db, cell.row, SOURCES[s].columns, holds) && Pending(db, cell, canonical) {
      SteadyNeeds(found, db, holds, canonical, cell, s);
    }
    if i: nat :| i < |changes| && CellOf(changes[i]) == cell {
      NamedCell(found, db, holds, canonical, changes, i, s);
    }
  }

  /** What the pass leaves in a cell of a row nobody touches. */
  function Left(db: Rows, cell: Cell, s: nat, holds: string -> bool, canonical: (Cell, string) -> string, normal: string -> string): Option<string>
    requires s < |SOURCES|
  {
    var value := ValueOf(db, cell);
    if value.Some? && canonical(cell, value.value) != value.value && Selected(db, cell.row, SOURCES[s].columns, holds)
    then Some(Stored(cell, canonical(cell, value.value), normal)) else value
  }

  lemma ValueAfterPass(found: Finds, db: Rows, events: seq<Event>, holds: string -> bool, canonical: (Cell, string) -> string,
                       normal: string -> string, cell: Cell, s: nat)
    requires Lists(found, |SOURCES|, holds, canonical, Swaps(events)) && Steady(found, db, cell.row) && Quiet(events, cell.row)
    requires InSource(cell, s)
    ensures ValueOf(Run(db, events, normal), cell) == Left(db, cell, s, holds, canonical, normal)
  {
    var changes := Swaps(events);
    ListedIff(found, db, holds, canonical, changes, cell, s);
    if Spares(changes, cell) {
      SparedStays(db, events, cell, normal);
    } else {
      var i: nat :| i < |changes| && CellOf(changes[i]) == cell;
      NamedCell(found, db, holds, canonical, changes, i, s);
      QuietPass(db, events, i, normal);
    }
  }

  /** After the pass, a cell of a row nobody touched needs rewriting if and only if it did before and
      either its query missed the row or what was stored has yet another canonical form. */
  lemma PendingAfterPassIff(found: Finds, db: Rows, events: seq<Event>, holds: string -> bool, canonical: (Cell, string) -> string,
                            normal: string -> string, cell: Cell, s: nat)
    requires Lists(found, |SOURCES|, holds, canonical, Swaps(events)) && Steady(found, db, cell.row) && Quiet(events, cell.row)
    requires InSource(cell, s)
    ensures Pending(Run(db, events, normal), cell, canonical) <==>
      && Pending(db, cell, canonical)
      && (Selected(db, cell.row, SOURCES[s].columns, holds) ==>
            var stored := Stored(cell, canonical(cell, ValueOf(db, cell).value), normal); canonical(cell, stored) != stored)
  {
    ValueAfterPass(found, db, events, holds, canonical, normal, cell, s);
  }

  // ------------------------------------------------------------------- the second run

  /** What the pass leaves in the row still looks as if it held a storage link. */
  predicate StillSelected(db: Rows, row: RowId, s: nat, holds: string -> bool, canonical: (Cell, string) -> string, normal: string -> string)
    requires s < |SOURCES|
  {
    exists c | 0 <= c < |SOURCES[s].columns| :: Holds(Left(db, Cell(row, SOURCES[s].columns[c]), s, holds, canonical, normal), holds)
  }

  lemma SelectedAfterPass(found: Finds, db: Rows, events: seq<Event>, holds: string -> bool, canonical: (Cell, string) -> string,
                          normal: string -> string, row: RowId, s: nat)
    requires Lists(found, |SOURCES|, holds, canonical, Swaps(events)) && Steady(found, db, row) && Quiet(events, row)
    requires s < |SOURCES| && row.table == SOURCES[s].table
    ensures Selected(Run(db, events, normal), row, SOURCES[s].columns, holds) <==>
            StillSelected(db, row, s, holds, canonical, normal)
  {
    var columns := SOURCES[s].columns;
    forall c | 0 <= c < |columns|
      ensures ValueOf(Run(db, events, normal), Cell(row, columns[c])) == Left(db, Cell(row, columns[c]), s, holds, canonical, normal)
    {
      ValueAfterPass(found, db, events, holds, canonical, normal, Cell(row, columns[c]), s);
    }
  }

  /** The cell was selected and rewritten, what was stored has yet another canonical form, and its row
      is selected again. */
  predicate NeedsAgain(db: Rows, cell: Cell, s: nat, holds: string -> bool, canonical: (Cell, string) -> string, normal: string -> string)
    requires s < |SOURCES|
  {
    var value := ValueOf(db, cell);
    && value.Some? && canonical(cell, value.value) != value.value && Selected(db, cell.row, SOURCES[s].columns, holds)
    && (var stored := Stored(cell, canonical(cell, value.value), normal); canonical(cell, stored) != stored)
    && StillSelected(db, cell.row, s, holds, canonical, normal)
  }

  /** A row that no query selects is left alone, so it is not selected afterwards either. */
  lemma UnselectedStays(db: Rows, row: RowId, s: nat, holds: string -> bool, canonical: (Cell, string) -> string, normal: string -> string)
    requires s < |SOURCES| && StillSelected(db, row, s, holds, canonical, normal)
    ensures Selected(db, row, SOURCES[s].columns, holds)
  {
    var columns := SOURCES[s].columns;
    var c :| 0 <= c < |columns| && Holds(Left(db, Cell(row, columns[c]), s, holds, canonical, normal), holds);
    var cell := Cell(row, columns[c]);
    if Left(db, cell, s, holds, canonical, normal) == ValueOf(db, cell) { assert Holds(ValueOf(db, cell), holds); }
  }

  /** Discover, apply, discover again: of a row nobody touches throughout, the second discovery names
      exactly the cells whose rewritten text needs rewriting again while the row is still selected. */
  lemma SecondRunIff(found: Finds, db: Rows, events: seq<Event>, later: Finds, again: seq<Change>,
                     holds: string -> bool, canonical: (Cell, string) -> string, normal: string -> string, cell: Cell, s: nat)
    requires Lists(found, |SOURCES|, holds, canonical, Swaps(events)) && Lists(later, |SOURCES|, holds, canonical, again)
    requires Untouched(found, db, events, later, normal, cell.row) && InSource(cell, s)
    ensures !Spares(again, cell) <==> NeedsAgain(db, cell, s, holds, canonical, normal)
  {
    ListedIff(later, Run(db, events, normal), holds, canonical, again, cell, s);
    SelectedAfterPass(found, db, events, holds, canonical, normal, cell.row, s);
    PendingAfterPassIff(found, db, events, holds, canonical, normal, cell, s);
    if StillSelected(db, cell.row, s, holds, canonical, normal) {
      UnselectedStays(db, cell.row, s, holds, canonical, normal);
    }
  }

  lemma SourceOf(found: Finds, holds: string -> bool, canonical: (Cell, string) -> string, changes: seq<Change>, i: nat) returns (s: nat)
    requires Lists(found, |SOURCES|, holds, canonical, changes) && i < |changes|
    ensures InSource(CellOf(changes[i]), s)
  {
    assert ReportsSome(found, |SOURCES|, holds, canonical, changes[i]);
    s :| s < |SOURCES| && Reports(found, s, holds, canonical, changes[i]);
  }

  /** Nobody touches the row from the first discovery to the second. */
  ghost predicate Untouched(found: Finds, db: Rows, events: seq<Event>, later: Finds, normal: string -> string, row: RowId) {
    Steady(found, db, row) && Quiet(events, row) && Steady(later, Run(db, events, normal), row)
  }

  /** No change of the list has to be made again. */
  ghost predicate Settles(db: Rows, changes: seq<Change>, holds: string -> bool, canonical: (Cell, string) -> string, normal: string -> string) {
    forall i: nat, s: nat | i < |changes| && InSource(CellOf(changes[i]), s) ::
      !NeedsAgain(db, CellOf(changes[i]), s, holds, canonical, normal)
  }

  lemma UnsettledIsNamed(found: Finds, db: Rows, events: seq<Event>, later: Finds, again: seq<Change>, holds: string -> bool,
                         canonical: (Cell, string) -> string, normal: string -> string, cell: Cell, s: nat)
    requires Lists(found, |SOURCES|, holds, canonical, Swaps(events)) && Lists(later, |SOURCES|, holds, canonical, again)
    requires Untouched(found, db, events, later, normal, cell.row) && InSource(cell, s)
    requires NeedsAgain(db, cell, s, holds, canonical, normal)
    ensures again != []
  {
    SecondRunIff(found, db, events, later, again, holds, canonical, normal, cell, s);
  }

  lemma NamedIsUnsettled(found: Finds, db: Rows, events: seq<Event>, later: Finds, again: seq<Change>, holds: string -> bool,
                         canonical: (Cell, string) -> string, normal: string -> string)
    requires Lists(found, |SOURCES|, holds, canonical, Swaps(events)) && Lists(later, |SOURCES|, holds, canonical, again)
    requires again != [] && Untouched(found, db, events, later, normal, again[0].row)
    ensures !Settles(db, Swaps(events), holds, canonical, normal)
  {
    var changes, cell := Swaps(events), CellOf(again[0]);
    var s := SourceOf(later, holds, canonical, again, 0);
    SecondRunIff(found, db, events, later, again, holds, canonical, normal, cell, s);
    ListedIff(found, db, holds, canonical, changes, cell, s);
    var i: nat :| i < |changes| && CellOf(changes[i]) == cell;
  }

  /** If nobody edits anything from the first discovery to the second, the second finds no change if
      and only if no change of the first list has to be made again. */
  lemma SecondRunFindsNothing(found: Finds, db: Rows, events: seq<Event>, later: Finds, again: seq<Change>,
                              holds: string -> bool, canonical: (Cell, string) -> string, normal: string -> string)
    requires Lists(found, |SOURCES|, holds, canonical, Swaps(events)) && Lists(later, |SOURCES|, holds, canonical, again)
    requires forall row :: Untouched(found, db, events, later, normal, row)
    ensures again == [] <==> Settles(db, Swaps(events), holds, canonical, normal)
  {
    var changes := Swaps(events);
    if again != [] {
      assert Untouched(found, db, events, later, normal, again[0].row);
      NamedIsUnsettled(found, db, events, later, again, holds, canonical, normal);
    } else {
      forall i: nat, s: nat | i < |changes| && InSource(CellOf(changes[i]), s)
        ensures !NeedsAgain(db, CellOf(changes[i]), s, holds, canonical, normal)
      {
        assert Untouched(found, db, events, later, normal, changes[i].row);
        if NeedsAgain(db, CellOf(changes[i]), s, holds, canonical, normal) {
          UnsettledIsNamed(found, db, events, later, again, holds, canonical, normal, CellOf(changes[i]), s);
        }
      }
    }
  }

  // -------------------------------------------------------------- the two failing inputs

  const GCS_HOST: string := "storage.googleapis.com"
  const LOCAL_DOWNLOAD_PREFIX: string := "/api/local-storage/download/"
  const STABLE_PATH_PREFIX: string := "/api/workspaces/"

  /** The script's filter.  LIKE compares letters as they are, case included. */
  predicate MayHoldStorageLink(text: string) {
    || Like(text, GCS_HOST)
    || Like(text, LOCAL_DOWNLOAD_PREFIX)
    || exists i | 0 <= i <= |text| :: LikeAt(text, "://", i) && Like(text[i + 3..], STABLE_PATH_PREFIX)
  }

  /** A scheme, and later the path of this application. */
  ghost predicate AbsoluteAt(text: string, before: string, origin: string, after: string) {
    text == before + "://" + origin + "/api/workspaces/" + after
  }

  lemma AbsoluteHeld(text: string, before: string, origin: string, after: string)
    requires AbsoluteAt(text, before, origin, after)
    ensures MayHoldStorageLink(text)
  {
    var i := |before|;
    assert LikeAt(text, "://", i);
    assert text[i + 3..] == origin + STABLE_PATH_PREFIX + after;
    LikeInside(origin, STABLE_PATH_PREFIX, after);
  }

  lemma AbsoluteFound(text: string, i: nat)
    requires i <= |text| && LikeAt(text, "://", i) && Like(text[i + 3..], STABLE_PATH_PREFIX)
    ensures exists before, origin, after :: AbsoluteAt(text, before, origin, after)
  {
    var rest := text[i + 3..];
    NoUnderscores();
    LikeFound(text, "://", i);
    LikeIff(rest, STABLE_PATH_PREFIX);
    var origin, after :| Around(rest, origin, STABLE_PATH_PREFIX, after);
    assert text == text[..i] + "://" + (origin + STABLE_PATH_PREFIX + after);
    assert AbsoluteAt(text, text[..i], origin, after);
  }

  lemma NoUnderscores()
    ensures '_' !in GCS_HOST && '_' !in LOCAL_DOWNLOAD_PREFIX && '_' !in STABLE_PATH_PREFIX && '_' !in "://"
  {
  }

  /** The filter lets through exactly the texts that contain the storage host, the local download path, or
      a scheme with the application's path somewhere after it. */
  lemma MayHoldIff(text: string)
    ensures MayHoldStorageLink(text) <==>
      || (exists before, after :: Around(text, before, "storage.googleapis.com", after))
      || (exists before, after :: Around(text, before, "/api/local-storage/download/", after))
      || exists before, origin, after :: AbsoluteAt(text, before, origin, after)
  {
    NoUnderscores();
    LikeIff(text, GCS_HOST);
    LikeIff(text, LOCAL_DOWNLOAD_PREFIX);
    if i :| 0 <= i <= |text| && LikeAt(text, "://", i) && Like(text[i + 3..], STABLE_PATH_PREFIX) {
      AbsoluteFound(text, i);
    }
    if before, origin, after :| AbsoluteAt(text, before, origin, after) {
      AbsoluteHeld(text, before, origin, after);
    }
  }

  /** A link whose host is in capitals.  The canonical form lowers the host and claims the link when
      the path is a stored object's. */
  function Capitals(path: string): string { "](https://STORAGE.GOOGLEAPIS.COM/" + path + ")" }

  lemma CapitalsLack(path: string)
    requires 'g' !in path && 'w' !in path
    ensures 'g' !in Capitals(path) && 'w' !in Capitals(path)
  {
    LiteralLacks();
  }

  lemma LiteralLacks()
    ensures 'g' !in "](https://STORAGE.GOOGLEAPIS.COM/" && 'w' !in "](https://STORAGE.GOOGLEAPIS.COM/"
  {
  }

  lemma FilterLetters()
    ensures GCS_HOST[8] == 'g' && LOCAL_DOWNLOAD_PREFIX[21] == 'w' && STABLE_PATH_PREFIX[5] == 'w'
  {
  }

  lemma CapitalsNotHeld(path: string)
    requires 'g' !in path && 'w' !in path
    ensures !MayHoldStorageLink(Capitals(path))
  {
    var text := Capitals(path);
    CapitalsLack(path);
    FilterLetters();
    LikeNeeds(text, GCS_HOST, 8);
    LikeNeeds(text, LOCAL_DOWNLOAD_PREFIX, 21);
    forall i | 0 <= i <= |text| && LikeAt(text, "://", i) ensures !Like(text[i + 3..], STABLE_PATH_PREFIX) {
      LikeNeeds(text[i + 3..], STABLE_PATH_PREFIX, 5);
    }
  }

  /** Such a note is never listed and stays as it is, though nobody touches it. */
  lemma CapitalsMissed(found: Finds, db: Rows, events: seq<Event>, canonical: (Cell, string) -> string, normal: string -> string,
                       pk: int, path: string)
    requires 'g' !in path && 'w' !in path
    requires var cell := Cell(RowId("notes", pk), "content");
      ValueOf(db, cell) == Some(Capitals(path)) && canonical(cell, Capitals(path)) != Capitals(path)
    requires Lists(found, |SOURCES|, MayHoldStorageLink, canonical, Swaps(events))
    requires Steady(found, db, RowId("notes", pk)) && Quiet(events, RowId("notes", pk))
    ensures var cell := Cell(RowId("notes", pk), "content");
      Spares(Swaps(events), cell) && Pending(Run(db, events, normal), cell, canonical)
  {
    var cell := Cell(RowId("notes", pk), "content");
    CapitalsNotHeld(path);
    assert InSource(cell, 0) && SOURCES[0].columns == ["content"];
    ListedIff(found, db, MayHoldStorageLink, canonical, Swaps(events), cell, 0);
    PendingAfterPassIff(found, db, events, MayHoldStorageLink, canonical, normal, cell, 0);
  }

  function Link(path: string): string { "https://" + GCS_HOST + path }

  /** The text of a document whose first link is an attribute and whose second stands in a string. */
  function Doc(first: string, second: string): string {
    "{\"type\":\"doc\",\"attrs\":{\"src\":\"" + first + ("\"},\"x\":\"](" + second + ")\"}")
  }

  /** No JSON, because of the escape; so its second link alone is rewritten, as in plain text. */
  function BadEscape(path: string): string { Doc(Link(path), Link(path) + "?\\q") }

  lemma LinkHeld(before: string, path: string, after: string)
    ensures MayHoldStorageLink(before + Link(path) + after)
  {
    var head, tail := before + "https://", path + after;
    LikeInside(head, GCS_HOST, tail);
    assert before + Link(path) + after == head + GCS_HOST + tail;
  }

  lemma DocHeld(path: string, second: string)
    ensures MayHoldStorageLink(Doc(Link(path), second))
  {
    LinkHeld("{\"type\":\"doc\",\"attrs\":{\"src\":\"", path, "\"},\"x\":\"](" + second + ")\"}");
  }

  lemma MiddleDiffers(before: string, x: string, y: string, after: string)
    requires x != [] && y != [] && x[0] != y[0]
    ensures before + x + after != before + y + after
  {
    assert (before + x + after)[|before|] == x[0] && (before + y + after)[|before|] == y[0];
  }

  lemma DocDiffers(first: string, x: string, y: string)
    requires x != [] && y != [] && x[0] != y[0]
    ensures Doc(first, x) != Doc(first, y)
  {
    var head := "{\"type\":\"doc\",\"attrs\":{\"src\":\"" + first;
    var middle, tail := "\"},\"x\":\"](", ")\"}";
    MiddleDiffers(head + middle, x, y, tail);
    assert Doc(first, x) == head + middle + x + tail && Doc(first, y) == head + middle + y + tail;
  }

  /** What the first rewrite gives is a document, and now its other link is rewritten.  A note that
      holds the first is listed by the second discovery too, though nobody touches it. */
  lemma RewrittenTwice(found: Finds, db: Rows, events: seq<Event>, later: Finds, again: seq<Change>,
                       canonical: (Cell, string) -> string, normal: string -> string, pk: int, path: string, stable: string)
    requires STABLE_PATH_PREFIX <= stable
    requires var cell, once := Cell(RowId("notes", pk), "content"), Doc(Link(path), stable);
      ValueOf(db, cell) == Some(BadEscape(path)) && canonical(cell, BadEscape(path)) == once && canonical(cell, once) != once
    requires Lists(found, |SOURCES|, MayHoldStorageLink, canonical, Swaps(events))
    requires Lists(later, |SOURCES|, MayHoldStorageLink, canonical, again)
    requires Untouched(found, db, events, later, normal, RowId("notes", pk))
    ensures !Spares(again, Cell(RowId("notes", pk), "content"))
  {
    var cell := Cell(RowId("notes", pk), "content");
    DocHeld(path, stable);
    DocHeld(path, Link(path) + "?\\q");
    DocDiffers(Link(path), Link(path) + "?\\q", stable);
    NoteNeedsAgain(db, canonical, normal, cell);
    SecondRunIff(found, db, events, later, again, MayHoldStorageLink, canonical, normal, cell, 0);
  }

  lemma NoteNeedsAgain(db: Rows, canonical: (Cell, string) -> string, normal: string -> string, cell: Cell)
    requires cell.row.table == "notes" && cell.column == "content" && Holds(ValueOf(db, cell), MayHoldStorageLink)
    requires var text := ValueOf(db, cell).value; var once := canonical(cell, text);
      once != text && canonical(cell, once) != once && MayHoldStorageLink(once)
    ensures InSource(cell, 0) && NeedsAgain(db, cell, 0, MayHoldStorageLink, canonical, normal)
  {
    var columns := SOURCES[0].columns;
    assert columns[0] == cell.column && cell == Cell(cell.row, columns[0]);
    assert Selected(db, cell.row, columns, MayHoldStorageLink);
    assert !IsJson(cell);
    assert Holds(Left(db, Cell(cell.row, columns[0]), 0, MayHoldStorageLink, canonical, normal), MayHoldStorageLink);
  }

  // ------------------------------------------------------- a restore that reformats

  /** A definition's content, written without spaces and as json.dumps writes it. */
  function Compact(scope: string): string { "{\"scope\":\"" + scope + "\"}" }

  function Spaced(scope: string): string { "{\"scope\": \"" + scope + "\"}" }

  lemma CompactDiffers(scope: string)
    ensures Compact(scope) != Spaced(scope)
  {
    assert |Spaced(scope)| == |Compact(scope)| + 1;
  }

  /** A compact content with a link is discovered, rewritten and restored, and comes back with spaces. */
  lemma RestoreReformats(canonical: (Cell, string) -> string, normal: string -> string, path: string, stable: string)
    requires var before, after := Compact("](" + Link(path) + ")"), Spaced("](" + stable + ")");
      && normal(before) == Spaced("](" + Link(path) + ")") && normal(after) == after
      && canonical(Cell(RowId("definitions", 7), "content"), before) == after != before
    ensures var row, scope := RowId("definitions", 7), "](" + Link(path) + ")";
      var change := Change(row, "content", Compact(scope), Spaced("](" + stable + ")"), "discovered");
      var db: Rows := map[row := Row(map["content" := Compact(scope)], "discovered")];
      var restored := Run(db, [Swap(change)] + [Swap(Reversed([change])[0])], normal);
      && ReportsAt(db, SOURCES[3], MayHoldStorageLink, canonical, change)
      && ValueOf(restored, CellOf(change)) == Some(Spaced(scope)) != ValueOf(db, CellOf(change))
  {
    var row, scope := RowId("definitions", 7), "](" + Link(path) + ")";
    var change := Change(row, "content", Compact(scope), Spaced("](" + stable + ")"), "discovered");
    var db: Rows := map[row := Row(map["content" := Compact(scope)], "discovered")];
    CompactHeld(path);
    CompactDiffers(scope);
    assert SOURCES[3].columns[1] == "content" && Holds(ValueOf(db, Cell(row, SOURCES[3].columns[1])), MayHoldStorageLink);
    RestoreOne(db, change, normal);
  }

  lemma CompactHeld(path: string)
    ensures MayHoldStorageLink(Compact("](" + Link(path) + ")"))
  {
    var head, tail := "{\"scope\":\"](", ")\"}";
    LinkHeld(head, path, tail);
    assert Compact("](" + Link(path) + ")") == head + Link(path) + tail;
  }

  lemma OneSwap(change: Change)
    ensures Swaps([Swap(change)]) == [change]
  {
    assert [Swap(change)][1..] == [];
    assert Own(Swap(change)) + Swaps([]) == [change];
  }

  /** One change applied and restored. */
  lemma RestoreOne(db: Rows, change: Change, normal: string -> string)
    requires Matches(db, change) && Stored(CellOf(change), change.after, normal) == change.after
    ensures ValueOf(Run(db, [Swap(change)] + [Swap(Reversed([change])[0])], normal), CellOf(change)) ==
            Some(Stored(CellOf(change), change.before, normal))
  {
    var applying, restoring := [Swap(change)], [Swap(Reversed([change])[0])];
    OneSwap(change);
    OneSwap(Reversed([change])[0]);
    assert Reversed([change]) == [Reversed([change])[0]];
    RestoreGivesBack(db, applying, restoring, [change], 0, normal);
  }
}
