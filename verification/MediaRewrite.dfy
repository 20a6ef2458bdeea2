/** The one-off rewrite of stored media links (backend/scripts/rewrite_signed_media_links.py):
    compare-and-swap over a list of discovered changes, in batches, and its restore, while
    people edit the same rows.

    A history is a list of events: whole-row edits by anyone, and swaps by the script.
    `normal` is what storing a JSON text does to it (json.loads, then json.dumps). */
module MediaRewrite {

  import opened Options

  datatype RowId = RowId(table: string, pk: int)

  /** A column that is absent from `columns` is NULL. */
  datatype Row = Row(columns: map<string, string>, updatedAt: string)

  type Rows = map<RowId, Row>

  datatype Cell = Cell(row: RowId, column: string)

  datatype Change = Change(row: RowId, column: string, before: string, after: string, updatedAt: string)

  /** `Edit(row, None)` deletes the row, `Edit(row, Some(r))` inserts or replaces it. */
  datatype Event = Edit(row: RowId, content: Option<Row>) | Swap(change: Change)

  predicate IsJson(cell: Cell) { cell.row.table == "definitions" && cell.column == "content" }

  function CellOf(change: Change): Cell { Cell(change.row, change.column) }

  /** What ends up in the cell when `text` is written to it. */
  function Stored(cell: Cell, text: string, normal: string -> string): string {
    if IsJson(cell) then normal(text) else text
  }

  function ValueOf(rows: Rows, cell: Cell): Option<string> {
    if cell.row in rows && cell.column in rows[cell.row].columns then Some(rows[cell.row].columns[cell.column]) else None
  }

  predicate Matches(rows: Rows, change: Change) {
    ValueOf(rows, CellOf(change)) == Some(change.before)
  }

  function Exec(rows: Rows, event: Event, normal: string -> string): Rows {
    match event
    case Edit(row, content) => if content.Some? then rows[row := content.value] else rows - {row}
    case Swap(change) =>
      if Matches(rows, change)
      then rows[change.row := Row(rows[change.row].columns[change.column := Stored(CellOf(change), change.after, normal)], change.updatedAt)]
      else rows
  }

  function Run(rows: Rows, events: seq<Event>, normal: string -> string): Rows
    decreases |events|
  {
    if events == [] then rows else Run(Exec(rows, events[0], normal), events[1..], normal)
  }

  /** How many of the swaps in a history find the value they expect. */
  function AppliedCount(rows: Rows, events: seq<Event>, normal: string -> string): nat
    decreases |events|
  {
    if events == [] then 0
    else (if events[0].Swap? && Matches(rows, events[0].change) then 1 else 0)
         + AppliedCount(Exec(rows, events[0], normal), events[1..], normal)
  }

  function Own(event: Event): seq<Change> {
    if event.Swap? then [event.change] else []
  }

  /** The script's own steps in a history, in order. */
  function Swaps(events: seq<Event>): seq<Change> {
    if events == [] then [] else Own(events[0]) + Swaps(events[1..])
  }

  /** The changes that undo a list of changes, as the restore builds them. */
  function Reversed(changes: seq<Change>): seq<Change> {
    seq(|changes|, i requires 0 <= i < |changes| => changes[i].(before := changes[i].after, after := changes[i].before))
  }

  // --------------------------------------------------------- the script itself

  /** `edits[i]` is what people commit just before the i-th swap. */
  function Interleaved(changes: seq<Change>, edits: seq<seq<Event>>): seq<Event>
    requires |edits| == |changes|
  {
    if changes == [] then []
    else Interleaved(changes[..|changes| - 1], edits[..|changes| - 1]) + edits[|changes| - 1] + [Swap(changes[|changes| - 1])]
  }

  lemma {:induction false} RunAppend(rows: Rows, a: seq<Event>, b: seq<Event>, normal: string -> string)
    ensures Run(rows, a + b, normal) == Run(Run(rows, a, normal), b, normal)
    ensures AppliedCount(rows, a + b, normal) == AppliedCount(rows, a, normal) + AppliedCount(Run(rows, a, normal), b, normal)
    decreases |a|
  {
    if a == [] {
      assert a + b == b;
    } else {
      assert (a + b)[1..] == a[1..] + b;
      RunAppend(Exec(rows, a[0], normal), a[1..], b, normal);
    }
  }

  lemma {:induction false} SwapsAppend(a: seq<Event>, b: seq<Event>)
    ensures Swaps(a + b) == Swaps(a) + Swaps(b)
  {
    if a == [] {
      assert a + b == b;
    } else {
      assert (a + b)[1..] == a[1..] + b;
      SwapsAppend(a[1..], b);
      assert Own(a[0]) + (Swaps(a[1..]) + Swaps(b)) == Own(a[0]) + Swaps(a[1..]) + Swaps(b);
    }
  }

  lemma SwapsOfAttempt(earlier: seq<Event>, edits: seq<Event>, change: Change)
    requires Swaps(edits) == []
    ensures Swaps(earlier + edits + [Swap(change)]) == Swaps(earlier) + [change]
  {
    SwapsAppend(earlier + edits, [Swap(change)]);
    SwapsAppend(earlier, edits);
  }

  /** Across any batches the script tries every change exactly once, in order. */
  lemma {:induction false} EachChangeTriedOnce(changes: seq<Change>, edits: seq<seq<Event>>)
    requires |edits| == |changes|
    requires forall i | 0 <= i < |edits| :: Swaps(edits[i]) == []
    ensures Swaps(Interleaved(changes, edits)) == changes
  {
    if changes != [] {
      var n := |changes| - 1;
      var earlier := Interleaved(changes[..n], edits[..n]);
      EachChangeTriedOnce(changes[..n], edits[..n]);
      SwapsOfAttempt(earlier, edits[n], changes[n]);
      assert changes == changes[..n] + [changes[n]];
    }
  }

  /** The swaps of a history that find the value they expect. */
  ghost function AppliedAt(rows: Rows, events: seq<Event>, normal: string -> string): set<nat> {
    set k: nat | k < |events| && events[k].Swap? && Matches(Run(rows, events[..k], normal), events[k].change)
  }

  lemma AppliedFirst(rows: Rows, events: seq<Event>, normal: string -> string, k: nat)
    requires 0 < k < |events|
    ensures k in AppliedAt(rows, events, normal) <==> k - 1 in AppliedAt(Exec(rows, events[0], normal), events[1..], normal)
  {
    assert events[..k][1..] == events[1..][..k - 1] && events[1..][k - 1] == events[k];
  }

  /** The count is of the swaps that find, when their turn comes, the value they expect. */
  lemma {:induction false} AppliedCountMeans(rows: Rows, events: seq<Event>, normal: string -> string)
    ensures AppliedCount(rows, events, normal) == |AppliedAt(rows, events, normal)|
    decreases |events|
  {
    if events == [] {
      assert AppliedAt(rows, events, normal) == {};
    } else {
      var next, rest := Exec(rows, events[0], normal), events[1..];
      AppliedCountMeans(next, rest, normal);
      var later := AppliedAt(next, rest, normal);
      var first: set<nat> := if 0 in AppliedAt(rows, events, normal) then {0} else {};
      forall k: nat ensures k in AppliedAt(rows, events, normal) <==> k in first || (k > 0 && k - 1 in later) {
        if 0 < k < |events| { AppliedFirst(rows, events, normal, k); }
      }
      assert AppliedAt(rows, events, normal) == first + Shifted(later);
      ShiftedSize(later);
      assert events[..0] == [];
    }
  }

  ghost function Shifted(s: set<nat>): set<nat> { set k: nat | k in s :: k + 1 }

  lemma {:induction false} ShiftedSize(s: set<nat>)
    ensures |Shifted(s)| == |s| && 0 !in Shifted(s)
  {
    if s != {} {
      var k: nat :| k in s;
      ShiftedSize(s - {k});
      assert s == (s - {k}) + {k};
      forall m | m in Shifted(s) ensures m in Shifted(s - {k}) + {k + 1} {
        var j: nat :| j in s && m == j + 1;
        assert j == k || j in s - {k};
      }
      assert Shifted(s) == Shifted(s - {k}) + {k + 1};
    }
  }

  /** What people do in a history, in order. */
  function Edited(events: seq<Event>): seq<Event> {
    if events == [] then [] else (if events[0].Swap? then [] else [events[0]]) + Edited(events[1..])
  }

  function Flat(edits: seq<seq<Event>>): seq<Event> {
    if edits == [] then [] else Flat(edits[..|edits| - 1]) + edits[|edits| - 1]
  }

  lemma {:induction false} EditedAppend(a: seq<Event>, b: seq<Event>)
    ensures Edited(a + b) == Edited(a) + Edited(b)
  {
    if a == [] {
      assert a + b == b;
    } else {
      assert (a + b)[1..] == a[1..] + b;
      EditedAppend(a[1..], b);
      var first := if a[0].Swap? then [] else [a[0]];
      assert first + (Edited(a[1..]) + Edited(b)) == first + Edited(a[1..]) + Edited(b);
    }
  }

  lemma {:induction false} OnlyEdits(edits: seq<Event>)
    requires Swaps(edits) == []
    ensures Edited(edits) == edits
  {
    if edits != [] {
      assert !edits[0].Swap?;
      OnlyEdits(edits[1..]);
      assert edits == [edits[0]] + edits[1..];
    }
  }

  lemma EditedAttempt(earlier: seq<Event>, edits: seq<Event>, change: Change)
    requires Swaps(edits) == []
    ensures Edited(earlier + edits + [Swap(change)]) == Edited(earlier) + edits
  {
    EditedAppend(earlier + edits, [Swap(change)]);
    EditedAppend(earlier, edits);
    OnlyEdits(edits);
    assert Edited([Swap(change)]) == [];
  }

  /** Nobody's edit is lost: the history holds all of them, in order. */
  lemma {:induction false} EditsInOrder(changes: seq<Change>, edits: seq<seq<Event>>)
    requires |edits| == |changes|
    requires forall i | 0 <= i < |edits| :: Swaps(edits[i]) == []
    ensures Edited(Interleaved(changes, edits)) == Flat(edits)
  {
    if changes != [] {
      var n := |changes| - 1;
      EditsInOrder(changes[..n], edits[..n]);
      EditedAttempt(Interleaved(changes[..n], edits[..n]), edits[n], changes[n]);
    }
  }

  /** The edits given for a change come right before it: a shorter pass is the beginning of a longer one. */
  lemma {:induction false} PassBegins(changes: seq<Change>, edits: seq<seq<Event>>, n: nat)
    requires n < |changes| == |edits|
    ensures Interleaved(changes[..n], edits[..n]) + edits[n] + [Swap(changes[n])] <= Interleaved(changes, edits)
  {
    var m := |changes| - 1;
    if n < m {
      PassBegins(changes[..m], edits[..m], n);
      assert changes[..m][..n] == changes[..n] && edits[..m][..n] == edits[..n];
    }
  }

  class Database {
    var rows: Rows
    const normal: string -> string

    constructor (rows: Rows, normal: string -> string)
      ensures this.rows == rows && this.normal == normal
    {
      this.rows, this.normal := rows, normal;
    }

    method CompareAndSwap(change: Change) returns (swapped: bool)
      modifies this
      ensures rows == Exec(old(rows), Swap(change), normal)
      ensures swapped == Matches(old(rows), change)
    {
      swapped := Matches(rows, change);
      if swapped {
        var row := rows[change.row];
        var text := if IsJson(CellOf(change)) then normal(change.after) else change.after;
        rows := rows[change.row := Row(row.columns[change.column := text], change.updatedAt)];
      }
    }

    method Commit(edits: seq<Event>)
      modifies this
      ensures rows == Run(old(rows), edits, normal)
    {
      for i := 0 to |edits|
        invariant Run(old(rows), edits, normal) == Run(rows, edits[i..], normal)
      {
        rows := Exec(rows, edits[i], normal);
      }
    }

    ghost predicate Progress(start: Rows, changes: seq<Change>, edits: seq<seq<Event>>, n: nat, applied: nat, skipped: nat)
      requires n <= |changes| == |edits|
      reads this
    {
      var done := Interleaved(changes[..n], edits[..n]);
      applied + skipped == n && rows == Run(start, done, normal) && applied == AppliedCount(start, done, normal)
    }

    method Attempt(ghost start: Rows, changes: seq<Change>, edits: seq<seq<Event>>, n: nat, applied: nat, skipped: nat)
      returns (applied': nat, skipped': nat)
      requires n < |changes| == |edits| && Progress(start, changes, edits, n, applied, skipped)
      requires Swaps(edits[n]) == []
      modifies this
      ensures Progress(start, changes, edits, n + 1, applied', skipped')
    {
      ghost var done := Interleaved(changes[..n], edits[..n]);
      Commit(edits[n]);
      var swapped := CompareAndSwap(changes[n]);
      if swapped { applied', skipped' := applied + 1, skipped; } else { applied', skipped' := applied, skipped + 1; }
      assert changes[..n + 1][..n] == changes[..n] && edits[..n + 1][..n] == edits[..n];
      EditsApplyNothing(Run(start, done, normal), edits[n], normal);
      RunAppend(start, done + edits[n], [Swap(changes[n])], normal);
      RunAppend(start, done, edits[n], normal);
    }

    /** Returns the counts, or `failed` for the batch size Python's range refuses. */
    method ApplyChanges(changes: seq<Change>, edits: seq<seq<Event>>, batchSize: int) returns (failed: bool, applied: nat, skipped: nat)
      requires |edits| == |changes| && forall i | 0 <= i < |edits| :: Swaps(edits[i]) == []
      modifies this
      ensures failed <==> batchSize == 0
      ensures batchSize > 0 ==>
        && rows == Run(old(rows), Interleaved(changes, edits), normal)
        && applied == AppliedCount(old(rows), Interleaved(changes, edits), normal)
        && applied + skipped == |changes|
      ensures batchSize <= 0 ==> rows == old(rows) && applied == skipped == 0
    {
      applied, skipped := 0, 0;
      if batchSize <= 0 { return batchSize == 0, 0, 0; }
      ghost var start := rows;
      var from := 0;
      while from < |changes|
        invariant 0 <= from
        invariant Progress(start, changes, edits, if from < |changes| then from else |changes|, applied, skipped)
        decreases |changes| - from
      {
        var end := if from + batchSize < |changes| then from + batchSize else |changes|;
        var n := from;
        while n < end
          invariant from <= n <= end && Progress(start, changes, edits, n, applied, skipped)
        {
          applied, skipped := Attempt(start, changes, edits, n, applied, skipped);
          n := n + 1;
        }
        from := from + batchSize;
      }
      assert changes[..|changes|] == changes && edits[..|changes|] == edits;
      failed := false;
    }
  }

  lemma {:induction false} EditsApplyNothing(rows: Rows, edits: seq<Event>, normal: string -> string)
    requires Swaps(edits) == []
    ensures AppliedCount(rows, edits, normal) == 0
    decreases |edits|
  {
    if edits != [] { EditsApplyNothing(Exec(rows, edits[0], normal), edits[1..], normal); }
  }

  // ------------------------------------------------------ what a cell goes through

  /** Does this event write the cell's row as a whole? */
  predicate Edits(event: Event, row: RowId) { event.Edit? && event.row == row }

  function EditedValue(event: Event, cell: Cell): Option<string>
    requires event.Edit?
  {
    if event.content.Some? && cell.column in event.content.value.columns then Some(event.content.value.columns[cell.column]) else None
  }

  /** The cell after people's edits alone. */
  function LastEdit(value: Option<string>, events: seq<Event>, cell: Cell): Option<string>
    decreases |events|
  {
    if events == [] then value
    else LastEdit(if Edits(events[0], cell.row) then EditedValue(events[0], cell) else value, events[1..], cell)
  }

  /** A swap of one value, as the cell sees it. */
  function Swapped(value: Option<string>, change: Change, normal: string -> string): Option<string> {
    if value == Some(change.before) then Some(Stored(CellOf(change), change.after, normal)) else value
  }

  lemma ExecOnCell(rows: Rows, event: Event, cell: Cell, normal: string -> string)
    ensures ValueOf(Exec(rows, event, normal), cell) ==
            if Edits(event, cell.row) then EditedValue(event, cell)
            else if event.Swap? && CellOf(event.change) == cell then Swapped(ValueOf(rows, cell), event.change, normal)
            else ValueOf(rows, cell)
  {
  }

  predicate Spares(changes: seq<Change>, cell: Cell) {
    forall i | 0 <= i < |changes| :: CellOf(changes[i]) != cell
  }

  lemma SparedFirst(events: seq<Event>, cell: Cell)
    requires events != [] && Spares(Swaps(events), cell)
    ensures Spares(Swaps(events[1..]), cell) && (events[0].Swap? ==> CellOf(events[0].change) != cell)
  {
    var own := Own(events[0]);
    assert forall i | 0 <= i < |own| :: own[i] == Swaps(events)[i];
    assert forall i | 0 <= i < |Swaps(events[1..])| :: Swaps(events[1..])[i] == Swaps(events)[|own| + i];
  }

  /** A cell that no change names only ever holds what people put there. */
  lemma {:induction false} OthersUntouched(rows: Rows, events: seq<Event>, cell: Cell, normal: string -> string)
    requires Spares(Swaps(events), cell)
    ensures ValueOf(Run(rows, events, normal), cell) == LastEdit(ValueOf(rows, cell), events, cell)
    decreases |events|
  {
    if events != [] {
      ExecOnCell(rows, events[0], cell, normal);
      SparedFirst(events, cell);
      OthersUntouched(Exec(rows, events[0], normal), events[1..], cell, normal);
    }
  }

  lemma {:induction false} FindSwap(events: seq<Event>, i: nat) returns (k: nat)
    requires i < |Swaps(events)|
    ensures k < |events| && events[k].Swap? && |Swaps(events[..k])| == i
  {
    var n := |events| - 1;
    var earlier := events[..n];
    assert events == earlier + [events[n]];
    SwapsAppend(earlier, [events[n]]);
    if i < |Swaps(earlier)| {
      k := FindSwap(earlier, i);
      assert events[..k] == earlier[..k];
    } else {
      k := n;
    }
  }

  /** Where in a history the i-th change is tried: once, after the earlier ones and before the later ones. */
  lemma SplitAt(events: seq<Event>, i: nat) returns (k: nat)
    requires i < |Swaps(events)|
    ensures k < |events| && events[k] == Swap(Swaps(events)[i])
    ensures Swaps(events[..k]) == Swaps(events)[..i] && Swaps(events[k + 1..]) == Swaps(events)[i + 1..]
  {
    k := FindSwap(events, i);
    var a, b := events[..k], events[k + 1..];
    assert events == a + ([events[k]] + b);
    SwapsAppend(a, [events[k]] + b);
    SwapsAppend([events[k]], b);
  }

  ghost predicate DistinctCells(changes: seq<Change>) {
    forall i, j | 0 <= i < j < |changes| :: CellOf(changes[i]) != CellOf(changes[j])
  }

  /** One change's cell through one pass of the script, whatever people do meanwhile: their
      edits before the swap (the first `k` events), the swap if the cell still holds what was
      discovered, their edits after it. */
  lemma PassOnCell(rows: Rows, events: seq<Event>, i: nat, normal: string -> string) returns (k: nat)
    requires DistinctCells(Swaps(events)) && i < |Swaps(events)|
    ensures k < |events| && events[k] == Swap(Swaps(events)[i])
    ensures var change := Swaps(events)[i];
      var cell := CellOf(change);
      var found := LastEdit(ValueOf(rows, cell), events[..k], cell);
      ValueOf(Run(rows, events, normal), cell) == LastEdit(Swapped(found, change, normal), events[k + 1..], cell)
  {
    k := SplitAt(events, i);
    var change := Swaps(events)[i];
    var cell := CellOf(change);
    var middle := Run(rows, events[..k], normal);
    OthersUntouched(rows, events[..k], cell, normal);
    ExecOnCell(middle, events[k], cell, normal);
    OthersUntouched(Exec(middle, events[k], normal), events[k + 1..], cell, normal);
    RunThrough(rows, events, k, normal);
  }

  lemma RunThrough(rows: Rows, events: seq<Event>, k: nat, normal: string -> string)
    requires k < |events|
    ensures Run(rows, events, normal) == Run(Exec(Run(rows, events[..k], normal), events[k], normal), events[k + 1..], normal)
  {
    assert events == events[..k] + events[k..];
    RunAppend(rows, events[..k], events[k..], normal);
    assert events[k..][1..] == events[k + 1..];
  }

  // --------------------------------------------------------- apply, then restore

  predicate Quiet(events: seq<Event>, row: RowId) {
    forall i | 0 <= i < |events| :: !Edits(events[i], row)
  }

  lemma {:induction false} QuietKeeps(value: Option<string>, events: seq<Event>, cell: Cell)
    requires Quiet(events, cell.row)
    ensures LastEdit(value, events, cell) == value
    decreases |events|
  {
    if events != [] { QuietKeeps(value, events[1..], cell); }
  }

  /** A pass over a row nobody edits: the cell is swapped exactly if it held what was expected. */
  lemma QuietPass(rows: Rows, events: seq<Event>, i: nat, normal: string -> string)
    requires DistinctCells(Swaps(events)) && i < |Swaps(events)| && Quiet(events, Swaps(events)[i].row)
    ensures var change := Swaps(events)[i];
      ValueOf(Run(rows, events, normal), CellOf(change)) == Swapped(ValueOf(rows, CellOf(change)), change, normal)
  {
    var k := PassOnCell(rows, events, i, normal);
    var cell := CellOf(Swaps(events)[i]);
    QuietKeeps(ValueOf(rows, cell), events[..k], cell);
    QuietKeeps(Swapped(ValueOf(rows, cell), Swaps(events)[i], normal), events[k + 1..], cell);
  }

  lemma ReversedDistinct(changes: seq<Change>)
    requires DistinctCells(changes)
    ensures DistinctCells(Reversed(changes))
  {
  }

  /** Apply then restore, both interleaved with edits of other rows: a cell that still held the
      discovered text is rewritten and put back.  What is put back is the discovered text
      exactly when storing that text does not reformat it. */
  lemma RestoreGivesBack(rows: Rows, applying: seq<Event>, restoring: seq<Event>, changes: seq<Change>, i: nat, normal: string -> string)
    requires Swaps(applying) == changes && Swaps(restoring) == Reversed(changes) && DistinctCells(changes) && i < |changes|
    requires Quiet(applying, changes[i].row) && Quiet(restoring, changes[i].row)
    requires Matches(rows, changes[i]) && Stored(CellOf(changes[i]), changes[i].after, normal) == changes[i].after
    ensures var cell := CellOf(changes[i]);
      var applied := Run(rows, applying, normal);
      var restored := Run(rows, applying + restoring, normal);
      && ValueOf(applied, cell) == Some(changes[i].after)
      && ValueOf(restored, cell) == Some(Stored(cell, changes[i].before, normal))
      && (ValueOf(restored, cell) == ValueOf(rows, cell) <==> Stored(cell, changes[i].before, normal) == changes[i].before)
  {
    RunAppend(rows, applying, restoring, normal);
    QuietPass(rows, applying, i, normal);
    ReversedDistinct(changes);
    QuietPass(Run(rows, applying, normal), restoring, i, normal);
  }

  /** An apply cut off after any number of changes, then the restore of the whole snapshot: the cells
      it reached are put back and the others were never changed. */
  lemma RestoreAfterCutOff(rows: Rows, applying: seq<Event>, restoring: seq<Event>, changes: seq<Change>, n: nat, i: nat, normal: string -> string)
    requires n <= |changes| && Swaps(applying) == changes[..n] && Swaps(restoring) == Reversed(changes)
    requires DistinctCells(changes) && i < |changes|
    requires Quiet(applying, changes[i].row) && Quiet(restoring, changes[i].row)
    requires Matches(rows, changes[i]) && changes[i].before != changes[i].after
    requires Stored(CellOf(changes[i]), changes[i].after, normal) == changes[i].after
    ensures ValueOf(Run(rows, applying + restoring, normal), CellOf(changes[i])) ==
            Some(if i < n then Stored(CellOf(changes[i]), changes[i].before, normal) else changes[i].before)
  {
    var cell := CellOf(changes[i]);
    RunAppend(rows, applying, restoring, normal);
    if i < n {
      QuietPass(rows, applying, i, normal);
    } else {
      assert Spares(changes[..n], cell);
      OthersUntouched(rows, applying, cell, normal);
      QuietKeeps(ValueOf(rows, cell), applying, cell);
    }
    ReversedDistinct(changes);
    QuietPass(Run(rows, applying, normal), restoring, i, normal);
  }

  /** The restore leaves a cell alone unless it holds exactly what the rewrite wrote. */
  lemma RestoreLeavesEdits(rows: Rows, restoring: seq<Event>, changes: seq<Change>, i: nat, normal: string -> string)
    requires Swaps(restoring) == Reversed(changes) && DistinctCells(changes) && i < |changes|
    requires Quiet(restoring, changes[i].row)
    ensures var cell := CellOf(changes[i]);
      ValueOf(Run(rows, restoring, normal), cell) ==
      if ValueOf(rows, cell) == Some(changes[i].after) then Some(Stored(cell, changes[i].before, normal)) else ValueOf(rows, cell)
  {
    ReversedDistinct(changes);
    QuietPass(rows, restoring, i, normal);
  }

  // ----------------------------------------------------------------- updated_at

  /** Every swap of this row carries the same timestamp. */
  predicate StampedWith(events: seq<Event>, row: RowId, stamp: string) {
    forall i | 0 <= i < |events| :: events[i].Swap? && events[i].change.row == row ==> events[i].change.updatedAt == stamp
  }

  /** While nobody edits the row, its timestamp stays the discovered one. */
  lemma {:induction false} StampKept(rows: Rows, events: seq<Event>, row: RowId, normal: string -> string)
    requires row in rows && Quiet(events, row) && StampedWith(events, row, rows[row].updatedAt)
    ensures var after := Run(rows, events, normal); row in after && after[row].updatedAt == rows[row].updatedAt
    decreases |events|
  {
    if events != [] { StampKept(Exec(rows, events[0], normal), events[1..], row, normal); }
  }

  /** Every change of this row was discovered with the same timestamp. */
  predicate DiscoveredWith(changes: seq<Change>, row: RowId, stamp: string) {
    forall i | 0 <= i < |changes| && changes[i].row == row :: changes[i].updatedAt == stamp
  }

  lemma {:induction false} SwapsStamped(events: seq<Event>, row: RowId, stamp: string)
    requires DiscoveredWith(Swaps(events), row, stamp)
    ensures StampedWith(events, row, stamp)
  {
    if events != [] {
      var rest := Swaps(events[1..]);
      assert Swaps(events) == Own(events[0]) + rest;
      assert forall i | 0 <= i < |rest| :: rest[i] == Swaps(events)[|Own(events[0])| + i];
      assert events[0].Swap? ==> Swaps(events)[0] == events[0].change;
      SwapsStamped(events[1..], row, stamp);
    }
  }

  /** Apply then restore, other rows edited meanwhile: the row has the timestamp it had. */
  lemma RestoreKeepsStamp(rows: Rows, applying: seq<Event>, restoring: seq<Event>, changes: seq<Change>, row: RowId, normal: string -> string)
    requires Swaps(applying) == changes && Swaps(restoring) == Reversed(changes)
    requires row in rows && Quiet(applying, row) && Quiet(restoring, row) && DiscoveredWith(changes, row, rows[row].updatedAt)
    ensures var restored := Run(rows, applying + restoring, normal);
      row in restored && restored[row].updatedAt == rows[row].updatedAt
  {
    var stamp := rows[row].updatedAt;
    assert DiscoveredWith(Reversed(changes), row, stamp);
    SwapsStamped(applying, row, stamp);
    SwapsStamped(restoring, row, stamp);
    RunAppend(rows, applying, restoring, normal);
    StampKept(rows, applying, row, normal);
    StampKept(Run(rows, applying, normal), restoring, row, normal);
  }

  /** A swap that applies leaves the timestamp recorded at discovery, whatever it was just before:
      it is unchanged exactly when no edit of another column had moved it. */
  lemma StampIsTheDiscoveredOne(rows: Rows, events: seq<Event>, k: nat, normal: string -> string)
    requires k < |events| && events[k].Swap? && Matches(Run(rows, events[..k], normal), events[k].change)
    requires Quiet(events[k + 1..], events[k].change.row)
    requires StampedWith(events, events[k].change.row, events[k].change.updatedAt)
    ensures var row := events[k].change.row;
      var found, after := Run(rows, events[..k], normal), Run(rows, events, normal);
      && row in found && row in after && after[row].updatedAt == events[k].change.updatedAt
      && (after[row].updatedAt == found[row].updatedAt <==> found[row].updatedAt == events[k].change.updatedAt)
  {
    RunThrough(rows, events, k, normal);
    var middle := Exec(Run(rows, events[..k], normal), events[k], normal);
    StampKept(middle, events[k + 1..], events[k].change.row, normal);
  }

  /** The timestamp is rewound when another column was edited after discovery. */
  lemma StampRewound(normal: string -> string)
    ensures var row := RowId("definitions", 7);
      var edited := Row(map["scope" := "old link", "content" := "edited"], "later");
      var change := Change(row, "scope", "old link", "new link", "discovered");
      Exec(map[row := edited], Swap(change), normal) ==
      map[row := Row(map["scope" := "new link", "content" := "edited"], "discovered")]
  {
    var edited := Row(map["scope" := "old link", "content" := "edited"], "later");
    assert edited.columns["scope" := "new link"] == map["scope" := "new link", "content" := "edited"];
  }
}
