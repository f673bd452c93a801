/** What a migration pass achieves, and when it does not. */
module MigrationFacts {
  import opened Prelude
  import opened Sealing
  import opened Migration

  /** Nothing is left to do for a row: it is empty, does not open, or is sealed under the current key. */
  predicate Settled(c: Cipher, row: Row) {
    || IsEmpty(row.stored) || Unreadable(c, row)
    || (row.stored.Envelope? && row.stored.key == c.current && row.stored.place == row.place)
  }

  lemma ResealSettles(c: Cipher, row: Row)
    ensures var after := Reseal(c, row);
      && Settled(c, after) && !NeedsReseal(c, after)
      && Read(Some(c), row.place, after.stored) == Read(Some(c), row.place, row.stored)
      && (Unreadable(c, after) <==> Unreadable(c, row))
      && (Unreadable(c, row) || IsEmpty(row.stored) ==> after == row)
      && after.key == row.key && after.place == row.place && after.written == row.written
  {
  }

  lemma {:induction false} CountsAreZeroExactly(c: Cipher, rows: seq<Row>)
    ensures CountUnreadable(c, rows) == 0 <==> forall i :: 0 <= i < |rows| ==> !Unreadable(c, rows[i])
    ensures CountReseal(c, rows) == 0 <==> forall i :: 0 <= i < |rows| ==> !NeedsReseal(c, rows[i])
  {
    hide Unreadable, NeedsReseal;
    if rows != [] {
      var n := |rows| - 1;
      CountsAreZeroExactly(c, rows[..n]);
      assert forall i :: 0 <= i < n ==> rows[..n][i] == rows[i];
    }
  }

  lemma {:induction false} CountsSame(c: Cipher, a: seq<Row>, b: seq<Row>)
    requires |a| == |b| && forall i :: 0 <= i < |a| ==> (Unreadable(c, a[i]) <==> Unreadable(c, b[i]))
    ensures CountUnreadable(c, a) == CountUnreadable(c, b)
  {
    hide Unreadable;
    if a != [] { CountsSame(c, a[..|a| - 1], b[..|b| - 1]); }
  }

  /** The rows from the cursor on are settled, those before it and the values of all of them are what
      they were. */
  lemma PassSettles(c: Cipher, col: Column, retiredLeft: bool)
    requires !Skipped(col, retiredLeft)
    ensures var (after, resealed, unreadable) := MigrateColumn(c, col, retiredLeft);
      var from := Passed(col.rows, StartCursor(col));
      && |after.rows| == |col.rows| && after.rows[..from] == col.rows[..from]
      && after.state == Some(ColumnState(Sealed, None, c.current))
      && (forall i :: from <= i < |col.rows| ==> Settled(c, after.rows[i]) && !NeedsReseal(c, after.rows[i]))
      && (forall i :: 0 <= i < |col.rows| ==>
            && after.rows[i].key == col.rows[i].key && after.rows[i].place == col.rows[i].place
            && (Unreadable(c, after.rows[i]) <==> Unreadable(c, col.rows[i]))
            && Read(Some(c), col.rows[i].place, after.rows[i].stored) == Read(Some(c), col.rows[i].place, col.rows[i].stored))
      && unreadable == CountUnreadable(c, after.rows[from..])
  {
    hide Settled, NeedsReseal, Unreadable, Read, Reseal, Skipped, CountReseal, CountUnreadable, Passed;
    var after := MigrateColumn(c, col, retiredLeft).0;
    var from := Passed(col.rows, StartCursor(col));
    PassRows(c, col.rows, from);
    assert after.rows == col.rows[..from] + ResealAll(c, col.rows[from..]);
    hide MigrateColumn, ResealAll;
    forall i | 0 <= i < |col.rows| { ResealSettles(c, col.rows[i]); }
    CountsSame(c, col.rows[from..], after.rows[from..]);
  }

  lemma PassRows(c: Cipher, rows: seq<Row>, from: nat)
    requires from <= |rows|
    ensures var after := rows[..from] + ResealAll(c, rows[from..]);
      && |after| == |rows| && after[..from] == rows[..from]
      && (forall i :: 0 <= i < from ==> after[i] == rows[i])
      && forall i :: from <= i < |rows| ==> after[i] == Reseal(c, rows[i])
  {
    hide Reseal;
  }

  /** From a null cursor, every non-empty value ends sealed under the current key or counted unreadable. */
  lemma FullPassSettlesAll(c: Cipher, col: Column, retiredLeft: bool)
    requires !Skipped(col, retiredLeft) && StartCursor(col).None?
    ensures var (after, _, unreadable) := MigrateColumn(c, col, retiredLeft);
      && (forall i :: 0 <= i < |after.rows| ==> Settled(c, after.rows[i]))
      && unreadable == CountUnreadable(c, after.rows)
  {
    hide Settled, NeedsReseal, Unreadable, Read, Skipped, CountUnreadable, MigrateColumn;
    PassSettles(c, col, retiredLeft);
    var after := MigrateColumn(c, col, retiredLeft).0;
    assert after.rows[0..] == after.rows;
  }

  /** A second pass, whether or not it looks at the column, reseals nothing and changes no row. */
  lemma SecondPassIsIdle(c: Cipher, col: Column, retiredLeft: bool, again: bool)
    requires !Skipped(col, retiredLeft) && StartCursor(col).None?
    ensures var after := MigrateColumn(c, col, retiredLeft).0;
      MigrateColumn(c, after, again).0.rows == after.rows && MigrateColumn(c, after, again).1 == 0
  {
    PassSettles(c, col, retiredLeft);
    var after := MigrateColumn(c, col, retiredLeft).0;
    hide MigrateColumn, Settled, NeedsReseal, Unreadable, Read, CountUnreadable, CountReseal;
    if !Skipped(after, again) { SettledStays(c, after, again); }
    else { SkippedStays(c, after, again); }
  }

  lemma SkippedStays(c: Cipher, col: Column, retiredLeft: bool)
    requires Skipped(col, retiredLeft)
    ensures MigrateColumn(c, col, retiredLeft) == (col, 0, 0)
  {
  }

  lemma SettledStays(c: Cipher, col: Column, retiredLeft: bool)
    requires !Skipped(col, retiredLeft) && StartCursor(col).None?
    requires forall i :: 0 <= i < |col.rows| ==> !NeedsReseal(c, col.rows[i])
    ensures MigrateColumn(c, col, retiredLeft).0.rows == col.rows && MigrateColumn(c, col, retiredLeft).1 == 0
  {
    hide NeedsReseal, Unreadable, CountUnreadable, CountReseal, Skipped;
    assert col.rows[0..] == col.rows;
    CountsAreZeroExactly(c, col.rows);
    assert ResealAll(c, col.rows) == col.rows;
  }

  // ---- The key a retired store records -----------------------------------------------------------

  /** A row that a pass over the store looks at when it scans every column. */
  ghost predicate Scanned(cols: seq<Column>, k: int, i: int) {
    0 <= k < |cols| && Passed(cols[k].rows, StartCursor(cols[k])) <= i < |cols[k].rows|
  }

  /** A pass that scans every column counts nothing unreadable if and only if no row from the saved
      cursors on is. Rows before a saved cursor are not looked at. */
  lemma {:induction false} NothingUnreadableExactly(c: Cipher, cols: seq<Column>)
    ensures MigrateColumns(c, cols, true).2 == 0
      <==> forall k, i :: Scanned(cols, k, i) ==> !Unreadable(c, cols[k].rows[i])
  {
    hide Unreadable, MigrateColumn, Scanned;
    if cols != [] {
      var n := |cols| - 1;
      NothingUnreadableExactly(c, cols[..n]);
      ColumnCountsExactly(c, cols, n);
      forall k, i ensures Scanned(cols, k, i) <==> Scanned(cols[..n], k, i) || (k == n && Scanned(cols, n, i)) {
        ScannedPrefix(cols, n, k, i);
      }
      forall k, i | Scanned(cols[..n], k, i) ensures 0 <= k < n && 0 <= i < |cols[k].rows| { ScannedPrefix(cols, n, k, i); }
    } else {
      forall k, i ensures !Scanned(cols, k, i) { NoneScanned(cols, k, i); }
    }
  }

  lemma NoneScanned(cols: seq<Column>, k: int, i: int)
    ensures Scanned(cols, k, i) ==> 0 <= k < |cols| && 0 <= i < |cols[k].rows|
  {
  }

  lemma ScannedPrefix(cols: seq<Column>, n: nat, k: int, i: int)
    requires n + 1 == |cols|
    ensures Scanned(cols, k, i) <==> Scanned(cols[..n], k, i) || (k == n && Scanned(cols, n, i))
    ensures Scanned(cols[..n], k, i) ==> 0 <= k < n && 0 <= i < |cols[k].rows|
  {
    hide Passed, StartCursor;
    if 0 <= k < n { assert cols[..n][k] == cols[k]; }
  }

  lemma ColumnCountsExactly(c: Cipher, cols: seq<Column>, k: nat)
    requires k < |cols|
    ensures forall i :: Scanned(cols, k, i) ==> 0 <= i < |cols[k].rows|
    ensures MigrateColumn(c, cols[k], true).2 == 0 <==> forall i :: Scanned(cols, k, i) ==> !Unreadable(c, cols[k].rows[i])
  {
    hide Unreadable, Passed, CountUnreadable, CountReseal, ResealAll;
    var from := Passed(cols[k].rows, StartCursor(cols[k]));
    var rest := cols[k].rows[from..];
    CountsAreZeroExactly(c, rest);
    assert forall i :: Scanned(cols, k, i) ==> cols[k].rows[i] == rest[i - from];
    forall i | 0 <= i < |rest| ensures Scanned(cols, k, from + i) && rest[i] == cols[k].rows[from + i] {}
  }

  /** From null cursors that is: exactly when every value of the store opens. */
  lemma NothingUnreadableAtAllExactly(c: Cipher, cols: seq<Column>)
    requires forall k :: 0 <= k < |cols| ==> StartCursor(cols[k]).None?
    ensures MigrateColumns(c, cols, true).2 == 0
      <==> forall k, i :: 0 <= k < |cols| && 0 <= i < |cols[k].rows| ==> !Unreadable(c, cols[k].rows[i])
  {
    hide Unreadable, MigrateColumns;
    NothingUnreadableExactly(c, cols);
    forall k, i ensures Scanned(cols, k, i) <==> 0 <= k < |cols| && 0 <= i < |cols[k].rows| {
      if 0 <= k < |cols| { assert StartCursor(cols[k]).None?; }
    }
    if exists k, i :: 0 <= k < |cols| && 0 <= i < |cols[k].rows| && Unreadable(c, cols[k].rows[i]) {
      var k, i :| 0 <= k < |cols| && 0 <= i < |cols[k].rows| && Unreadable(c, cols[k].rows[i]);
      assert Scanned(cols, k, i);
    }
  }

  // ---- Columns a pass does not look at -------------------------------------------------------------

  /** A column marked sealed is skipped although it holds plaintext exactly when all of that plaintext
      begins like an envelope; what is left unsealed there is the part that is no envelope of any
      version. */
  lemma SkippedHidesPlaintextExactly(c: Cipher, col: Column)
    requires Skipped(col, false)
    ensures (forall i :: 0 <= i < |col.rows| && col.rows[i].stored.Raw? ==> Settled(c, col.rows[i]))
      <==> forall i :: 0 <= i < |col.rows| && col.rows[i].stored.Raw? && LooksSealed(col.rows[i].stored.text) ==>
             Versioned(col.rows[i].stored.text)
  {
    hide Versioned, LooksSealed;
    forall i | 0 <= i < |col.rows| && col.rows[i].stored.Raw?
      ensures Settled(c, col.rows[i])
        <==> (LooksSealed(col.rows[i].stored.text) ==> Versioned(col.rows[i].stored.text))
    {
      EmptyLooksPlain();
      var text := col.rows[i].stored.text;
      if text != "" { assert LooksSealed(text); }
    }
  }

  lemma EmptyLooksPlain()
    ensures !LooksSealed("")
  {
  }

  /** A row that a pass over its column does not look at: all of them if it skips the column, those
      before the saved cursor if it resumes. */
  predicate Unvisited(col: Column, retiredLeft: bool, i: int) {
    0 <= i < |col.rows| && (Skipped(col, retiredLeft) || i < Passed(col.rows, StartCursor(col)))
  }

  /** A pass leaves a whole column settled if and only if the rows that it does not look at were: a
      column skipped or resumed after the key was rotated keeps its values under the old one. */
  lemma PassSettlesColumnExactly(c: Cipher, col: Column, retiredLeft: bool)
    ensures |MigrateColumn(c, col, retiredLeft).0.rows| == |col.rows|
    ensures (forall i :: 0 <= i < |col.rows| ==> Settled(c, MigrateColumn(c, col, retiredLeft).0.rows[i]))
      <==> forall i :: Unvisited(col, retiredLeft, i) ==> Settled(c, col.rows[i])
    ensures forall i :: Unvisited(col, retiredLeft, i) ==>
      MigrateColumn(c, col, retiredLeft).0.rows[i] == col.rows[i]
    ensures forall i :: 0 <= i < |col.rows| && !Unvisited(col, retiredLeft, i) ==>
      Settled(c, MigrateColumn(c, col, retiredLeft).0.rows[i])
  {
    if Skipped(col, retiredLeft) {
      SkippedStays(c, col, retiredLeft);
    } else {
      PassSettles(c, col, retiredLeft);
      var after, from := MigrateColumn(c, col, retiredLeft).0, Passed(col.rows, StartCursor(col));
      forall i | 0 <= i < from ensures after.rows[i] == col.rows[i] {
        assert after.rows[..from][i] == col.rows[..from][i];
      }
    }
    hide Settled, Skipped, MigrateColumn, Passed, NeedsReseal, Unreadable, Read, CountUnreadable;
  }

  // ---- Compare and swap ------------------------------------------------------------------------------

  /** The update of one row: the value was read from `seen`, and is replaced only if it is still there. */
  function Cas(c: Cipher, seen: Row, row: Row): Row {
    if seen.key == row.key && seen.stored == row.stored && NeedsReseal(c, seen)
    then row.(stored := Reseal(c, seen).stored)
    else row
  }

  function FindSeen(batch: seq<Row>, key: int): (r: Option<nat>)
    ensures r.Some? ==> r.value < |batch| && batch[r.value].key == key
  {
    if batch == [] then None
    else if batch[|batch| - 1].key == key then Some(|batch| - 1)
    else FindSeen(batch[..|batch| - 1], key)
  }

  /** A batch that was fetched earlier, applied to the rows as they are now. Two envelopes of one text
      under one key differ in their nonces, which an envelope here does not show: the rows with the keys
      `missed` are those that were sealed anew since the fetch, so that their swap fails all the same. */
  function RacedBatch(c: Cipher, batch: seq<Row>, rows: seq<Row>, missed: set<int>): (r: seq<Row>)
    ensures |r| == |rows|
  {
    seq(|rows|, i requires 0 <= i < |rows| =>
      if rows[i].key in missed then rows[i]
      else match FindSeen(batch, rows[i].key)
           case None => rows[i]
           case Some(j) => Cas(c, batch[j], rows[i]))
  }

  /** The fetched rows are bound to the places their keys have. */
  ghost predicate SamePlaces(batch: seq<Row>, rows: seq<Row>) {
    forall j, i :: 0 <= j < |batch| && 0 <= i < |rows| && batch[j].key == rows[i].key ==> batch[j].place == rows[i].place
  }

  /** Whatever was written between the fetch and the update, the batch replaces no value that it did
      not read, and leaves every value readable as it was. */
  lemma RacedBatchKeepsValues(c: Cipher, batch: seq<Row>, rows: seq<Row>, missed: set<int>, i: nat)
    requires SamePlaces(batch, rows) && i < |rows|
    ensures var after := RacedBatch(c, batch, rows, missed)[i];
      && after.key == rows[i].key && after.place == rows[i].place && after.written == rows[i].written
      && (after.stored != rows[i].stored ==>
            && rows[i].key !in missed
            && (exists j :: 0 <= j < |batch| && batch[j].key == rows[i].key && batch[j].stored == rows[i].stored)
            && after == Reseal(c, rows[i]))
      && Read(Some(c), rows[i].place, after.stored) == Read(Some(c), rows[i].place, rows[i].stored)
  {
    hide Read, Unreadable;
    var found := FindSeen(batch, rows[i].key);
    if found.Some? {
      var seen := batch[found.value];
      if seen.stored == rows[i].stored {
        SameReseal(c, seen, rows[i]);
        hide Reseal, NeedsReseal;
        ResealSettles(c, rows[i]);
      }
    }
  }

  lemma SameReseal(c: Cipher, a: Row, b: Row)
    requires a.stored == b.stored && a.place == b.place
    ensures Reseal(c, a).stored == Reseal(c, b).stored
    ensures NeedsReseal(c, a) <==> NeedsReseal(c, b)
    ensures !NeedsReseal(c, b) ==> Reseal(c, b) == b
  {
  }

  lemma {:induction false} FindSeenAt(batch: seq<Row>, j: nat)
    requires j < |batch| && Sorted(batch)
    ensures FindSeen(batch, batch[j].key) == Some(j)
  {
    var n := |batch| - 1;
    if j < n { FindSeenAt(batch[..n], j); }
  }

  /** With nothing written in between, the batch is the whole step of the pass. */
  lemma UndisturbedBatchIsStep(c: Cipher, col: Column, from: nat)
    requires Sorted(col.rows) && from < |col.rows|
    ensures var to := Min(from + BATCH, |col.rows|);
      RacedBatch(c, col.rows[from..to], col.rows, {}) == BatchStep(c, col, from).rows
  {
    hide FindSeen, RacedBatch, Cas, Reseal, ResealAll;
    var to := Min(from + BATCH, |col.rows|);
    var batch := col.rows[from..to];
    var raced, step := RacedBatch(c, batch, col.rows, {}), BatchStep(c, col, from).rows;
    forall i | 0 <= i < |col.rows| ensures raced[i] == step[i] {
      RacedAt(c, batch, col.rows, i);
      var found := FindSeen(batch, col.rows[i].key);
      if from <= i < to {
        FindSeenAt(batch, i - from);
        ResealedAt(c, batch, i - from);
        assert batch[i - from] == col.rows[i];
        assert step[i] == ResealAll(c, batch)[i - from];
      } else if found.Some? {
        assert false;
      }
    }
  }

  lemma RacedAt(c: Cipher, batch: seq<Row>, rows: seq<Row>, i: nat)
    requires i < |rows|
    ensures RacedBatch(c, batch, rows, {})[i]
         == match FindSeen(batch, rows[i].key)
            case None => rows[i]
            case Some(j) => Cas(c, batch[j], rows[i])
  {
    hide FindSeen, Cas;
  }

  lemma ResealedAt(c: Cipher, batch: seq<Row>, j: nat)
    requires j < |batch|
    ensures ResealAll(c, batch)[j] == Reseal(c, batch[j]) == Cas(c, batch[j], batch[j])
  {
  }

  // ---- The pass, row by row ----------------------------------------------------------------------------

  /** What becomes of a row: a text in the clear and one under any key that the cipher holds are sealed anew
      under the current key at the row's own place; an empty value, a text that reads as an envelope, and
      an envelope of another place or under a key not held stay as they are. */
  lemma ResealsExactly(c: Cipher, row: Row)
    ensures Reseal(c, row)
      == match row.stored
         case Null => row
         case Raw(text) =>
           if text == "" || Versioned(text) then row else row.(stored := Envelope(c.current, row.place, text))
         case Envelope(key, at, text) =>
           if at == row.place && (key == c.current || key in c.retired)
           then row.(stored := Envelope(c.current, row.place, text)) else row
  {
    hide Versioned;
  }

  /** A pass leaves a column alone if and only if it is marked sealed, nothing under a retired key is left to
      look for, and every text in it is empty or begins like an envelope. */
  lemma SkipsExactly(col: Column, retiredLeft: bool)
    ensures Skipped(col, retiredLeft)
      <==> && col.state.Some? && col.state.value.progress.Sealed? && !retiredLeft
           && forall i :: 0 <= i < |col.rows| && col.rows[i].stored.Raw? ==>
                var text := col.rows[i].stored.text;
                text == "" || (|text| >= 6 && text[..6] == "encb:v")
  {
  }

  /** A pass that looks at a column seals exactly the rows whose keys lie behind the saved cursor, all of them
      if there is none, and marks the column sealed under the current key with no cursor. */
  lemma PassesExactly(c: Cipher, col: Column, retiredLeft: bool, i: nat)
    requires Sorted(col.rows) && !Skipped(col, retiredLeft) && i < |col.rows|
    ensures var after := MigrateColumn(c, col, retiredLeft).0;
      var saved := if col.state.None? then None else col.state.value.cursor;
      && |after.rows| == |col.rows|
      && after.rows[i]
         == (if saved.Some? && col.rows[i].key <= saved.value then col.rows[i] else Reseal(c, col.rows[i]))
      && after.state == Some(ColumnState(Sealed, None, c.current))
  {
    hide Reseal, Skipped, CountReseal, CountUnreadable, ResealAll, Passed;
    var from := Passed(col.rows, StartCursor(col));
    PassRows(c, col.rows, from);
    if from < |col.rows| && from < i { assert col.rows[from].key < col.rows[i].key; }
  }

  /** A value counts as unreadable if and only if it is a text that reads as an envelope, or an envelope of
      another place or under a key not held. */
  lemma UnreadableExactly(c: Cipher, row: Row)
    ensures Unreadable(c, row)
      <==> match row.stored
           case Null => false
           case Raw(text) => Versioned(text)
           case Envelope(key, at, _) => at != row.place || (key != c.current && key !in c.retired)
  {
    assert !Versioned("");
    hide Versioned;
  }

  /** The counters of a pass are the numbers of rows that do not open and of those that are sealed anew. */
  lemma CountsAreNumbers(c: Cipher, rows: seq<Row>)
    ensures CountUnreadable(c, rows) == |set i | 0 <= i < |rows| && Unreadable(c, rows[i])|
    ensures CountReseal(c, rows) == |set i | 0 <= i < |rows| && Reseal(c, rows[i]) != rows[i]|
  {
    hide Unreadable, Reseal, CountUnreadable, CountReseal;
    UnreadableNumber(c, rows);
    ResealNumber(c, rows);
  }

  lemma {:induction false} UnreadableNumber(c: Cipher, rows: seq<Row>)
    ensures CountUnreadable(c, rows) == |set i | 0 <= i < |rows| && Unreadable(c, rows[i])|
  {
    hide Unreadable;
    if rows != [] {
      var n := |rows| - 1;
      var init := rows[..n];
      UnreadableNumber(c, init);
      var bad := set i | 0 <= i < n && Unreadable(c, init[i]);
      assert (set i | 0 <= i < |rows| && Unreadable(c, rows[i])) == if Unreadable(c, rows[n]) then bad + {n} else bad;
    }
  }

  lemma {:induction false} ResealNumber(c: Cipher, rows: seq<Row>)
    ensures CountReseal(c, rows) == |set i | 0 <= i < |rows| && Reseal(c, rows[i]) != rows[i]|
  {
    hide NeedsReseal, Reseal;
    if rows != [] {
      var n := |rows| - 1;
      var init := rows[..n];
      ResealNumber(c, init);
      ResealChanges(c, rows[n]);
      var more := set i | 0 <= i < n && Reseal(c, init[i]) != init[i];
      assert (set i | 0 <= i < |rows| && Reseal(c, rows[i]) != rows[i])
        == if NeedsReseal(c, rows[n]) then more + {n} else more;
    }
  }

  lemma ResealChanges(c: Cipher, row: Row)
    ensures NeedsReseal(c, row) <==> Reseal(c, row) != row
  {
  }
}
