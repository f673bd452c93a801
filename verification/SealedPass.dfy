/** A process that opens a sealed store and is not disturbed performs, transaction by transaction,
    exactly the migration pass, and records exactly the key that the pass records; and what that key
    is good for. */
module SealedPass {
  import opened Prelude
  import opened Sealing
  import opened Migration
  import opened MigrationFacts
  import opened SealedStore

  /** n steps of a process's migration with nothing in between. */
  function Steps(w: World, p: nat, n: nat): World
    decreases n
  {
    if n == 0 then w else Steps(Moved(w, Advance(p, {})), p, n - 1)
  }

  lemma {:induction false} StepsAdd(w: World, p: nat, m: nat, n: nat)
    ensures Steps(Steps(w, p, m), p, n) == Steps(w, p, m + n)
    decreases m
  {
    hide Moved;
    if m > 0 { StepsAdd(Moved(w, Advance(p, {})), p, m - 1, n); }
  }

  lemma OneStep(w: World, p: nat)
    ensures Steps(w, p, 1) == Moved(w, Advance(p, {}))
  {
    assert Steps(Moved(w, Advance(p, {})), p, 0) == Moved(w, Advance(p, {}));
  }

  /** A column whose rows from `from` on have been visited. */
  function Finished(c: Cipher, col: Column, from: nat): Column
    requires from <= |col.rows|
  {
    Column(col.rows[..from] + ResealAll(c, col.rows[from..]), Some(ColumnState(Sealed, None, c.current)))
  }

  /** The world once column k is done. */
  function ColumnDone(w: World, p: nat, s: Session, c: Cipher, k: nat, from: nat): World
    requires k < |w.columns| && from <= |w.columns[k].rows|
  {
    Set(w.(columns := w.columns[k := Finished(c, w.columns[k], from)]), p,
        s.(phase := Scan(k + 1), unreadable := s.unreadable + CountUnreadable(c, w.columns[k].rows[from..])))
  }

  /** Two steps: a batch is fetched and applied. */
  lemma BatchPass(w: World, p: nat, s: Session, c: Cipher, k: nat, cursor: Option<int>)
    requires p in w.sessions && w.sessions[p] == s && SessionCipher(s) == Some(c) && s.phase == Fetch(k, cursor)
    requires k < |w.columns| && Sorted(w.columns[k].rows) && Passed(w.columns[k].rows, cursor) < |w.columns[k].rows|
    ensures var rows, from := w.columns[k].rows, Passed(w.columns[k].rows, cursor);
      var to := Min(from + BATCH, |rows|);
      var step := BatchStep(c, w.columns[k], from);
      Steps(w, p, 2) == Set(w.(columns := w.columns[k := step]), p,
                            s.(phase := Fetch(k, step.state.value.cursor),
                               unreadable := s.unreadable + CountUnreadable(c, rows[from..to])))
  {
    hide CountUnreadable, Passed, BatchStep, Sorted, Steps, Moved;
    var rows, from := w.columns[k].rows, Passed(w.columns[k].rows, cursor);
    var batch := rows[from..Min(from + BATCH, |rows|)];
    FetchStep(w, p, s, c, k, cursor);
    SameCipher(s, Fetched(k, batch), 0, false);
    ApplyStep(w, p, s.(phase := Fetched(k, batch)), c, k, from);
    OneStep(w, p);
    OneStep(Moved(w, Advance(p, {})), p);
    StepsAdd(w, p, 1, 1);
  }

  lemma FetchStep(w: World, p: nat, s: Session, c: Cipher, k: nat, cursor: Option<int>)
    requires p in w.sessions && w.sessions[p] == s && SessionCipher(s) == Some(c) && s.phase == Fetch(k, cursor)
    requires k < |w.columns| && Passed(w.columns[k].rows, cursor) < |w.columns[k].rows|
    ensures var rows, from := w.columns[k].rows, Passed(w.columns[k].rows, cursor);
      Moved(w, Advance(p, {})) == Set(w, p, s.(phase := Fetched(k, rows[from..Min(from + BATCH, |rows|)])))
  {
    hide Passed;
  }

  lemma ApplyStep(w: World, p: nat, s: Session, c: Cipher, k: nat, from: nat)
    requires k < |w.columns| && from < |w.columns[k].rows| && Sorted(w.columns[k].rows)
    requires SessionCipher(s) == Some(c)
    requires s.phase == Fetched(k, w.columns[k].rows[from..Min(from + BATCH, |w.columns[k].rows|)])
    ensures var step := BatchStep(c, w.columns[k], from);
      Moved(Set(w, p, s), Advance(p, {})) == Set(w.(columns := w.columns[k := step]), p,
                                             s.(phase := Fetch(k, step.state.value.cursor),
                                                unreadable := s.unreadable + CountUnreadable(c, s.phase.batch)))
  {
    StepIsRaced(c, w.columns[k], from);
    hide CountUnreadable, RacedBatch, BatchStep, Sorted, CipherOf, Min;
    var held := Set(w, p, s);
    assert held.sessions[p] == s && held.columns == w.columns;
  }

  lemma StepIsRaced(c: Cipher, col: Column, from: nat)
    requires Sorted(col.rows) && from < |col.rows|
    ensures var batch := col.rows[from..Min(from + BATCH, |col.rows|)];
      batch != [] && BatchStep(c, col, from)
        == Column(RacedBatch(c, batch, col.rows, {}), Some(ColumnState(Sealing, Some(batch[|batch| - 1].key), c.current)))
  {
    hide Sorted, ResealAll, RacedBatch;
    UndisturbedBatchIsStep(c, col, from);
  }

  lemma {:induction false} ColumnPass(w: World, p: nat, s: Session, c: Cipher, k: nat, cursor: Option<int>)
    returns (n: nat)
    requires p in w.sessions && w.sessions[p] == s && SessionCipher(s) == Some(c) && s.phase == Fetch(k, cursor)
    requires k < |w.columns| && Sorted(w.columns[k].rows)
    ensures Steps(w, p, n) == ColumnDone(w, p, s, c, k, Passed(w.columns[k].rows, cursor))
    decreases |w.columns| - k, if k < |w.columns| then |w.columns[k].rows| - Passed(w.columns[k].rows, cursor) else 0
  {
    hide CountUnreadable, Passed, ResealAll, Sorted, BatchStep, Finished, SessionCipher, Steps;
    var col := w.columns[k];
    var rows, from := col.rows, Passed(col.rows, cursor);
    if from == |rows| {
      n := 1;
      OneStep(w, p);
      NothingLeft(c, col, from);
    } else {
      hide Moved;
      var to := Min(from + BATCH, |rows|);
      BatchPass(w, p, s, c, k, cursor);
      BatchMoves(c, col, from);
      var step := BatchStep(c, col, from);
      var t := s.(phase := Fetch(k, step.state.value.cursor),
                  unreadable := s.unreadable + CountUnreadable(c, rows[from..to]));
      SameCipher(s, Fetch(k, step.state.value.cursor), CountUnreadable(c, rows[from..to]), false);
      var next := Set(w.(columns := w.columns[k := step]), p, t);
      var more := ColumnPass(next, p, t, c, k, step.state.value.cursor);
      n := 2 + more;
      StepsAdd(w, p, 2, more);
      FinishedLater(c, col, from, to);
      DoneLater(w, p, s, t, c, k, from, to);
    }
  }

  lemma DoneLater(w: World, p: nat, s: Session, t: Session, c: Cipher, k: nat, from: nat, to: nat)
    requires k < |w.columns| && from < |w.columns[k].rows| && to == Min(from + BATCH, |w.columns[k].rows|)
    requires var step := BatchStep(c, w.columns[k], from);
      && Finished(c, step, to) == Finished(c, w.columns[k], from)
      && CountUnreadable(c, w.columns[k].rows[from..])
         == CountUnreadable(c, w.columns[k].rows[from..to]) + CountUnreadable(c, step.rows[to..])
      && t == s.(phase := Fetch(k, step.state.value.cursor),
                 unreadable := s.unreadable + CountUnreadable(c, w.columns[k].rows[from..to]))
    ensures var next := Set(w.(columns := w.columns[k := BatchStep(c, w.columns[k], from)]), p, t);
      ColumnDone(next, p, t, c, k, to) == ColumnDone(w, p, s, c, k, from)
  {
    hide BatchStep, Finished, CountUnreadable;
    var step := BatchStep(c, w.columns[k], from);
    var next := Set(w.(columns := w.columns[k := step]), p, t);
    assert next.columns[k := Finished(c, step, to)] == w.columns[k := Finished(c, w.columns[k], from)];
  }

  lemma BatchMoves(c: Cipher, col: Column, from: nat)
    requires Sorted(col.rows) && from < |col.rows|
    ensures var step, to := BatchStep(c, col, from), Min(from + BATCH, |col.rows|);
      && step.rows == Partly(c, col.rows, from, to) && Sorted(step.rows)
      && Passed(step.rows, step.state.value.cursor) == to
  {
    hide Passed, Sorted, BatchStep, Partly;
    NothingVisited(c, col.rows, from);
    BatchAdvances(c, col.rows, col, from, from);
    SameKeys(c, col.rows, from, Min(from + BATCH, |col.rows|));
  }

  lemma NothingLeft(c: Cipher, col: Column, from: nat)
    requires from == |col.rows|
    ensures Finished(c, col, from) == col.(state := Some(ColumnState(Sealed, None, c.current)))
    ensures CountUnreadable(c, col.rows[from..]) == 0
  {
  }

  lemma FinishedLater(c: Cipher, col: Column, from: nat, to: nat)
    requires from < |col.rows| && to == Min(from + BATCH, |col.rows|)
    requires BatchStep(c, col, from).rows == Partly(c, col.rows, from, to)
    ensures Finished(c, BatchStep(c, col, from), to) == Finished(c, col, from)
    ensures CountUnreadable(c, col.rows[from..])
         == CountUnreadable(c, col.rows[from..to]) + CountUnreadable(c, BatchStep(c, col, from).rows[to..])
  {
    hide CountUnreadable, ResealAll, BatchStep;
    var rows, next := col.rows, BatchStep(c, col, from).rows;
    PartlyEnds(c, rows, from, to);
    assert rows[from..to] + rows[to..] == rows[from..];
    CountsSplit(c, rows[from..to], rows[to..]);
  }

  lemma PartlyEnds(c: Cipher, rows: seq<Row>, from: nat, to: nat)
    requires from <= to <= |rows|
    ensures Partly(c, rows, from, to)[to..] == rows[to..]
    ensures Partly(c, rows, from, to)[..to] + ResealAll(c, rows[to..]) == rows[..from] + ResealAll(c, rows[from..])
  {
    hide Reseal;
    var part := rows[..from] + ResealAll(c, rows[from..to]);
    assert Partly(c, rows, from, to)[..to] == part;
    assert ResealAll(c, rows[from..to]) + ResealAll(c, rows[to..]) == ResealAll(c, rows[from..]);
  }

  // ---- All columns -------------------------------------------------------------------------------

  /** The process has worked through the first k columns of `was`. */
  ghost predicate Halfway(w: World, p: nat, s: Session, c: Cipher, was: seq<Column>, k: nat) {
    && p in w.sessions && w.sessions[p] == s && SessionCipher(s) == Some(c) && s.phase == Scan(k) && k <= |was|
    && var done := MigrateColumns(c, was[..k], s.retiredLeft);
    && w.columns == done.0 + was[k..] && s.unreadable == done.2
  }

  lemma NextColumn(w: World, p: nat, s: Session, c: Cipher, was: seq<Column>, k: nat) returns (n: nat, t: Session)
    requires Halfway(w, p, s, c, was, k) && k < |was| && Sorted(was[k].rows)
    ensures n > 0 && Halfway(Steps(w, p, n), p, t, c, was, k + 1)
    ensures Continues(s, t) && t.retiredLeft == s.retiredLeft
  {
    hide MigrateColumns, Sorted, CountUnreadable, CountReseal, Passed, ResealAll, SessionCipher, Skipped;
    var done := MigrateColumns(c, was[..k], s.retiredLeft);
    OneMoreColumn(c, was, s.retiredLeft, k, done.0, done.1, done.2);
    var col := was[k];
    OneStep(w, p);
    if Skipped(col, s.retiredLeft) {
      n, t := 1, s.(phase := Scan(k + 1));
      SameCipher(s, Scan(k + 1), 0, false);
      assert w.columns[k := col] == w.columns;
    } else {
      var cursor := StartCursor(col);
      var f := s.(phase := Fetch(k, cursor));
      SameCipher(s, Fetch(k, cursor), 0, false);
      var fetching := Set(w, p, f);
      assert Moved(w, Advance(p, {})) == fetching;
      var more := ColumnPass(fetching, p, f, c, k, cursor);
      n := 1 + more;
      StepsAdd(w, p, 1, more);
      var from := Passed(col.rows, cursor);
      t := f.(phase := Scan(k + 1), unreadable := f.unreadable + CountUnreadable(c, col.rows[from..]));
      SameCipher(f, Scan(k + 1), CountUnreadable(c, col.rows[from..]), false);
      assert Finished(c, col, from) == MigrateColumn(c, col, s.retiredLeft).0;
    }
  }

  lemma {:induction false} RemainingPass(w: World, p: nat, s: Session, c: Cipher, was: seq<Column>, k: nat)
    returns (n: nat)
    requires Halfway(w, p, s, c, was, k) && AllSorted(was)
    ensures Passes(Steps(w, p, n), p, s, c, was)
    decreases |was| - k
  {
    hide Moved, AllSorted, Passes, Halfway;
    if k == |was| {
      n := 1;
      OneStep(w, p);
      LastStep(w, p, s, c, was);
    } else {
      assert k <= |was| by { HalfwayBound(w, p, s, c, was, k); }
      SortedAt(was, k);
      var m, t := NextColumn(w, p, s, c, was, k);
      var more := RemainingPass(Steps(w, p, m), p, t, c, was, k + 1);
      n := m + more;
      StepsAdd(w, p, m, more);
      SamePasses(Steps(w, p, n), p, s, t, c, was);
    }
  }

  lemma HalfwayBound(w: World, p: nat, s: Session, c: Cipher, was: seq<Column>, k: nat)
    requires Halfway(w, p, s, c, was, k)
    ensures k <= |was|
  {
  }

  /** What the pass over the columns `was` leaves. */
  ghost predicate Passes(w: World, p: nat, s: Session, c: Cipher, was: seq<Column>) {
    var done := MigrateColumns(c, was, s.retiredLeft);
    var left := s.retiredLeft && done.2 > 0;
    && w.columns == done.0 && p in w.sessions && w.sessions[p].phase.Ready?
    && w.sessions[p].unreadable == done.2 && w.sessions[p].retiredLeft == left
    && w.storeKey == if left && s.state.Retired? then s.recorded else Some(c.current)
  }

  lemma SamePasses(w: World, p: nat, s: Session, t: Session, c: Cipher, was: seq<Column>)
    requires Continues(s, t) && t.retiredLeft == s.retiredLeft && Passes(w, p, t, c, was)
    ensures Passes(w, p, s, c, was)
  {
    hide MigrateColumns;
  }

  lemma LastStep(w: World, p: nat, s: Session, c: Cipher, was: seq<Column>)
    requires Halfway(w, p, s, c, was, |was|)
    ensures Passes(Moved(w, Advance(p, {})), p, s, c, was)
  {
    hide MigrateColumns;
    assert was[..|was|] == was;
    var done := MigrateColumns(c, was, s.retiredLeft);
    assert done.0 + was[|was|..] == done.0;
  }

  /** The session a process begins with. */
  function Begun(w: World, p: nat, ring: KeyRing): Session
    requires p !in w.sessions
  {
    Moved(w, Open(p, ring)).sessions[p]
  }

  /** The store's key state is one in which the process seals. */
  predicate OpensSealing(w: World, ring: KeyRing) {
    CipherOf(ring, StoreKeyState(ring, w.storeKey, HoldsSealed(w))).Some?
  }

  /** Opening a store with a key and letting the migration run ends after finitely many transactions
      with the columns, the count and the recorded key of one whole pass. */
  lemma UndisturbedOpenIsPass(w: World, p: nat, ring: KeyRing) returns (n: nat)
    requires p !in w.sessions && OpensSealing(w, ring) && AllSorted(w.columns)
    ensures var s := Begun(w, p, ring);
      && SessionCipher(s) == Some(Cipher(ring.root.value, ring.retired))
      && Passes(Steps(Moved(w, Open(p, ring)), p, n), p, s, Cipher(ring.root.value, ring.retired), w.columns)
  {
    hide AllSorted, Passes, Steps;
    var start, s := Moved(w, Open(p, ring)), Begun(w, p, ring);
    var c := SessionCipher(s).value;
    NoColumns(c, w.columns, s.retiredLeft);
    n := RemainingPass(start, p, s, c, w.columns, 0);
  }

  // ---- The recorded key ----------------------------------------------------------------------------------

  /** A store sealed under a retired key records the current one after a pass if and only if no row from
      the saved cursors on is unreadable, and keeps the retired one otherwise. Rows before a saved cursor
      are not looked at: one that does not open is then left behind under a key that the store no longer
      records. */
  lemma RetiredRecordsCurrentExactly(w: World, p: nat, s: Session, c: Cipher, was: seq<Column>)
    requires Passes(w, p, s, c, was) && s.state.Retired? && s.retiredLeft && s.recorded != Some(c.current)
    ensures w.storeKey == Some(c.current) <==> forall k, i :: Scanned(was, k, i) ==> !Unreadable(c, was[k].rows[i])
    ensures w.storeKey != Some(c.current) ==> w.storeKey == s.recorded
  {
    hide MigrateColumns, Unreadable;
    NothingUnreadableExactly(c, was);
  }

  ghost predicate NullCursors(cols: seq<Column>) {
    forall k :: 0 <= k < |cols| ==> StartCursor(cols[k]).None?
  }

  /** From null cursors that is: if and only if every value opens. */
  lemma UninterruptedRecordsCurrentExactly(w: World, p: nat, s: Session, c: Cipher, was: seq<Column>)
    requires Passes(w, p, s, c, was) && s.state.Retired? && s.retiredLeft && s.recorded != Some(c.current)
    requires NullCursors(was)
    ensures w.storeKey == Some(c.current)
      <==> forall k, i :: 0 <= k < |was| && 0 <= i < |was[k].rows| ==> !Unreadable(c, was[k].rows[i])
  {
    hide MigrateColumns, Unreadable;
    NothingUnreadableAtAllExactly(c, was);
  }

  // ---- What it is good for ---------------------------------------------------------------------------------

  /** The cell opens to the text last written to it with nothing but this key. */
  predicate OpensAlone(key: Key, row: Row) {
    Read(Some(Cipher(key, [])), row.place, row.stored) == Some(row.written)
  }

  ghost predicate AllOpenAlone(key: Key, cols: seq<Column>) {
    forall k, i :: 0 <= k < |cols| && 0 <= i < |cols[k].rows| ==> OpensAlone(key, cols[k].rows[i])
  }

  lemma {:induction false} StepsKeep(w: World, p: nat, n: nat)
    requires StoreInv(w)
    ensures StoreInv(Steps(w, p, n))
    decreases n
  {
    hide StoreInv, Moved;
    if n > 0 {
      AdvanceKeeps(w, p, {});
      StepsKeep(Moved(w, Advance(p, {})), p, n - 1);
    }
  }

  lemma {:induction false} ColumnAt(c: Cipher, cols: seq<Column>, retiredLeft: bool, k: nat)
    requires k < |cols|
    ensures MigrateColumns(c, cols, retiredLeft).0[k] == MigrateColumn(c, cols[k], retiredLeft).0
  {
    hide MigrateColumn;
    if k < |cols| - 1 { ColumnAt(c, cols[..|cols| - 1], retiredLeft, k); }
  }

  /** A faithful row that is settled under a cipher opens with its current key alone, if it opens at all. */
  lemma SettledOpensAlone(c: Cipher, row: Row, used: set<Key>)
    requires Faithful(row, used)
    ensures OpensAlone(c.current, row) <==> (row.stored.Envelope? ==> row.stored.key == c.current)
    ensures Settled(c, row) ==> (OpensAlone(c.current, row) <==> !Unreadable(c, row))
  {
    hide Versioned;
  }

  lemma RowAfterPass(w: World, p: nat, s: Session, c: Cipher, was: seq<Column>, k: nat, i: nat)
    requires Passes(w, p, s, c, was) && k < |was| && i < |was[k].rows|
    ensures k < |w.columns| && i < |w.columns[k].rows|
    ensures if Unvisited(was[k], s.retiredLeft, i) then w.columns[k].rows[i] == was[k].rows[i]
            else Settled(c, w.columns[k].rows[i])
  {
    hide Settled, Unvisited, MigrateColumn, MigrateColumns;
    ColumnAt(c, was, s.retiredLeft, k);
    PassSettlesColumnExactly(c, was[k], s.retiredLeft);
  }

  lemma SameCounts(w: World, p: nat, s: Session, c: Cipher, was: seq<Column>)
    requires Passes(w, p, s, c, was)
    ensures |w.columns| == |was| && forall k :: 0 <= k < |was| ==> |w.columns[k].rows| == |was[k].rows|
  {
    hide MigrateColumn;
    forall k | 0 <= k < |was| ensures |w.columns[k].rows| == |was[k].rows| {
      ColumnAt(c, was, s.retiredLeft, k);
      PassSettlesColumnExactly(c, was[k], s.retiredLeft);
    }
  }

  /** A row of a faithful store that the pass settled and that the process could read opens with the new
      key alone. */
  lemma VisitedOpensAlone(c: Cipher, row: Row, used: set<Key>)
    requires Faithful(row, used) && Settled(c, row) && forall key :: key in used ==> Holds(c, key)
    ensures OpensAlone(c.current, row)
  {
    SettledOpensAlone(c, row, used);
    hide Versioned;
  }

  /** After a whole undisturbed pass by a process that holds every key used so far, the store records
      the process's current key; and every cell opens with that key alone if and only if the sealed
      cells that the pass did not look at were under it already. */
  lemma RecordedKeySufficesExactly(w: World, p: nat, ring: KeyRing) returns (n: nat)
    requires StoreInv(w) && p !in w.sessions && AllSorted(w.columns)
    requires ring.root.Some? && forall key :: key in w.used ==> RingHolds(ring, key)
    ensures var after, key := Steps(Moved(w, Open(p, ring)), p, n), ring.root.value;
      && after.storeKey == Some(key)
      && (AllOpenAlone(key, after.columns)
          <==> forall k, i :: 0 <= k < |w.columns| && Unvisited(w.columns[k], Begun(w, p, ring).retiredLeft, i) ==>
                 OpensAlone(key, w.columns[k].rows[i]))
  {
    HolderOpensSealing(w, ring);
    n := UndisturbedOpenIsPass(w, p, ring);
    var start, s, c := Moved(w, Open(p, ring)), Begun(w, p, ring), Cipher(ring.root.value, ring.retired);
    var after := Steps(start, p, n);
    OpenKeeps(w, p, ring);
    StepsKeep(start, p, n);
    UsedAfterOpen(w, p, ring);
    UsedAfterSteps(start, p, n);
    hide Steps, StoreInv, AllSorted, OpensAlone, Settled, Unvisited, Faithful, Moved;
    FaithfulCells(after);
    SameCounts(after, p, s, c, w.columns);
    forall k, i | 0 <= k < |w.columns| && 0 <= i < |w.columns[k].rows|
      ensures if Unvisited(w.columns[k], s.retiredLeft, i) then after.columns[k].rows[i] == w.columns[k].rows[i]
              else OpensAlone(c.current, after.columns[k].rows[i])
    {
      RowAfterPass(after, p, s, c, w.columns, k, i);
      if !Unvisited(w.columns[k], s.retiredLeft, i) { VisitedOpensAlone(c, after.columns[k].rows[i], after.used); }
    }
    FaithfulCells(w);
    NothingLost(w, s, c);
    assert forall k, i :: 0 <= k < |w.columns| && Unvisited(w.columns[k], s.retiredLeft, i) ==>
      0 <= i < |w.columns[k].rows| by { UnvisitedIsRow(); }
    hide Passes;
    RecordsCurrent(after, p, s, c, w.columns);
  }

  /** A process with a root key that holds every key used so far finds the store in a key state in which
      it seals. */
  lemma HolderOpensSealing(w: World, ring: KeyRing)
    requires StoreInv(w) && ring.root.Some? && forall key :: key in w.used ==> RingHolds(ring, key)
    ensures OpensSealing(w, ring)
  {
    hide CellsFaithful, SealedIsRecorded, SessionsSound, Unique, HoldsSealed;
  }

  lemma UnvisitedIsRow()
    ensures forall col: Column, left: bool, i: int :: Unvisited(col, left, i) ==> 0 <= i < |col.rows|
  {
  }

  lemma FaithfulCells(w: World)
    requires StoreInv(w)
    ensures forall k, i :: 0 <= k < |w.columns| && 0 <= i < |w.columns[k].rows| ==> Faithful(w.columns[k].rows[i], w.used)
  {
    hide Faithful, Unique, SessionSound;
  }

  lemma UsedAfterOpen(w: World, p: nat, ring: KeyRing)
    requires p !in w.sessions && OpensSealing(w, ring)
    ensures Moved(w, Open(p, ring)).used == w.used + {ring.root.value}
    ensures Begun(w, p, ring).retiredLeft == Begun(w, p, ring).state.Retired?
    ensures Begun(w, p, ring).state == StoreKeyState(ring, w.storeKey, HoldsSealed(w))
    ensures Begun(w, p, ring).recorded == w.storeKey
  {
  }

  lemma {:induction false} UsedAfterSteps(w: World, p: nat, n: nat)
    ensures Steps(w, p, n).used == w.used
    decreases n
  {
    hide Skipped, Passed, RacedBatch, CountUnreadable, CipherOf;
    if n > 0 { UsedAfterSteps(Moved(w, Advance(p, {})), p, n - 1); }
  }

  /** A process that holds every key used finds nothing unreadable in a faithful store. */
  lemma NothingLost(w: World, s: Session, c: Cipher)
    requires forall k, i :: 0 <= k < |w.columns| && 0 <= i < |w.columns[k].rows| ==> Faithful(w.columns[k].rows[i], w.used)
    requires forall key :: key in w.used ==> Holds(c, key)
    ensures MigrateColumns(c, w.columns, true).2 == 0
  {
    NothingUnreadableExactly(c, w.columns);
    hide MigrateColumns, Versioned;
    forall k, i | Scanned(w.columns, k, i) ensures !Unreadable(c, w.columns[k].rows[i]) {
      assert Faithful(w.columns[k].rows[i], w.used);
    }
  }

  lemma RecordsCurrent(w: World, p: nat, s: Session, c: Cipher, was: seq<Column>)
    requires Passes(w, p, s, c, was) && MigrateColumns(c, was, true).2 == 0
    requires s.retiredLeft == s.state.Retired?
    ensures w.storeKey == Some(c.current)
  {
    hide MigrateColumns;
  }

  /** A store sealed under a retired key, whose columns have no saved cursor, records the process's
      current key after an undisturbed pass if and only if every cell then opens with that key alone,
      whatever keys the process lacks. */
  lemma RetiredRecordIsSafeExactly(w: World, p: nat, ring: KeyRing) returns (n: nat)
    requires StoreInv(w) && p !in w.sessions && OpensSealing(w, ring) && AllSorted(w.columns) && NullCursors(w.columns)
    requires StoreKeyState(ring, w.storeKey, HoldsSealed(w)).Retired?
    ensures var after := Steps(Moved(w, Open(p, ring)), p, n);
      after.storeKey == ring.root <==> AllOpenAlone(ring.root.value, after.columns)
  {
    n := UndisturbedOpenIsPass(w, p, ring);
    var start, s, c := Moved(w, Open(p, ring)), Begun(w, p, ring), Cipher(ring.root.value, ring.retired);
    var after := Steps(start, p, n);
    OpenKeeps(w, p, ring);
    StepsKeep(start, p, n);
    UsedAfterOpen(w, p, ring);
    RetiredIsOther(ring, w.storeKey, HoldsSealed(w));
    hide Steps, StoreInv, AllSorted, OpensAlone, Settled, Unvisited, Faithful, Moved, StoreKeyState, HoldsSealed;
    FaithfulCells(after);
    SameCounts(after, p, s, c, w.columns);
    UninterruptedRecordsCurrentExactly(after, p, s, c, w.columns);
    forall k, i | 0 <= k < |w.columns| && 0 <= i < |w.columns[k].rows|
      ensures OpensAlone(c.current, after.columns[k].rows[i]) <==> !Unreadable(c, w.columns[k].rows[i])
    {
      NoneUnvisited(w.columns, k, i);
      RowAfterPass(after, p, s, c, w.columns, k, i);
      SameReadability(after, p, s, c, w.columns, k, i);
      SettledOpensAlone(c, after.columns[k].rows[i], after.used);
    }
  }

  lemma RetiredIsOther(ring: KeyRing, recorded: Option<Key>, holdsSealed: bool)
    requires StoreKeyState(ring, recorded, holdsSealed).Retired?
    ensures recorded != ring.root
  {
  }

  lemma NoneUnvisited(cols: seq<Column>, k: nat, i: nat)
    requires NullCursors(cols) && k < |cols| && i < |cols[k].rows|
    ensures !Unvisited(cols[k], true, i)
  {
  }

  lemma SameReadability(w: World, p: nat, s: Session, c: Cipher, was: seq<Column>, k: nat, i: nat)
    requires Passes(w, p, s, c, was) && k < |was| && i < |was[k].rows| && s.retiredLeft && StartCursor(was[k]).None?
    ensures k < |w.columns| && i < |w.columns[k].rows|
    ensures Unreadable(c, w.columns[k].rows[i]) <==> Unreadable(c, was[k].rows[i])
  {
    hide MigrateColumn, MigrateColumns, Unreadable, Settled, NeedsReseal, Read, CountUnreadable;
    ColumnAt(c, was, true, k);
    PassSettles(c, was[k], true);
  }
}
