/** Sealing a store's legacy values: column by column, batch by batch, resumable
    (`ryu_content_seal.py`, `StoreSeal.migrate`). */
module Migration {
  import opened Prelude
  import opened Sealing

  /** A row of one sealed column: its order key, the place its value is bound to, the value.
      `written` is the text last written to it; nothing below reads it. */
  datatype Row = Row(key: int, place: string, stored: Stored, written: string)

  datatype Progress = Sealing | Sealed

  datatype ColumnState = ColumnState(progress: Progress, cursor: Option<int>, kcv: Key)

  datatype Column = Column(rows: seq<Row>, state: Option<ColumnState>)

  const BATCH: nat := 500

  ghost predicate Sorted(rows: seq<Row>) {
    forall i, j :: 0 <= i < j < |rows| ==> rows[i].key < rows[j].key
  }

  ghost predicate AllSorted(cols: seq<Column>) {
    forall k :: 0 <= k < |cols| ==> Sorted(cols[k].rows)
  }

  lemma SortedAt(cols: seq<Column>, k: nat)
    requires AllSorted(cols) && k < |cols|
    ensures Sorted(cols[k].rows)
  {
  }

  predicate IsEmpty(s: Stored) { s.Null? || s == Raw("") }

  /** A non-empty value that does not open. */
  predicate Unreadable(c: Cipher, row: Row) {
    !IsEmpty(row.stored) && OpenText(c, row.place, row.stored).None?
  }

  predicate NeedsReseal(c: Cipher, row: Row) {
    !IsEmpty(row.stored) && OpenText(c, row.place, row.stored).Some? && OpenText(c, row.place, row.stored).value.needsReseal
  }

  /** What a pass makes of one row. */
  function Reseal(c: Cipher, row: Row): Row {
    if NeedsReseal(c, row)
    then row.(stored := Seal(c, row.place, OpenText(c, row.place, row.stored).value.value))
    else row
  }

  function ResealAll(c: Cipher, rows: seq<Row>): (r: seq<Row>)
    ensures |r| == |rows|
  {
    seq(|rows|, i requires 0 <= i < |rows| => Reseal(c, rows[i]))
  }

  function CountUnreadable(c: Cipher, rows: seq<Row>): nat {
    if rows == [] then 0 else CountUnreadable(c, rows[..|rows| - 1]) + if Unreadable(c, rows[|rows| - 1]) then 1 else 0
  }

  function CountReseal(c: Cipher, rows: seq<Row>): nat {
    if rows == [] then 0 else CountReseal(c, rows[..|rows| - 1]) + if NeedsReseal(c, rows[|rows| - 1]) then 1 else 0
  }

  /** How many rows a cursor has passed. */
  function Passed(rows: seq<Row>, cursor: Option<int>): (n: nat)
    ensures n <= |rows|
    ensures forall i :: 0 <= i < n ==> cursor.Some? && rows[i].key <= cursor.value
    ensures n < |rows| ==> cursor.None? || rows[n].key > cursor.value
  {
    if rows == [] || cursor.None? || rows[0].key > cursor.value then 0 else 1 + Passed(rows[1..], cursor)
  }

  /** `_holds_plaintext`. */
  predicate HoldsPlaintext(rows: seq<Row>) {
    exists i :: 0 <= i < |rows| && rows[i].stored.Raw? && rows[i].stored.text != "" && !LooksSealed(rows[i].stored.text)
  }

  /** A column that a pass does not look at. */
  predicate Skipped(col: Column, retiredLeft: bool) {
    col.state.Some? && col.state.value.progress == Sealed && !retiredLeft && !HoldsPlaintext(col.rows)
  }

  function StartCursor(col: Column): Option<int> {
    if col.state.Some? then col.state.value.cursor else None
  }

  function Min(a: nat, b: nat): nat { if a < b then a else b }

  /** One transaction: the batch after the cursor, and how far it came. */
  function BatchStep(c: Cipher, col: Column, from: nat): (r: Column)
    requires from < |col.rows|
    ensures |r.rows| == |col.rows| && r.state.Some?
  {
    var to := Min(from + BATCH, |col.rows|);
    Column(col.rows[..from] + ResealAll(c, col.rows[from..to]) + col.rows[to..],
           Some(ColumnState(Sealing, Some(col.rows[to - 1].key), c.current)))
  }

  /** What one pass makes of a column, with what it resealed and what it could not read. */
  function MigrateColumn(c: Cipher, col: Column, retiredLeft: bool): (Column, nat, nat) {
    if Skipped(col, retiredLeft) then (col, 0, 0)
    else
      var from := Passed(col.rows, StartCursor(col));
      (Column(col.rows[..from] + ResealAll(c, col.rows[from..]), Some(ColumnState(Sealed, None, c.current))),
       CountReseal(c, col.rows[from..]), CountUnreadable(c, col.rows[from..]))
  }

  function MigrateColumns(c: Cipher, cols: seq<Column>, retiredLeft: bool): (r: (seq<Column>, nat, nat))
    ensures |r.0| == |cols|
  {
    if cols == [] then ([], 0, 0)
    else
      var n := |cols| - 1;
      var (done, resealed, unreadable) := MigrateColumns(c, cols[..n], retiredLeft);
      var (col, more, bad) := MigrateColumn(c, cols[n], retiredLeft);
      (done + [col], resealed + more, unreadable + bad)
  }

  // ---- The pass, in place ------------------------------------------------------------------------

  lemma {:induction false} CountsSplit(c: Cipher, a: seq<Row>, b: seq<Row>)
    ensures CountUnreadable(c, a + b) == CountUnreadable(c, a) + CountUnreadable(c, b)
    ensures CountReseal(c, a + b) == CountReseal(c, a) + CountReseal(c, b)
  {
    hide Unreadable, NeedsReseal;
    if b == [] {
      assert a + b == a;
    } else {
      var n := |b| - 1;
      assert (a + b)[..|a| + n] == a + b[..n];
      CountsSplit(c, a, b[..n]);
    }
  }

  lemma {:induction false} PassedAt(rows: seq<Row>, i: nat)
    requires Sorted(rows) && i < |rows|
    ensures Passed(rows, Some(rows[i].key)) == i + 1
  {
    if i > 0 {
      PassedAt(rows[1..], i - 1);
    } else if |rows| > 1 {
      assert rows[1..][0] == rows[1];
    }
  }

  /** One store's sealing state in a process that holds a key. */
  class StoreSeal {
    const cipher: Cipher
    const state: KeyState
    const recorded: Option<Key>
    var columns: seq<Column>
    var storeKey: Option<Key>
    var unreadableRows: nat
    var retiredLeft: bool

    constructor (cipher: Cipher, state: KeyState, columns: seq<Column>, storeKey: Option<Key>)
      ensures this.cipher == cipher && this.state == state && this.recorded == storeKey
      ensures this.columns == columns && this.storeKey == storeKey
      ensures unreadableRows == 0 && retiredLeft == state.Retired?
    {
      this.cipher, this.state, this.recorded := cipher, state, storeKey;
      this.columns, this.storeKey := columns, storeKey;
      unreadableRows, retiredLeft := 0, state.Retired?;
    }

    /** The inner loop: one column from its cursor, batch after batch. */
    method MigrateOne(k: nat) returns (resealed: nat, unreadable: nat)
      requires k < |columns| && Sorted(columns[k].rows)
      modifies this`columns
      ensures var (col, more, bad) := MigrateColumn(cipher, old(columns)[k], retiredLeft);
        columns == old(columns)[k := col] && resealed == more && unreadable == bad
    {
      hide CountReseal, CountUnreadable, ResealAll, Partly, Passed, Skipped, Sorted, BatchStep;
      ghost var all, was := columns, columns[k];
      resealed, unreadable := 0, 0;
      if Skipped(columns[k], retiredLeft) { return; }
      var cursor := StartCursor(columns[k]);
      var from := Passed(columns[k].rows, cursor);
      ghost var start := from;
      NothingVisited(cipher, was.rows, start);
      while from < |columns[k].rows|
        invariant start <= from <= |was.rows| && |columns| == |all| && columns == all[k := columns[k]]
        invariant columns[k].rows == Partly(cipher, was.rows, start, from)
        invariant from == Passed(columns[k].rows, cursor)
        invariant resealed == CountReseal(cipher, was.rows[start..from])
        invariant unreadable == CountUnreadable(cipher, was.rows[start..from])
        decreases |was.rows| - from
      {
        var col := columns[k];
        var to := Min(from + BATCH, |col.rows|);
        BatchAdvances(cipher, was.rows, col, start, from);
        var more, bad := CountBatch(col.rows[from..to]);
        CountsGrow(cipher, was.rows, start, from, to);
        var next := BatchStep(cipher, col, from);
        columns := columns[k := next];
        cursor := next.state.value.cursor;
        resealed, unreadable, from := resealed + more, unreadable + bad, to;
      }
      AllVisited(cipher, was.rows, start);
      columns := columns[k := Column(columns[k].rows, Some(ColumnState(Sealed, None, cipher.current)))];
    }

    /** The counters over one batch. */
    method CountBatch(rows: seq<Row>) returns (resealed: nat, unreadable: nat)
      ensures resealed == CountReseal(cipher, rows) && unreadable == CountUnreadable(cipher, rows)
    {
      resealed, unreadable := 0, 0;
      for i := 0 to |rows|
        invariant resealed == CountReseal(cipher, rows[..i]) && unreadable == CountUnreadable(cipher, rows[..i])
      {
        hide Unreadable, NeedsReseal;
        assert rows[..i + 1][..i] == rows[..i];
        if Unreadable(cipher, rows[i]) { unreadable := unreadable + 1; }
        if NeedsReseal(cipher, rows[i]) { resealed := resealed + 1; }
      }
      assert rows[..|rows|] == rows;
    }

    /** `migrate`, and the key it records for the store. */
    method Migrate() returns (resealed: nat, unreadable: nat)
      requires AllSorted(columns)
      modifies this
      ensures var (cols, more, bad) := MigrateColumns(cipher, old(columns), old(retiredLeft));
        columns == cols && resealed == more && unreadable == bad
      ensures unreadableRows == old(unreadableRows) + unreadable
      ensures retiredLeft == (old(retiredLeft) && unreadable > 0)
      ensures storeKey == if retiredLeft && state.Retired? then recorded else Some(cipher.current)
    {
      hide *;
      resealed, unreadable := 0, 0;
      ghost var was, done := columns, [];
      NoColumns(cipher, was, retiredLeft);
      for k := 0 to |columns|
        invariant |columns| == |was| && retiredLeft == old(retiredLeft) && unreadableRows == old(unreadableRows)
        invariant |done| == k && columns == done + was[k..]
        invariant MigrateColumns(cipher, was[..k], retiredLeft) == (done, resealed, unreadable)
      {
        OneMoreColumn(cipher, was, retiredLeft, k, done, resealed, unreadable);
        SortedAt(was, k);
        done := done + [MigrateColumn(cipher, was[k], retiredLeft).0];
        var more, bad := MigrateOne(k);
        resealed, unreadable := resealed + more, unreadable + bad;
      }
      assert was[..|was|] == was && done + was[|was|..] == done;
      unreadableRows := unreadableRows + unreadable;
      if retiredLeft && unreadable == 0 { retiredLeft := false; }
      storeKey := if retiredLeft && state.Retired? then recorded else Some(cipher.current);
    }
  }

  lemma NoColumns(c: Cipher, cols: seq<Column>, retiredLeft: bool)
    ensures MigrateColumns(c, cols[..0], retiredLeft) == ([], 0, 0)
    ensures [] + cols[0..] == cols
  {
  }

  lemma OneMoreColumn(
    c: Cipher, cols: seq<Column>, retiredLeft: bool, k: nat, done: seq<Column>, resealed: nat, unreadable: nat)
    requires k < |cols| && |done| == k && MigrateColumns(c, cols[..k], retiredLeft) == (done, resealed, unreadable)
    ensures var (col, more, bad) := MigrateColumn(c, cols[k], retiredLeft);
      && MigrateColumns(c, cols[..k + 1], retiredLeft) == (done + [col], resealed + more, unreadable + bad)
      && (done + cols[k..])[k] == cols[k]
      && (done + cols[k..])[k := col] == done + [col] + cols[k + 1..]
  {
    hide MigrateColumn;
    assert cols[..k + 1][..k] == cols[..k];
  }

  /** The rows of a column once those from `start` to `from` have been visited. */
  ghost function Partly(c: Cipher, rows: seq<Row>, start: nat, from: nat): (r: seq<Row>)
    requires start <= from <= |rows|
    ensures |r| == |rows|
  {
    rows[..start] + ResealAll(c, rows[start..from]) + rows[from..]
  }

  lemma NothingVisited(c: Cipher, rows: seq<Row>, start: nat)
    requires start <= |rows|
    ensures Partly(c, rows, start, start) == rows
    ensures CountReseal(c, rows[start..start]) == 0 && CountUnreadable(c, rows[start..start]) == 0
  {
  }

  lemma AllVisited(c: Cipher, rows: seq<Row>, start: nat)
    requires start <= |rows|
    ensures Partly(c, rows, start, |rows|) == rows[..start] + ResealAll(c, rows[start..])
    ensures rows[start..|rows|] == rows[start..]
  {
    assert rows[start..|rows|] == rows[start..];
  }

  lemma CountsGrow(c: Cipher, rows: seq<Row>, start: nat, from: nat, to: nat)
    requires start <= from <= to <= |rows|
    ensures CountReseal(c, rows[start..to]) == CountReseal(c, rows[start..from]) + CountReseal(c, rows[from..to])
    ensures CountUnreadable(c, rows[start..to]) == CountUnreadable(c, rows[start..from]) + CountUnreadable(c, rows[from..to])
  {
    hide CountReseal, CountUnreadable;
    assert rows[start..from] + rows[from..to] == rows[start..to];
    CountsSplit(c, rows[start..from], rows[from..to]);
  }

  lemma BatchAdvances(c: Cipher, rows: seq<Row>, col: Column, start: nat, from: nat)
    requires Sorted(rows) && start <= from < |rows| && col.rows == Partly(c, rows, start, from)
    ensures var to := Min(from + BATCH, |rows|);
      && col.rows[from..to] == rows[from..to]
      && BatchStep(c, col, from).rows == Partly(c, rows, start, to)
      && Passed(BatchStep(c, col, from).rows, BatchStep(c, col, from).state.value.cursor) == to
  {
    hide Reseal, Passed, Sorted;
    var to := Min(from + BATCH, |rows|);
    var next := BatchStep(c, col, from);
    assert col.rows[from..to] == rows[from..to];
    assert col.rows[to..] == rows[to..];
    assert ResealAll(c, rows[start..from]) + ResealAll(c, rows[from..to]) == ResealAll(c, rows[start..to]);
    assert col.rows[..from] == rows[..start] + ResealAll(c, rows[start..from]);
    assert next.rows == Partly(c, rows, start, to);
    SameKeys(c, rows, start, to);
    PassedAt(next.rows, to - 1);
  }

  lemma SameKeys(c: Cipher, rows: seq<Row>, start: nat, to: nat)
    requires Sorted(rows) && start <= to <= |rows|
    ensures Sorted(Partly(c, rows, start, to))
    ensures forall i :: 0 <= i < |rows| ==> Partly(c, rows, start, to)[i].key == rows[i].key
  {
    var r := Partly(c, rows, start, to);
    forall i | 0 <= i < |rows| ensures r[i].key == rows[i].key {
      if start <= i < to { assert r[i] == Reseal(c, rows[start..to][i - start]); }
    }
  }
}
