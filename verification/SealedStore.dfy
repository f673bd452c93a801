/** A sealed store over its whole life: keys that arrive and rotate, a migration that is cut short
    anywhere, writes with and without a key, other processes in between
    (`ryu_content_seal.py`, `StoreSeal`). It refines the plain map of what was last written. */
module SealedStore {
  import opened Prelude
  import opened Sealing
  import opened Migration
  import opened MigrationFacts

  /** Where a process that opened the store is: choosing a column, about to fetch a batch, holding one,
      or past its migration. */
  datatype Phase =
    | Scan(column: nat)
    | Fetch(column: nat, cursor: Option<int>)
    | Fetched(column: nat, batch: seq<Row>)
    | Ready

  datatype Session = Session(
    ring: KeyRing, state: KeyState, recorded: Option<Key>, phase: Phase, unreadable: nat, retiredLeft: bool)

  /** The columns and the key recorded for the store, every key that sealed in it so far, and the
      processes that have it open. */
  datatype World = World(columns: seq<Column>, storeKey: Option<Key>, used: set<Key>, sessions: map<nat, Session>)

  /** `_holds_sealed`: some key check value is recorded. */
  predicate HoldsSealed(w: World) {
    w.storeKey.Some? || exists k :: 0 <= k < |w.columns| && w.columns[k].state.Some?
  }

  function SessionCipher(s: Session): Option<Cipher> { CipherOf(s.ring, s.state) }

  /** Any number of processes open the store, each with its own keys, migrate it, write to it and stop
      at any moment; an older build writes plaintext. */
  datatype Move =
    | Open(process: nat, ring: KeyRing)
    | Advance(process: nat, missed: set<int>)
    | Write(process: nat, column: nat, row: nat, value: string)
    | PlainElsewhere(column: nat, row: nat, value: string)
    | Exit(process: nat)

  predicate IsCell(w: World, k: nat, i: nat) { k < |w.columns| && i < |w.columns[k].rows| }

  function SetCell(w: World, k: nat, i: nat, stored: Stored, value: string): World
    requires IsCell(w, k, i)
  {
    var col := w.columns[k];
    w.(columns := w.columns[k := col.(rows := col.rows[i := col.rows[i].(stored := stored, written := value)])])
  }

  function Opening(w: World, p: nat, ring: KeyRing): World {
    var state := StoreKeyState(ring, w.storeKey, HoldsSealed(w));
    var sealing := CipherOf(ring, state).Some?;
    var s := Session(ring, state, w.storeKey, if sealing then Scan(0) else Ready, 0, state.Retired?);
    w.(sessions := w.sessions[p := s], used := if sealing then w.used + {ring.root.value} else w.used)
  }

  function Set(w: World, p: nat, s: Session): World { w.(sessions := w.sessions[p := s]) }

  /** The next step of a migration: each change of the store is one transaction. */
  function Migrating(w: World, p: nat, s: Session, c: Cipher, missed: set<int>): World {
    match s.phase
    case Scan(k) =>
      if k >= |w.columns| then
        // Everything was visited: record the key.
        var left := s.retiredLeft && s.unreadable > 0;
        Set(w.(storeKey := if left && s.state.Retired? then s.recorded else Some(c.current)),
            p, s.(phase := Ready, retiredLeft := left))
      else if Skipped(w.columns[k], s.retiredLeft) then Set(w, p, s.(phase := Scan(k + 1)))
      else Set(w, p, s.(phase := Fetch(k, StartCursor(w.columns[k]))))
    case Fetch(k, cursor) =>
      if k >= |w.columns| then w
      else
        var rows := w.columns[k].rows;
        var from := Passed(rows, cursor);
        if from == |rows| then
          Set(w.(columns := w.columns[k := w.columns[k].(state := Some(ColumnState(Sealed, None, c.current)))]),
              p, s.(phase := Scan(k + 1)))
        else Set(w, p, s.(phase := Fetched(k, rows[from..Min(from + BATCH, |rows|)])))
    case Fetched(k, batch) =>
      if k >= |w.columns| || batch == [] then w
      else
        var last := Some(batch[|batch| - 1].key);
        var col := Column(RacedBatch(c, batch, w.columns[k].rows, missed), Some(ColumnState(Sealing, last, c.current)));
        Set(w.(columns := w.columns[k := col]),
            p, s.(phase := Fetch(k, last), unreadable := s.unreadable + CountUnreadable(c, batch)))
    case Ready => w
  }

  function Moved(w: World, m: Move): World {
    match m
    case Open(p, ring) => if p in w.sessions then w else Opening(w, p, ring)
    case Advance(p, missed) =>
      if p !in w.sessions || SessionCipher(w.sessions[p]).None? then w
      else Migrating(w, p, w.sessions[p], SessionCipher(w.sessions[p]).value, missed)
    case Write(p, k, i, value) =>
      if p !in w.sessions || !w.sessions[p].phase.Ready? || !IsCell(w, k, i) then w
      else
        var s := w.sessions[p];
        (match SealForWrite(SessionCipher(s), s.state, w.columns[k].rows[i].place, value)
         case Err(_) => w
         case Ok(stored) => SetCell(w, k, i, stored, value))
    case PlainElsewhere(k, i, value) =>
      if IsCell(w, k, i) then SetCell(w, k, i, Raw(value), value) else w
    case Exit(p) => w.(sessions := w.sessions - {p})
  }

  function Play(start: World, moves: seq<Move>): World {
    if moves == [] then start else Moved(Play(start, moves[..|moves| - 1]), moves[|moves| - 1])
  }

  /** The plaintext of older builds does not read as an envelope. */
  ghost predicate PlainTexts(moves: seq<Move>) {
    forall m :: m in moves && m.PlainElsewhere? ==> !Versioned(m.value)
  }

  // ---- The refinement ----------------------------------------------------------------------------------

  /** A cell stands for the text last written to it. */
  ghost predicate Faithful(row: Row, used: set<Key>) {
    match row.stored
    case Null => row.written == ""
    case Raw(text) => text == row.written && !Versioned(text)
    case Envelope(key, place, text) => key in used && place == row.place && text == row.written
  }

  ghost predicate CellsFaithful(w: World) {
    forall k, i :: 0 <= k < |w.columns| && 0 <= i < |w.columns[k].rows| ==> Faithful(w.columns[k].rows[i], w.used)
  }

  /** A store with a sealed cell has recorded a key. */
  ghost predicate SealedIsRecorded(w: World) {
    forall k, i :: 0 <= k < |w.columns| && 0 <= i < |w.columns[k].rows| && w.columns[k].rows[i].stored.Envelope? ==>
      HoldsSealed(w)
  }

  /** A process that seals uses a recorded key. */
  ghost predicate SessionSound(w: World, s: Session) {
    && (s.state.Retired? ==> s.recorded.Some?)
    && (s.recorded.Some? ==> s.recorded.value in w.used)
    && (s.ring.root.Some? && !IsSealing(s.state) ==> s.recorded.Some? && !RingHolds(s.ring, s.recorded.value))
    && (SessionCipher(s).Some? ==> SessionCipher(s).value.current in w.used && (s.phase.Ready? ==> w.storeKey.Some?))
    && (SessionCipher(s).None? ==> s.phase.Ready?)
    && (s.phase.Fetched? ==> s.phase.column < |w.columns| && SamePlaces(s.phase.batch, w.columns[s.phase.column].rows))
  }

  ghost predicate SessionsSound(w: World) {
    forall p :: p in w.sessions ==> SessionSound(w, w.sessions[p])
  }

  ghost predicate Unique(rows: seq<Row>) {
    forall i, j :: 0 <= i < |rows| && 0 <= j < |rows| && rows[i].key == rows[j].key ==> rows[i].place == rows[j].place
  }

  ghost predicate StoreInv(w: World) {
    && CellsFaithful(w) && SealedIsRecorded(w) && SessionsSound(w)
    && (w.storeKey.Some? ==> w.storeKey.value in w.used)
    && forall k :: 0 <= k < |w.columns| ==> Unique(w.columns[k].rows)
  }

  /** Rows keep their keys and places. */
  ghost predicate SameShape(a: seq<Column>, b: seq<Column>) {
    && |a| == |b|
    && forall k :: 0 <= k < |a| ==>
         && |a[k].rows| == |b[k].rows|
         && forall i :: 0 <= i < |a[k].rows| ==>
              a[k].rows[i].key == b[k].rows[i].key && a[k].rows[i].place == b[k].rows[i].place
  }

  /** Whatever a process does to the cells, the other processes stay sound. */
  lemma OthersStaySound(w: World, after: World, p: nat)
    requires SessionsSound(w) && SameShape(w.columns, after.columns) && w.used <= after.used
    requires w.storeKey.Some? ==> after.storeKey.Some?
    requires forall q :: q in after.sessions && q != p ==> q in w.sessions && after.sessions[q] == w.sessions[q]
    requires p in after.sessions ==> SessionSound(after, after.sessions[p])
    ensures SessionsSound(after)
  {
    forall q | q in after.sessions && q != p ensures SessionSound(after, after.sessions[q]) {
      assert SessionSound(w, w.sessions[q]);
    }
  }

  lemma SameShapeUnique(a: seq<Column>, b: seq<Column>)
    requires SameShape(a, b) && forall k :: 0 <= k < |a| ==> Unique(a[k].rows)
    ensures forall k :: 0 <= k < |b| ==> Unique(b[k].rows)
  {
  }

  lemma StayFaithful(w: World, used: set<Key>)
    requires CellsFaithful(w) && w.used <= used
    ensures CellsFaithful(w.(used := used))
  {
    var after := w.(used := used);
    forall k, i | 0 <= k < |after.columns| && 0 <= i < |after.columns[k].rows|
      ensures Faithful(after.columns[k].rows[i], used)
    {
      assert Faithful(w.columns[k].rows[i], w.used);
    }
  }

  lemma OpenKeeps(w: World, p: nat, ring: KeyRing)
    requires StoreInv(w)
    ensures StoreInv(Moved(w, Open(p, ring)))
  {
    hide Faithful, Unique, SamePlaces, Skipped;
    var after := Moved(w, Open(p, ring));
    if p !in w.sessions {
      StayFaithful(w, after.used);
      assert after.columns == w.columns && HoldsSealed(after) == HoldsSealed(w);
      assert CellsFaithful(after);
      OthersStaySound(w, after, p);
    }
  }

  /** Changing one cell to a faithful value keeps the rest. */
  lemma CellKeeps(w: World, k: nat, i: nat, stored: Stored, value: string)
    requires StoreInv(w) && IsCell(w, k, i)
    requires Faithful(w.columns[k].rows[i].(stored := stored, written := value), w.used)
    requires stored.Envelope? ==> HoldsSealed(w)
    ensures StoreInv(SetCell(w, k, i, stored, value))
  {
    hide Faithful, Unique, SessionSound;
    var after := SetCell(w, k, i, stored, value);
    SetCellShape(w, k, i, stored, value);
    forall x, y | 0 <= x < |after.columns| && 0 <= y < |after.columns[x].rows|
      ensures Faithful(after.columns[x].rows[y], after.used)
      ensures after.columns[x].rows[y].stored.Envelope? ==> HoldsSealed(w)
    {
      if x != k || y != i { assert after.columns[x].rows[y] == w.columns[x].rows[y]; }
    }
    SameShapeUnique(w.columns, after.columns);
    SameSessionsStaySound(w, after);
  }

  lemma SameSessionsStaySound(w: World, after: World)
    requires SessionsSound(w) && SameShape(w.columns, after.columns) && w.used == after.used
    requires w.storeKey == after.storeKey && after.sessions == w.sessions
    ensures SessionsSound(after)
  {
    forall q | q in after.sessions ensures SessionSound(after, after.sessions[q]) {
      assert SessionSound(w, w.sessions[q]);
    }
  }

  lemma SetCellShape(w: World, k: nat, i: nat, stored: Stored, value: string)
    requires IsCell(w, k, i)
    ensures SameShape(w.columns, SetCell(w, k, i, stored, value).columns)
    ensures HoldsSealed(SetCell(w, k, i, stored, value)) == HoldsSealed(w)
  {
    var after := SetCell(w, k, i, stored, value);
    assert forall x :: 0 <= x < |w.columns| ==> after.columns[x].state == w.columns[x].state;
  }

  lemma ResealFaithful(c: Cipher, row: Row, used: set<Key>)
    requires Faithful(row, used) && c.current in used
    ensures Faithful(Reseal(c, row), used)
  {
  }

  lemma RacedFaithful(c: Cipher, batch: seq<Row>, rows: seq<Row>, missed: set<int>, used: set<Key>)
    requires SamePlaces(batch, rows) && Unique(rows) && c.current in used
    requires forall i :: 0 <= i < |rows| ==> Faithful(rows[i], used)
    ensures var after := RacedBatch(c, batch, rows, missed);
      && (forall i :: 0 <= i < |after| ==> Faithful(after[i], used))
      && Unique(after) && forall other :: SamePlaces(other, rows) ==> SamePlaces(other, after)
  {
    hide Faithful, RacedBatch, Read;
    var after := RacedBatch(c, batch, rows, missed);
    forall i | 0 <= i < |rows|
      ensures Faithful(after[i], used) && after[i].key == rows[i].key && after[i].place == rows[i].place
    {
      RacedBatchKeepsValues(c, batch, rows, missed, i);
      ResealFaithful(c, rows[i], used);
      if after[i].stored == rows[i].stored { assert after[i] == rows[i]; }
    }
  }

  /** The next session of a process that migrates: what it knows about itself does not change. */
  ghost predicate Continues(s: Session, t: Session) {
    t.ring == s.ring && t.state == s.state && t.recorded == s.recorded
  }

  /** A column's next state: its cells stay faithful and it has recorded a key. */
  lemma ColumnKeeps(w: World, p: nat, k: nat, col: Column, t: Session)
    requires StoreInv(w) && p in w.sessions && k < |w.columns|
    requires SameShape([w.columns[k]], [col]) && col.state.Some?
    requires forall i :: 0 <= i < |col.rows| ==> Faithful(col.rows[i], w.used)
    requires Continues(w.sessions[p], t) && (t.phase.Scan? || t.phase.Fetch?) && SessionCipher(t).Some?
    ensures StoreInv(Set(w.(columns := w.columns[k := col]), p, t))
  {
    hide Faithful, Unique, SamePlaces;
    var after := Set(w.(columns := w.columns[k := col]), p, t);
    assert SessionSound(w, w.sessions[p]);
    assert [w.columns[k]][0] == w.columns[k] && [col][0] == col;
    assert SameShape(w.columns, after.columns);
    SameShapeUnique(w.columns, after.columns);
    assert HoldsSealed(after) by { assert after.columns[k].state.Some?; }
    forall x, y | 0 <= x < |after.columns| && 0 <= y < |after.columns[x].rows|
      ensures Faithful(after.columns[x].rows[y], after.used)
    {
      if x == k { assert Faithful(col.rows[y], w.used); } else { assert Faithful(w.columns[x].rows[y], w.used); }
    }
    OthersStaySound(w, after, p);
  }

  /** Steps that only move the session on. */
  lemma SessionKeeps(w: World, p: nat, t: Session)
    requires StoreInv(w) && p in w.sessions && Continues(w.sessions[p], t) && !t.phase.Ready? && SessionCipher(t).Some?
    requires t.phase.Fetched? ==> t.phase.column < |w.columns| && SamePlaces(t.phase.batch, w.columns[t.phase.column].rows)
    ensures StoreInv(Set(w, p, t))
  {
    hide Faithful, Unique, SamePlaces;
    var after := Set(w, p, t);
    assert SessionSound(w, w.sessions[p]);
    assert after.columns == w.columns && HoldsSealed(after) == HoldsSealed(w);
    assert CellsFaithful(after);
    OthersStaySound(w, after, p);
  }

  lemma BatchSamePlaces(rows: seq<Row>, from: nat, to: nat)
    requires from <= to <= |rows| && Unique(rows)
    ensures SamePlaces(rows[from..to], rows)
  {
  }

  lemma RecordKeeps(w: World, p: nat, t: Session, key: Key)
    requires StoreInv(w) && p in w.sessions && Continues(w.sessions[p], t) && t.phase.Ready? && SessionCipher(t).Some?
    requires key in w.used
    ensures StoreInv(Set(w.(storeKey := Some(key)), p, t))
  {
    hide Faithful, Unique, SamePlaces;
    var after := Set(w.(storeKey := Some(key)), p, t);
    assert SessionSound(w, w.sessions[p]);
    assert after.columns == w.columns && HoldsSealed(after);
    assert CellsFaithful(after);
    OthersStaySound(w, after, p);
  }

  lemma SessionFacts(w: World, p: nat)
    requires StoreInv(w) && p in w.sessions
    ensures SessionSound(w, w.sessions[p])
    ensures forall k :: 0 <= k < |w.columns| ==> Unique(w.columns[k].rows)
    ensures forall k, i :: 0 <= k < |w.columns| && 0 <= i < |w.columns[k].rows| ==> Faithful(w.columns[k].rows[i], w.used)
  {
    hide Faithful, Unique, SessionSound;
  }

  lemma SameCipher(s: Session, phase: Phase, more: nat, left: bool)
    ensures SessionCipher(s.(phase := phase)) == SessionCipher(s)
    ensures SessionCipher(s.(phase := phase, retiredLeft := left)) == SessionCipher(s)
    ensures SessionCipher(s.(phase := phase, unreadable := s.unreadable + more)) == SessionCipher(s)
  {
  }

  lemma ScanKeeps(w: World, p: nat, c: Cipher, missed: set<int>)
    requires StoreInv(w) && p in w.sessions && SessionCipher(w.sessions[p]) == Some(c) && w.sessions[p].phase.Scan?
    ensures StoreInv(Migrating(w, p, w.sessions[p], c, missed))
  {
    SessionFacts(w, p);
    hide StoreInv, Faithful, Unique, SamePlaces, Skipped, StartCursor, SessionCipher;
    var s := w.sessions[p];
    var k := s.phase.column;
    if k >= |w.columns| {
      var left := s.retiredLeft && s.unreadable > 0;
      SameCipher(s, Ready, 0, left);
      var key := if left && s.state.Retired? then s.recorded.value else c.current;
      RecordKeeps(w, p, s.(phase := Ready, retiredLeft := left), key);
    } else if Skipped(w.columns[k], s.retiredLeft) {
      SameCipher(s, Scan(k + 1), 0, false);
      SessionKeeps(w, p, s.(phase := Scan(k + 1)));
    } else {
      SameCipher(s, Fetch(k, StartCursor(w.columns[k])), 0, false);
      SessionKeeps(w, p, s.(phase := Fetch(k, StartCursor(w.columns[k]))));
    }
  }

  lemma FetchKeeps(w: World, p: nat, c: Cipher, missed: set<int>)
    requires StoreInv(w) && p in w.sessions && SessionCipher(w.sessions[p]) == Some(c) && w.sessions[p].phase.Fetch?
    ensures StoreInv(Migrating(w, p, w.sessions[p], c, missed))
  {
    SessionFacts(w, p);
    hide StoreInv, Faithful, Unique, SamePlaces, Passed, SessionCipher;
    var s := w.sessions[p];
    var k, cursor := s.phase.column, s.phase.cursor;
    if k < |w.columns| {
      var rows := w.columns[k].rows;
      var from := Passed(rows, cursor);
      if from == |rows| {
        SameCipher(s, Scan(k + 1), 0, false);
        ColumnKeeps(w, p, k, w.columns[k].(state := Some(ColumnState(Sealed, None, c.current))), s.(phase := Scan(k + 1)));
      } else {
        var to := Min(from + BATCH, |rows|);
        BatchSamePlaces(rows, from, to);
        SameCipher(s, Fetched(k, rows[from..to]), 0, false);
        SessionKeeps(w, p, s.(phase := Fetched(k, rows[from..to])));
      }
    }
  }

  lemma FetchedKeeps(w: World, p: nat, c: Cipher, missed: set<int>)
    requires StoreInv(w) && p in w.sessions && SessionCipher(w.sessions[p]) == Some(c) && w.sessions[p].phase.Fetched?
    ensures StoreInv(Migrating(w, p, w.sessions[p], c, missed))
  {
    SessionFacts(w, p);
    hide StoreInv, Faithful, Unique, SamePlaces, CountUnreadable, RacedBatch, SessionCipher;
    var s := w.sessions[p];
    var k, batch := s.phase.column, s.phase.batch;
    if batch != [] {
      var rows := w.columns[k].rows;
      RacedFaithful(c, batch, rows, missed, w.used);
      var last := Some(batch[|batch| - 1].key);
      var col := Column(RacedBatch(c, batch, rows, missed), Some(ColumnState(Sealing, last, c.current)));
      assert [w.columns[k]][0] == w.columns[k] && [col][0] == col;
      SameCipher(s, Fetch(k, last), CountUnreadable(c, batch), false);
      ColumnKeeps(w, p, k, col, s.(phase := Fetch(k, last), unreadable := s.unreadable + CountUnreadable(c, batch)));
    }
  }

  /** Every transaction of a migration, whatever was written since its batch was fetched. */
  lemma AdvanceKeeps(w: World, p: nat, missed: set<int>)
    requires StoreInv(w)
    ensures StoreInv(Moved(w, Advance(p, missed)))
  {
    hide StoreInv, Migrating;
    if p in w.sessions && SessionCipher(w.sessions[p]).Some? {
      var c := SessionCipher(w.sessions[p]).value;
      match w.sessions[p].phase
      case Scan(_) => ScanKeeps(w, p, c, missed);
      case Fetch(_, _) => FetchKeeps(w, p, c, missed);
      case Fetched(_, _) => FetchedKeeps(w, p, c, missed);
      case Ready => assert Migrating(w, p, w.sessions[p], c, missed) == w by { ReadyStays(w, p, c, missed); }
    }
  }

  lemma ReadyStays(w: World, p: nat, c: Cipher, missed: set<int>)
    requires p in w.sessions && w.sessions[p].phase.Ready?
    ensures Migrating(w, p, w.sessions[p], c, missed) == w
  {
  }

  lemma WriteKeeps(w: World, p: nat, k: nat, i: nat, value: string)
    requires StoreInv(w)
    ensures StoreInv(Moved(w, Write(p, k, i, value)))
  {
    if p in w.sessions && w.sessions[p].phase.Ready? && IsCell(w, k, i) {
      SessionFacts(w, p);
      hide StoreInv, Unique, SamePlaces, SetCell;
      var s := w.sessions[p];
      var stored := SealForWrite(SessionCipher(s), s.state, w.columns[k].rows[i].place, value);
      if stored.Ok? {
        EmptyIsPlain();
        assert Faithful(w.columns[k].rows[i].(stored := stored.value, written := value), w.used);
        hide Faithful;
        CellKeeps(w, k, i, stored.value, value);
      }
    }
  }

  lemma EmptyIsPlain()
    ensures !Versioned("")
  {
  }

  lemma ExitKeeps(w: World, p: nat)
    requires StoreInv(w)
    ensures StoreInv(Moved(w, Exit(p)))
  {
    hide Faithful, Unique, SessionSound;
    var after := Moved(w, Exit(p));
    assert after.columns == w.columns && HoldsSealed(after) == HoldsSealed(w);
    assert CellsFaithful(after);
    forall q | q in after.sessions ensures SessionSound(after, after.sessions[q]) {
      SameSession(w, after, w.sessions[q]);
    }
  }

  lemma SameSession(w: World, after: World, s: Session)
    requires w.columns == after.columns && w.used == after.used && w.storeKey == after.storeKey && SessionSound(w, s)
    ensures SessionSound(after, s)
  {
  }

  lemma MoveKeeps(w: World, m: Move)
    requires StoreInv(w) && (m.PlainElsewhere? ==> !Versioned(m.value))
    ensures StoreInv(Moved(w, m))
  {
    hide StoreInv, HoldsSealed, SetCell;
    match m
    case Open(p, ring) => OpenKeeps(w, p, ring);
    case Advance(p, missed) => AdvanceKeeps(w, p, missed);
    case Write(p, k, i, value) => WriteKeeps(w, p, k, i, value);
    case PlainElsewhere(k, i, value) =>
      if IsCell(w, k, i) { CellKeeps(w, k, i, Raw(value), value); }
    case Exit(p) => ExitKeeps(w, p);
  }

  lemma {:induction false} PlayKeeps(start: World, moves: seq<Move>)
    requires StoreInv(start) && PlainTexts(moves)
    ensures StoreInv(Play(start, moves))
  {
    hide StoreInv, Moved;
    if moves != [] {
      var n := |moves| - 1;
      assert moves[n] in moves && forall m :: m in moves[..n] ==> m in moves;
      PlayKeeps(start, moves[..n]);
      MoveKeeps(Play(start, moves[..n]), moves[n]);
    }
  }

  /** A store of legacy values, none of which reads as an envelope, before any key. */
  ghost predicate Legacy(w: World) {
    && w.storeKey.None? && w.sessions == map[] && w.used == {}
    && forall k :: 0 <= k < |w.columns| ==>
         && w.columns[k].state.None? && Unique(w.columns[k].rows)
         && forall i :: 0 <= i < |w.columns[k].rows| ==>
              !w.columns[k].rows[i].stored.Envelope? && Faithful(w.columns[k].rows[i], {})
  }

  lemma LegacyIsSound(w: World)
    requires Legacy(w)
    ensures StoreInv(w)
  {
    hide Unique;
  }

  // ---- What a process reads --------------------------------------------------------------------------------

  /** Whatever happened before, with whatever keys, a process opens a cell to the value last written to
      it if and only if the cell is not sealed or the process holds the key it is sealed under; and it
      never opens one to anything else. */
  lemma OpensExactly(start: World, moves: seq<Move>, p: nat, k: nat, i: nat)
    requires Legacy(start) && PlainTexts(moves)
    requires IsCell(Play(start, moves), k, i) && p in Play(start, moves).sessions
    ensures var w := Play(start, moves);
      var row, cipher := w.columns[k].rows[i], SessionCipher(w.sessions[p]);
      Read(cipher, row.place, row.stored)
      == if row.stored.Envelope? && (cipher.None? || !Holds(cipher.value, row.stored.key)) then None else Some(row.written)
  {
    LegacyIsSound(start);
    PlayKeeps(start, moves);
    hide Legacy, Play, SessionCipher, Versioned, Unique, SealedIsRecorded, SessionsSound;
    var w := Play(start, moves);
    assert Faithful(w.columns[k].rows[i], w.used);
  }

  /** A process with a root key that holds every key that ever sealed in the store is never locked out of
      it: the key the store records was one of them. */
  lemma HolderIsNeverLockedOut(start: World, moves: seq<Move>, p: nat)
    requires Legacy(start) && PlainTexts(moves) && p in Play(start, moves).sessions
    requires var w := Play(start, moves);
      var ring := w.sessions[p].ring;
      ring.root.Some? && forall key :: key in w.used ==> RingHolds(ring, key)
    ensures var s := Play(start, moves).sessions[p];
      IsSealing(s.state) && SessionCipher(s) == Some(Cipher(s.ring.root.value, s.ring.retired))
  {
    LegacyIsSound(start);
    PlayKeeps(start, moves);
    hide Legacy, Play, CellsFaithful, SealedIsRecorded, Unique;
    var w := Play(start, moves);
    assert SessionSound(w, w.sessions[p]);
  }

  /** So it reads back, from every cell, the value last written to it: over any sequence of writes with and
      without a key, rotations, other processes and crashes between any two transactions of a migration. */
  lemma EveryCellOpens(start: World, moves: seq<Move>, p: nat, k: nat, i: nat)
    requires Legacy(start) && PlainTexts(moves)
    requires IsCell(Play(start, moves), k, i) && p in Play(start, moves).sessions
    requires var w := Play(start, moves);
      var ring := w.sessions[p].ring;
      ring.root.Some? && forall key :: key in w.used ==> RingHolds(ring, key)
    ensures var w := Play(start, moves);
      var row := w.columns[k].rows[i];
      Read(SessionCipher(w.sessions[p]), row.place, row.stored) == Some(row.written)
  {
    OpensExactly(start, moves, p, k, i);
    HolderIsNeverLockedOut(start, moves, p);
    LegacyIsSound(start);
    PlayKeeps(start, moves);
    hide Legacy, Play, SessionCipher, Versioned, Unique, Read, SealedIsRecorded, SessionsSound;
    var w := Play(start, moves);
    assert Faithful(w.columns[k].rows[i], w.used);
  }

  // ---- What a process without a key writes ------------------------------------------------------------------

  /** The move of a run with which a process opened the store, if it has it open. */
  function OpenedAt(start: World, moves: seq<Move>, p: nat): (r: Option<nat>)
    ensures r.Some? ==> r.value < |moves|
  {
    if moves == [] then None
    else
      var n := |moves| - 1;
      if moves[n].Open? && moves[n].process == p && p !in Play(start, moves[..n]).sessions then Some(n)
      else if moves[n] == Exit(p) then None
      else OpenedAt(start, moves[..n], p)
  }

  /** A process keeps the keys and the key state it opened the store with. */
  lemma {:induction false} OpenedAtIs(start: World, moves: seq<Move>, p: nat)
    requires start.sessions == map[]
    ensures p in Play(start, moves).sessions <==> OpenedAt(start, moves, p).Some?
    ensures p in Play(start, moves).sessions ==>
      var k := OpenedAt(start, moves, p).value;
      var s, before := Play(start, moves).sessions[p], Play(start, moves[..k]);
      && moves[k] == Open(p, s.ring) && s.recorded == before.storeKey
      && s.state == StoreKeyState(s.ring, before.storeKey, HoldsSealed(before))
  {
    if moves != [] {
      var n := |moves| - 1;
      OpenedAtIs(start, moves[..n], p);
      var r := OpenedAt(start, moves[..n], p);
      if r.Some? { assert moves[..n][..r.value] == moves[..r.value]; }
      hide StoreKeyState, HoldsSealed, SetCell, Skipped, RacedBatch, CountUnreadable, SealForWrite;
      OnlyItself(Play(start, moves[..n]), moves[n], p);
    }
  }

  /** No move changes the keys or the key state of a process that stays. */
  lemma OnlyItself(w: World, m: Move, p: nat)
    ensures p in w.sessions && m != Exit(p) ==>
      p in Moved(w, m).sessions && Continues(w.sessions[p], Moved(w, m).sessions[p])
    ensures p !in w.sessions && p in Moved(w, m).sessions ==>
      && m.Open? && m.process == p
      && var s := Moved(w, m).sessions[p];
         && s.ring == m.ring && s.recorded == w.storeKey
         && s.state == StoreKeyState(m.ring, w.storeKey, HoldsSealed(w))
    ensures m == Exit(p) ==> p !in Moved(w, m).sessions
    ensures p !in w.sessions && m.Open? && m.process == p ==> p in Moved(w, m).sessions
  {
    hide StoreKeyState, HoldsSealed, Skipped, RacedBatch, CountUnreadable, SealForWrite, CipherOf;
  }

  /** A process without a key writes plaintext if and only if nothing had been recorded for the store at
      the moment it opened it, whatever has been sealed since, and the text is no envelope. */
  lemma KeylessWritesExactly(start: World, moves: seq<Move>, p: nat, k: nat, i: nat, value: string)
    requires Legacy(start) && PlainTexts(moves)
    requires IsCell(Play(start, moves), k, i) && p in Play(start, moves).sessions
    requires Play(start, moves).sessions[p].ring.root.None?
    ensures OpenedAt(start, moves, p).Some?
    ensures var w, atOpen := Play(start, moves), Play(start, moves[..OpenedAt(start, moves, p).value]);
      Moved(w, Write(p, k, i, value))
      == if !HoldsSealed(atOpen) && !Versioned(value) then SetCell(w, k, i, Raw(value), value) else w
  {
    LegacyIsSound(start);
    PlayKeeps(start, moves);
    OpenedAtIs(start, moves, p);
    EmptyIsPlain();
    var w := Play(start, moves);
    SessionFacts(w, p);
    hide Legacy, Play, StoreInv, SetCell, Versioned, Unique, SamePlaces, OpenedAt;
  }

  /** So it changes a sealed cell exactly then. */
  lemma KeylessOverwritesSealedExactly(start: World, moves: seq<Move>, p: nat, k: nat, i: nat, value: string)
    requires Legacy(start) && PlainTexts(moves)
    requires IsCell(Play(start, moves), k, i) && p in Play(start, moves).sessions
    requires Play(start, moves).sessions[p].ring.root.None?
    requires Play(start, moves).columns[k].rows[i].stored.Envelope?
    ensures OpenedAt(start, moves, p).Some?
    ensures Moved(Play(start, moves), Write(p, k, i, value)) != Play(start, moves)
      <==> !HoldsSealed(Play(start, moves[..OpenedAt(start, moves, p).value])) && !Versioned(value)
  {
    KeylessWritesExactly(start, moves, p, k, i, value);
    hide Legacy, Play, Versioned, Moved, HoldsSealed, OpenedAt;
    var w := Play(start, moves);
    assert SetCell(w, k, i, Raw(value), value).columns[k].rows[i].stored == Raw(value);
  }

  /** A process without a key that finds a sealed cell when it opens the store never changes it. */
  lemma KeylessLeavesSealedAlone(start: World, moves: seq<Move>, p: nat, k: nat, i: nat, value: string)
    requires Legacy(start) && PlainTexts(moves)
    requires p in Play(start, moves).sessions && Play(start, moves).sessions[p].ring.root.None?
    requires OpenedAt(start, moves, p).Some?
    requires var atOpen := Play(start, moves[..OpenedAt(start, moves, p).value]);
      exists x: nat, y: nat :: IsCell(atOpen, x, y) && atOpen.columns[x].rows[y].stored.Envelope?
    ensures Moved(Play(start, moves), Write(p, k, i, value)) == Play(start, moves)
  {
    var w, n := Play(start, moves), OpenedAt(start, moves, p).value;
    if IsCell(w, k, i) {
      KeylessWritesExactly(start, moves, p, k, i, value);
      LegacyIsSound(start);
      assert forall m :: m in moves[..n] ==> m in moves;
      PlayKeeps(start, moves[..n]);
      hide Legacy, Play, Versioned, CellsFaithful, SessionsSound, Unique, SetCell, OpenedAt;
    }
  }

  // ---- What a process with a key writes -------------------------------------------------------------------

  /** Only the cell changes, and it holds this. */
  ghost predicate Puts(w: World, after: World, k: nat, i: nat, stored: Stored, value: string)
    requires IsCell(w, k, i)
  {
    && after.storeKey == w.storeKey && after.used == w.used && after.sessions == w.sessions
    && SameShape(w.columns, after.columns)
    && (forall x :: 0 <= x < |w.columns| ==> after.columns[x].state == w.columns[x].state)
    && (forall x, y :: 0 <= x < |w.columns| && 0 <= y < |w.columns[x].rows| && (x != k || y != i) ==>
          after.columns[x].rows[y] == w.columns[x].rows[y])
    && after.columns[k].rows[i].stored == stored && after.columns[k].rows[i].written == value
  }

  /** A process that holds a key in a state in which it seals, and is past its migration, stores an empty
      text as it is, where only the emptiness shows, and any other text as an envelope under its current
      key and bound to the cell's place. */
  lemma KeyedWritesExactly(w: World, p: nat, k: nat, i: nat, value: string)
    requires IsCell(w, k, i) && p in w.sessions && w.sessions[p].phase.Ready?
    requires w.sessions[p].ring.root.Some? && w.sessions[p].state in {Record, Current, Retired}
    ensures var row, key := w.columns[k].rows[i], w.sessions[p].ring.root.value;
      Puts(w, Moved(w, Write(p, k, i, value)), k, i,
           if value == "" then Raw("") else Envelope(key, row.place, value), value)
  {
    hide Versioned, HoldsSealed;
  }

  /** A process that holds a key it may not use writes nothing. */
  lemma LockedOutWritesNothing(start: World, moves: seq<Move>, p: nat, k: nat, i: nat, value: string)
    requires Legacy(start) && PlainTexts(moves) && p in Play(start, moves).sessions
    requires Play(start, moves).sessions[p].ring.root.Some?
    requires Play(start, moves).sessions[p].state !in {Record, Current, Retired}
    ensures Moved(Play(start, moves), Write(p, k, i, value)) == Play(start, moves)
    ensures Moved(Play(start, moves), Advance(p, {})) == Play(start, moves)
  {
    LegacyIsSound(start);
    OpenedAtIs(start, moves, p);
    hide Legacy, Play, SetCell, Versioned, OpenedAt, HoldsSealed;
  }

  /** No cell shows a text: each is empty or sealed. */
  ghost predicate AllSealed(w: World) {
    forall k, i :: 0 <= k < |w.columns| && 0 <= i < |w.columns[k].rows| && w.columns[k].rows[i].stored.Raw? ==>
      w.columns[k].rows[i].stored.text == ""
  }

  /** The move puts a text in the clear: an older build writes one, or a process without a key that may
      write does. */
  predicate PutsPlaintext(w: World, m: Move) {
    match m
    case PlainElsewhere(k, i, value) => IsCell(w, k, i) && value != ""
    case Write(p, k, i, value) =>
      && IsCell(w, k, i) && p in w.sessions && w.sessions[p].phase.Ready?
      && SessionCipher(w.sessions[p]).None? && w.sessions[p].state.Compat?
      && value != "" && !Versioned(value)
    case _ => false
  }

  /** Once no cell shows a text, a move makes one do so if and only if it puts one in the clear: opening,
      every transaction of a migration and every write with a key leave it so. */
  lemma SealedStaysExactly(w: World, m: Move)
    requires AllSealed(w)
    ensures AllSealed(Moved(w, m)) <==> !PutsPlaintext(w, m)
  {
    hide AllSealed, PutsPlaintext, Moved;
    match m
    case Open(p, ring) => OpenStaysSealed(w, m);
    case Exit(p) => OpenStaysSealed(w, m);
    case Advance(p, missed) => AdvanceStaysSealed(w, p, missed);
    case Write(p, k, i, value) => WriteStaysSealed(w, p, k, i, value);
    case PlainElsewhere(k, i, value) => PlainStaysSealed(w, k, i, value);
  }

  lemma OpenStaysSealed(w: World, m: Move)
    requires AllSealed(w) && (m.Open? || m.Exit?)
    ensures AllSealed(Moved(w, m)) && !PutsPlaintext(w, m)
  {
    hide CipherOf, StoreKeyState, HoldsSealed;
    assert Moved(w, m).columns == w.columns;
  }

  lemma AdvanceStaysSealed(w: World, p: nat, missed: set<int>)
    requires AllSealed(w)
    ensures AllSealed(Moved(w, Advance(p, missed))) && !PutsPlaintext(w, Advance(p, missed))
  {
    hide Skipped, Passed, CountUnreadable, RacedBatch, CipherOf;
    var after := Moved(w, Advance(p, missed));
    if p in w.sessions && SessionCipher(w.sessions[p]).Some? && w.sessions[p].phase.Fetched? {
      var c, k, batch := SessionCipher(w.sessions[p]).value, w.sessions[p].phase.column, w.sessions[p].phase.batch;
      if k < |w.columns| && batch != [] {
        var rows := w.columns[k].rows;
        forall i | 0 <= i < |rows| && RacedBatch(c, batch, rows, missed)[i].stored.Raw?
          ensures RacedBatch(c, batch, rows, missed)[i].stored.text == ""
        {
          RacedStaysSealed(c, batch, rows, missed, i);
        }
        assert after.columns == w.columns[k := after.columns[k]];
      }
    }
  }

  lemma RacedStaysSealed(c: Cipher, batch: seq<Row>, rows: seq<Row>, missed: set<int>, i: nat)
    requires i < |rows| && (rows[i].stored.Raw? ==> rows[i].stored.text == "")
    ensures RacedBatch(c, batch, rows, missed)[i].stored.Raw? ==> RacedBatch(c, batch, rows, missed)[i].stored.text == ""
  {
    hide FindSeen, Versioned;
  }

  lemma WriteStaysSealed(w: World, p: nat, k: nat, i: nat, value: string)
    requires AllSealed(w)
    ensures AllSealed(Moved(w, Write(p, k, i, value))) <==> !PutsPlaintext(w, Write(p, k, i, value))
  {
    EmptyIsPlain();
    hide Versioned, SetCell, CipherOf;
    if p in w.sessions && w.sessions[p].phase.Ready? && IsCell(w, k, i) {
      var s := w.sessions[p];
      var stored := SealForWrite(SessionCipher(s), s.state, w.columns[k].rows[i].place, value);
      if stored.Ok? { CellStaysSealed(w, k, i, stored.value, value); }
    }
  }

  lemma PlainStaysSealed(w: World, k: nat, i: nat, value: string)
    requires AllSealed(w)
    ensures AllSealed(Moved(w, PlainElsewhere(k, i, value))) <==> !PutsPlaintext(w, PlainElsewhere(k, i, value))
  {
    hide SetCell;
    if IsCell(w, k, i) { CellStaysSealed(w, k, i, Raw(value), value); }
  }

  lemma CellStaysSealed(w: World, k: nat, i: nat, stored: Stored, value: string)
    requires AllSealed(w) && IsCell(w, k, i)
    ensures AllSealed(SetCell(w, k, i, stored, value)) <==> (stored.Raw? ==> stored.text == "")
  {
    var after := SetCell(w, k, i, stored, value);
    assert after.columns[k].rows[i].stored == stored;
    forall x, y | 0 <= x < |after.columns| && 0 <= y < |after.columns[x].rows| && (x != k || y != i)
      ensures after.columns[x].rows[y] == w.columns[x].rows[y]
    {
    }
  }

  /** From a moment at which no cell shows a text, none does at any later moment of a run if and only if no
      move of the rest of it puts one in the clear. */
  lemma SealedThroughoutExactly(start: World, moves: seq<Move>, from: nat)
    requires from <= |moves| && AllSealed(Play(start, moves[..from]))
    ensures (forall k :: from <= k <= |moves| ==> AllSealed(Play(start, moves[..k])))
      <==> forall k :: from <= k < |moves| ==> !PutsPlaintext(Play(start, moves[..k]), moves[k])
  {
    hide AllSealed, PutsPlaintext, Play, Moved;
    forall k | from <= k < |moves| && AllSealed(Play(start, moves[..k]))
      ensures AllSealed(Play(start, moves[..k + 1])) <==> !PutsPlaintext(Play(start, moves[..k]), moves[k])
    {
      PlayNext(start, moves, k);
      SealedStaysExactly(Play(start, moves[..k]), moves[k]);
    }
    if forall k :: from <= k < |moves| ==> !PutsPlaintext(Play(start, moves[..k]), moves[k]) {
      for n := from to |moves|
        invariant forall k :: from <= k <= n ==> AllSealed(Play(start, moves[..k]))
      {
        assert AllSealed(Play(start, moves[..n])) && !PutsPlaintext(Play(start, moves[..n]), moves[n]);
      }
    }
    if forall k :: from <= k <= |moves| ==> AllSealed(Play(start, moves[..k])) {
      forall k | from <= k < |moves| ensures !PutsPlaintext(Play(start, moves[..k]), moves[k]) {
        assert AllSealed(Play(start, moves[..k])) && AllSealed(Play(start, moves[..k + 1]));
      }
    }
  }

  lemma PlayNext(start: World, moves: seq<Move>, k: nat)
    requires k < |moves|
    ensures Play(start, moves[..k + 1]) == Moved(Play(start, moves[..k]), moves[k])
  {
    hide Moved;
    assert moves[..k + 1][..k] == moves[..k];
  }
}
