/** Runs from a legacy store of one cell that reach each failure of sealing and migration. */
module SealedWitness {
  import opened Prelude
  import opened Sealing
  import opened Migration
  import opened MigrationFacts
  import opened SealedStore
  import opened SealedPass

  const A: Key := 1
  const B: Key := 2
  const Z: Key := 3

  /** The one cell with what is stored in it, and the column's state. */
  function OneCell(stored: Stored, state: Option<ColumnState>): seq<Column> {
    [Column([Row(1, "p", stored, "x")], state)]
  }

  const START := World(OneCell(Raw("x"), None), None, {}, map[])

  lemma StartIsLegacy()
    ensures Legacy(START) && AllSorted(START.columns)
  {
    assert !Versioned("x");
  }

  /** A run from the start and where it ends. */
  ghost predicate Leads(moves: seq<Move>, w: World) {
    PlainTexts(moves) && w == Play(START, moves)
  }

  lemma OneMore(moves: seq<Move>, w: World, m: Move)
    requires Leads(moves, w) && !m.PlainElsewhere?
    ensures Leads(moves + [m], Moved(w, m))
  {
    hide Moved;
    assert (moves + [m])[..|moves|] == moves;
  }

  lemma OpensSession(moves: seq<Move>, w: World, p: nat, ring: KeyRing) returns (more: seq<Move>, next: World)
    requires Leads(moves, w) && p !in w.sessions
    ensures Leads(more, next) && next == Opening(w, p, ring)
  {
    hide Opening;
    OneMore(moves, w, Open(p, ring));
    more, next := moves + [Open(p, ring)], Moved(w, Open(p, ring));
  }

  lemma Advances(moves: seq<Move>, w: World, p: nat, c: Cipher) returns (more: seq<Move>, next: World)
    requires Leads(moves, w) && p in w.sessions && SessionCipher(w.sessions[p]) == Some(c)
    ensures Leads(more, next) && next == Migrating(w, p, w.sessions[p], c, {})
  {
    hide Migrating;
    OneMore(moves, w, Advance(p, {}));
    more, next := moves + [Advance(p, {})], Moved(w, Advance(p, {}));
  }

  lemma Exits(moves: seq<Move>, w: World, p: nat) returns (more: seq<Move>, next: World)
    requires Leads(moves, w)
    ensures Leads(more, next) && next == w.(sessions := w.sessions - {p})
  {
    OneMore(moves, w, Exit(p));
    more, next := moves + [Exit(p)], Moved(w, Exit(p));
  }

  /** What a pass over the one cell's column makes of the cell. */
  function Resealed(c: Cipher, stored: Stored): Stored { Reseal(c, Row(1, "p", stored, "x")).stored }

  function CountOne(c: Cipher, stored: Stored): nat { if Unreadable(c, Row(1, "p", stored, "x")) then 1 else 0 }

  lemma OneRow(c: Cipher, stored: Stored)
    ensures var rows := [Row(1, "p", stored, "x")];
      && Passed(rows, None) == 0 && Passed(rows, Some(1)) == 1 && rows[0..Min(0 + BATCH, 1)] == rows
      && RacedBatch(c, rows, rows, {}) == [Row(1, "p", Resealed(c, stored), "x")]
      && CountUnreadable(c, rows) == CountOne(c, stored)
  {
    var row := Row(1, "p", stored, "x");
    assert [row][1..] == [] && [row][..0] == [];
    assert FindSeen([row], 1) == Some(0);
    assert RacedBatch(c, [row], [row], {})[0] == Cas(c, row, row);
    assert Cas(c, row, row) == Row(1, "p", Resealed(c, stored), "x");
    assert CountUnreadable(c, [row]) == CountUnreadable(c, []) + CountOne(c, stored);
  }

  /** Open, choose the column, fetch its one batch from the beginning and apply it. */
  lemma FirstBatch(
    moves: seq<Move>, w: World, p: nat, ring: KeyRing, stored: Stored, state: Option<ColumnState>)
    returns (more: seq<Move>, next: World)
    requires Leads(moves, w) && p !in w.sessions && w.columns == OneCell(stored, state) && OpensSealing(w, ring)
    requires StartCursor(w.columns[0]).None?
    requires !Skipped(w.columns[0], StoreKeyState(ring, w.storeKey, HoldsSealed(w)).Retired?)
    ensures var c, status := Cipher(ring.root.value, ring.retired), StoreKeyState(ring, w.storeKey, HoldsSealed(w));
      && Leads(more, next)
      && next == World(
           OneCell(Resealed(c, stored), Some(ColumnState(Sealing, Some(1), c.current))), w.storeKey,
           w.used + {c.current},
           w.sessions[p := Session(ring, status, w.storeKey, Fetch(0, Some(1)), CountOne(c, stored), status.Retired?)])
  {
    hide Skipped, StoreKeyState, HoldsSealed, Passed, RacedBatch, CountUnreadable, Leads, Resealed, CountOne;
    var c := Cipher(ring.root.value, ring.retired);
    OneRow(c, stored);
    var a, ready := OpensSession(moves, w, p, ring);
    var b, chosen := Advances(a, ready, p, c);
    var d, fetched := Advances(b, chosen, p, c);
    more, next := Advances(d, fetched, p, c);
    assert next.columns == OneCell(Resealed(c, stored), Some(ColumnState(Sealing, Some(1), c.current)));
  }

  /** From a cursor behind the cell: nothing is left to visit, and the key is recorded. */
  lemma LastSteps(moves: seq<Move>, w: World, p: nat, stored: Stored, state: Option<ColumnState>, c: Cipher)
    returns (more: seq<Move>, next: World)
    requires Leads(moves, w) && p in w.sessions && w.columns == OneCell(stored, state)
    requires SessionCipher(w.sessions[p]) == Some(c) && w.sessions[p].phase == Fetch(0, Some(1))
    ensures var s := w.sessions[p];
      var left := s.retiredLeft && s.unreadable > 0;
      && Leads(more, next)
      && next == World(
           OneCell(stored, Some(ColumnState(Sealed, None, c.current))),
           if left && s.state.Retired? then s.recorded else Some(c.current), w.used,
           w.sessions[p := s.(phase := Ready, retiredLeft := left)])
  {
    hide Passed, Leads, CipherOf;
    OneRow(c, stored);
    var a, sealed := Advances(moves, w, p, c);
    assert sealed.columns == OneCell(stored, Some(ColumnState(Sealed, None, c.current)));
    more, next := Advances(a, sealed, p, c);
  }

  /** Open with a saved cursor behind the cell. */
  lemma Resumes(
    moves: seq<Move>, w: World, p: nat, ring: KeyRing, stored: Stored, kcv: Key)
    returns (more: seq<Move>, next: World)
    requires Leads(moves, w) && p !in w.sessions && OpensSealing(w, ring)
    requires w.columns == OneCell(stored, Some(ColumnState(Sealing, Some(1), kcv)))
    ensures var c, status := Cipher(ring.root.value, ring.retired), StoreKeyState(ring, w.storeKey, HoldsSealed(w));
      && Leads(more, next)
      && next == World(w.columns, w.storeKey, w.used + {c.current},
           w.sessions[p := Session(ring, status, w.storeKey, Fetch(0, Some(1)), 0, status.Retired?)])
  {
    hide StoreKeyState, HoldsSealed, Leads;
    var c := Cipher(ring.root.value, ring.retired);
    var a, ready := OpensSession(moves, w, p, ring);
    more, next := Advances(a, ready, p, c);
  }

  // ---- The failures ------------------------------------------------------------------------------------------

  /** The first migration is cut after its only batch and the key is then rotated: the resumed migration
      ends with the new key recorded and the cell still sealed under the old one. */
  lemma FirstKeyForgotten() returns (moves: seq<Move>, end: World)
    ensures Legacy(START) && Leads(moves, end)
    ensures 0 in end.sessions && end.sessions[0].ring == KeyRing(Some(B), [A]) && end.sessions[0].phase.Ready?
    ensures end.storeKey == Some(B) && IsCell(end, 0, 0) && !OpensAlone(B, end.columns[0].rows[0])
  {
    hide Leads;
    StartIsLegacy();
    StartLeads();
    var first, second := KeyRing(Some(A), []), KeyRing(Some(B), [A]);
    PlainIsResealed(Cipher(A, []));
    var a, cut := FirstBatch([], START, 0, first, Raw("x"), None);
    var b, closed := Exits(a, cut, 0);
    var d, resumed := Resumes(b, closed, 0, second, Envelope(A, "p", "x"), A);
    moves, end := LastSteps(d, resumed, 0, Envelope(A, "p", "x"), closed.columns[0].state, Cipher(B, [A]));
  }

  lemma StartLeads()
    ensures Leads([], START)
  {
  }

  lemma PlainIsResealed(c: Cipher)
    ensures Resealed(c, Raw("x")) == Envelope(c.current, "p", "x") && CountOne(c, Raw("x")) == 0
  {
    assert !Versioned("x");
  }

  /** A process without a key opens the store, another one with a key opens and seals it, and the first
      one then puts plaintext over the sealed cell. */
  lemma KeylessOverwritesSealed() returns (moves: seq<Move>, end: World)
    ensures Legacy(START) && Leads(moves, end)
    ensures 0 in end.sessions && end.sessions[0].ring.root.None? && end.storeKey == Some(A)
    ensures IsCell(end, 0, 0) && end.columns[0].rows[0].stored.Envelope?
    ensures var after := Moved(end, Write(0, 0, 0, "y"));
      IsCell(after, 0, 0) && after.columns[0].rows[0].stored == Raw("y")
  {
    hide Leads;
    StartIsLegacy();
    StartLeads();
    PlainIsResealed(Cipher(A, []));
    assert !Versioned("y");
    var a, keyless := OpensSession([], START, 0, KeyRing(None, []));
    var b, begun := FirstBatch(a, keyless, 1, KeyRing(Some(A), []), Raw("x"), None);
    moves, end := LastSteps(b, begun, 1, Envelope(A, "p", "x"), begun.columns[0].state, Cipher(A, []));
  }

  /** The cell is sealed under a key that is then lost; the store, recorded under the next key, is opened
      with that one retired, cut and opened again: it records the current key although the cell does not
      open. */
  lemma UnreadableLeftBehind() returns (moves: seq<Move>, end: World)
    ensures Legacy(START) && Leads(moves, end)
    ensures 0 in end.sessions && end.sessions[0].phase.Ready? && end.sessions[0].ring == KeyRing(Some(B), [A])
    ensures end.sessions[0].state.Retired? && end.sessions[0].recorded == Some(A)
    ensures end.storeKey == Some(B) && IsCell(end, 0, 0) && Unreadable(Cipher(B, [A]), end.columns[0].rows[0])
  {
    hide Leads;
    StartIsLegacy();
    StartLeads();
    var lost, next, last := KeyRing(Some(Z), []), KeyRing(Some(A), []), KeyRing(Some(B), [A]);
    var cell := Envelope(Z, "p", "x");
    PlainIsResealed(Cipher(Z, []));
    LostIsUnreadable(Cipher(B, [A]));
    var a, w1 := FirstBatch([], START, 0, lost, Raw("x"), None);
    var b, w2 := Exits(a, w1, 0);
    var d, w3 := Resumes(b, w2, 0, next, cell, Z);
    var e, w4 := LastSteps(d, w3, 0, cell, w2.columns[0].state, Cipher(A, []));
    var f, w5 := Exits(e, w4, 0);
    var g, w6 := FirstBatch(f, w5, 0, last, cell, w5.columns[0].state);
    var h, w7 := Exits(g, w6, 0);
    var i, w8 := Resumes(h, w7, 0, last, cell, B);
    moves, end := LastSteps(i, w8, 0, cell, w7.columns[0].state, Cipher(B, [A]));
  }

  lemma LostIsUnreadable(c: Cipher)
    requires !Holds(c, Z)
    ensures Unreadable(c, Row(1, "p", Envelope(Z, "p", "x"), "x"))
    ensures Resealed(c, Envelope(Z, "p", "x")) == Envelope(Z, "p", "x")
  {
  }
}
