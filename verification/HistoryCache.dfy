/** `history.jsonl` as a cache of one campaign's document: who stamps what when, and what startup can
    tell from the stamps (`campaigns.py`, `refresh_history` and `_history_needs_refresh`). Which changes of
    the document stamp the campaign is shown in `Documents`: all of them, except that the recovery of a
    start may not. */
module HistoryCache {
  import opened Prelude

  datatype File = Absent | Present(document: string, sealed: bool)

  /** Refreshes are serialized, so there is at most one. */
  datatype Refresh =
    | Idle
    | Began(stamp: int)
    | HasRead(stamp: int, document: string)
    | Replaced(stamp: int, document: string)

  /** The store's document and its stamps, the file, the refresh in progress, the stamps that writers have
      taken but not committed, and whether the start under way has recovered the campaign and still has to
      refresh it: it remembers that, the store does not. */
  datatype World = World(
    clock: int, document: string, updatedAt: int, refreshedAt: Option<int>,
    file: File, refresh: Refresh, writers: seq<int>, stale: bool)

  datatype Move =
    | Tick(elapsed: nat)
    | Stamp
    | Commit(writer: nat, document: string)
    | Abort(writer: nat)
    | Begin
    | ReadState
    | Replace(canSeal: bool)
    | Record
    | Fail
    | Crash
    | Lose
    | Recover(document: string, stamped: bool)
    | Skip

  function Without(s: seq<int>, i: nat): seq<int>
    requires i < |s|
  {
    s[..i] + s[i + 1..]
  }

  function Moved(w: World, m: Move): World {
    match m
    case Tick(elapsed) => w.(clock := w.clock + elapsed)
    case Stamp => w.(writers := w.writers + [w.clock])
    case Commit(i, document) =>
      if i < |w.writers| then w.(document := document, updatedAt := w.writers[i], writers := Without(w.writers, i)) else w
    case Abort(i) => if i < |w.writers| then w.(writers := Without(w.writers, i)) else w
    case Begin => if w.refresh.Idle? then w.(refresh := Began(w.clock)) else w
    case ReadState => if w.refresh.Began? then w.(refresh := HasRead(w.refresh.stamp, w.document)) else w
    case Replace(canSeal) =>
      if w.refresh.HasRead?
      then w.(file := Present(w.refresh.document, canSeal), refresh := Replaced(w.refresh.stamp, w.refresh.document))
      else w
    case Record => if w.refresh.Replaced? then w.(refreshedAt := Some(w.refresh.stamp), refresh := Idle, stale := false) else w
    case Fail => w.(refresh := Idle)
    case Crash => w.(refresh := Idle, writers := [], stale := false)
    case Lose => w.(file := Absent)
    case Recover(document, stamped) =>
      // The transaction of a start: nothing else is in flight.
      if w.refresh.Idle? && w.writers == []
      then w.(document := document, updatedAt := if stamped then w.clock else w.updatedAt, stale := true)
      else w
    case Skip => w.(stale := false)
  }

  function Play(start: World, moves: seq<Move>): World {
    if moves == [] then start else Moved(Play(start, moves[..|moves| - 1]), moves[|moves| - 1])
  }

  /** `_history_needs_refresh`. */
  predicate NeedsRefresh(w: World, canSeal: bool) {
    || w.stale
    || w.refreshedAt.None?
    || w.updatedAt >= w.refreshedAt.value
    || w.file.Absent?
    || (canSeal && !w.file.sealed)
  }

  predicate IsCurrent(w: World) {
    w.file.Present? && w.file.document == w.document
  }

  /** A store that has never been refreshed, with nothing in flight. */
  predicate Initial(w: World) {
    w.refreshedAt.None? && w.refresh.Idle? && w.writers == [] && w.updatedAt <= w.clock && !w.stale
  }

  /** The refresh reads while no writer holds a stamp older than the refresh's own. */
  predicate SafeRead(w: World) {
    w.refresh.Began? ==> forall i :: 0 <= i < |w.writers| ==> w.refresh.stamp <= w.writers[i]
  }

  /** What the start remembers can be told from the store as well. */
  predicate SafeEnd(w: World) {
    w.stale ==> w.refreshedAt.None? || w.updatedAt >= w.refreshedAt.value
  }

  /** No refresh reads while a writer holds an older stamp, and no start is cut, or gives the campaign up,
      between an unstamped recovery and the refresh that follows it. */
  predicate Safe(w: World, m: Move) {
    (m.ReadState? ==> SafeRead(w)) && (m.Crash? || m.Skip? ==> SafeEnd(w))
  }

  ghost predicate Guarded(start: World, moves: seq<Move>) {
    forall k :: 0 <= k < |moves| ==> Safe(Play(start, moves[..k]), moves[k])
  }

  // ---- Staleness is never missed ---------------------------------------------------------------

  /** A document stamped t is the store's, or the store says that it changed since; whatever is still
      in flight will say so too. */
  ghost predicate Covered(w: World, t: int, document: string) {
    document == w.document || t <= w.updatedAt
  }

  ghost predicate NoOlderWriter(w: World, t: int) {
    forall i :: 0 <= i < |w.writers| ==> t <= w.writers[i]
  }

  ghost predicate CacheInv(w: World) {
    && w.updatedAt <= w.clock
    && (forall i :: 0 <= i < |w.writers| ==> w.writers[i] <= w.clock)
    && (w.refreshedAt.Some? ==>
          && w.refreshedAt.value <= w.clock && NoOlderWriter(w, w.refreshedAt.value)
          && (w.file.Present? && !w.stale ==> Covered(w, w.refreshedAt.value, w.file.document))
          && (!w.refresh.Idle? ==> w.refreshedAt.value <= w.refresh.stamp))
    && (!w.refresh.Idle? ==> w.refresh.stamp <= w.clock)
    && (w.refresh.HasRead? || w.refresh.Replaced? ==>
          Covered(w, w.refresh.stamp, w.refresh.document) && NoOlderWriter(w, w.refresh.stamp))
    && (w.refresh.Replaced? && w.file.Present? ==> w.file.document == w.refresh.document)
  }

  lemma MoveKeepsCacheInv(w: World, m: Move)
    requires CacheInv(w) && Safe(w, m)
    ensures CacheInv(Moved(w, m))
  {
    match m
    case Commit(i, document) => CommitKeepsCacheInv(w, i, document);
    case Abort(i) => AbortKeepsCacheInv(w, i);
    case Stamp => StampKeepsCacheInv(w);
    case _ => hide Without;
  }

  lemma StampKeepsCacheInv(w: World)
    requires CacheInv(w)
    ensures CacheInv(Moved(w, Stamp))
  {
  }

  lemma CommitKeepsCacheInv(w: World, i: nat, document: string)
    requires CacheInv(w)
    ensures CacheInv(Moved(w, Commit(i, document)))
  {
    if i < |w.writers| {
      var rest := Without(w.writers, i);
      forall j | 0 <= j < |rest| ensures rest[j] in w.writers {
        assert rest[j] == w.writers[if j < i then j else j + 1];
      }
    }
  }

  lemma AbortKeepsCacheInv(w: World, i: nat)
    requires CacheInv(w)
    ensures CacheInv(Moved(w, Abort(i)))
  {
    if i < |w.writers| {
      var rest := Without(w.writers, i);
      forall j | 0 <= j < |rest| ensures rest[j] in w.writers {
        assert rest[j] == w.writers[if j < i then j else j + 1];
      }
    }
  }

  lemma {:induction false} PlayKeepsCacheInv(start: World, moves: seq<Move>)
    requires Initial(start) && Guarded(start, moves)
    ensures CacheInv(Play(start, moves))
  {
    hide CacheInv, Moved, Safe;
    if moves == [] {
      InitiallySound(start);
    } else {
      var n := |moves| - 1;
      forall k | 0 <= k < n ensures Safe(Play(start, moves[..n][..k]), moves[..n][k]) {
        assert moves[..n][..k] == moves[..k];
      }
      PlayKeepsCacheInv(start, moves[..n]);
      MoveKeepsCacheInv(Play(start, moves[..n]), moves[n]);
    }
  }

  lemma InitiallySound(w: World)
    requires Initial(w)
    ensures CacheInv(w)
  {
  }

  /** At every point of a guarded run, crashes included, a file that is not the store's document is one
      that the next start rebuilds, if and only if the present start does not hold a recovery to itself
      (or the file is lost or unsealed anyway). */
  lemma StalenessIsNoticedExactly(start: World, moves: seq<Move>, canSeal: bool)
    requires Initial(start) && Guarded(start, moves) && !IsCurrent(Play(start, moves))
    ensures var w := Play(start, moves);
      NeedsRefresh(Moved(w, Crash), canSeal)
      <==> SafeEnd(w) || w.file.Absent? || (canSeal && !w.file.sealed)
  {
    hide Play, Without;
    PlayKeepsCacheInv(start, moves);
  }

  // ---- One start --------------------------------------------------------------------------------

  /** How the refresh of the campaign goes, if the start tries one: a campaign that does not open is
      skipped. */
  datatype Outcome = Done | Unopened | Unrecorded

  /** What the recovery changes, if the campaign's attempt was running. */
  datatype Recovery = Nothing | Recovered(document: string, stamped: bool)

  /** A start after a crash, up to the choice of what to refresh. */
  function Recovering(w: World, recovery: Recovery): World {
    match recovery
    case Nothing => Moved(w, Crash)
    case Recovered(document, stamped) => Moved(Moved(w, Crash), Recover(document, stamped))
  }

  /** What startup does about one campaign. */
  function Startup(w: World, recovery: Recovery, outcome: Outcome, canSeal: bool): World {
    var idle := Recovering(w, recovery);
    if !NeedsRefresh(idle, canSeal) then idle
    else
      var begun := Moved(idle, Begin);
      if outcome == Unopened then Moved(Moved(begun, Fail), Skip)
      else
        var replaced := Moved(Moved(begun, ReadState), Replace(canSeal));
        if outcome == Unrecorded then Moved(Moved(replaced, Fail), Skip) else Moved(replaced, Record)
  }

  /** After a crash at a guarded point and a start that could read the campaign, the file is the document:
      the one there was, or the one that the recovery made of it. */
  lemma StartupRestores(start: World, moves: seq<Move>, recovery: Recovery, outcome: Outcome, canSeal: bool)
    requires Initial(start) && Guarded(start, moves) && SafeEnd(Play(start, moves)) && outcome != Unopened
    ensures var w := Play(start, moves);
      var after := Startup(w, recovery, outcome, canSeal);
      IsCurrent(after) && after.document == if recovery.Recovered? then recovery.document else w.document
  {
    hide Play;
    PlayKeepsCacheInv(start, moves);
  }

  /** A start that could not read the campaign leaves the work to the next one, which sees it if and only
      if the recovery was stamped or there was something to see before it. */
  lemma UnopenedIsNoticedExactly(start: World, moves: seq<Move>, recovery: Recovery, canSeal: bool)
    requires Initial(start) && Guarded(start, moves) && SafeEnd(Play(start, moves))
    ensures var w := Play(start, moves);
      NeedsRefresh(Moved(Startup(w, recovery, Unopened, canSeal), Crash), canSeal)
      <==> NeedsRefresh(Moved(w, Crash), canSeal) || (recovery.Recovered? && recovery.stamped)
  {
    hide Play;
    PlayKeepsCacheInv(start, moves);
  }

  // ---- When writers stamp and commit in one step, every run is guarded --------------------------

  /** Whoever takes a stamp commits it, gives it up or crashes before anything else happens, and recoveries
      take one too. */
  ghost predicate Prompt(moves: seq<Move>) {
    && (forall k :: 0 <= k < |moves| && moves[k].Recover? ==> moves[k].stamped)
    && forall k :: 0 <= k < |moves| - 1 && moves[k].Stamp? ==>
      moves[k + 1].Crash? || (moves[k + 1].Commit? && moves[k + 1].writer == 0) || moves[k + 1] == Abort(0)
  }

  /** Stamps are never late, so the store shows whatever a start remembers. */
  ghost predicate PromptInv(w: World) {
    && w.updatedAt <= w.clock && SafeEnd(w)
    && (w.refreshedAt.Some? ==> w.refreshedAt.value <= w.clock)
    && (!w.refresh.Idle? ==> w.refresh.stamp <= w.clock)
    && forall i :: 0 <= i < |w.writers| ==> w.writers[i] == w.clock
  }

  ghost predicate Prompted(moves: seq<Move>, w: World) {
    && PromptInv(w)
    && if moves != [] && moves[|moves| - 1].Stamp? then |w.writers| == 1 else w.writers == []
  }

  lemma {:induction false} PromptLeavesNone(start: World, moves: seq<Move>)
    requires Initial(start) && Prompt(moves)
    ensures Prompted(moves, Play(start, moves))
  {
    if moves != [] {
      var n := |moves| - 1;
      PromptPrefix(moves, n);
      PromptLeavesNone(start, moves[..n]);
      if n > 0 { assert moves[..n][n - 1] == moves[n - 1]; }
      PromptMove(moves, Play(start, moves[..n]));
    }
  }

  lemma PromptPrefix(moves: seq<Move>, n: nat)
    requires Prompt(moves) && n <= |moves|
    ensures Prompt(moves[..n])
  {
  }

  lemma PromptMove(moves: seq<Move>, w: World)
    requires Prompt(moves) && moves != [] && Prompted(moves[..|moves| - 1], w)
    ensures Prompted(moves, Moved(w, moves[|moves| - 1]))
  {
    hide PromptInv, Moved;
    var n := |moves| - 1;
    var stamping := n > 0 && moves[n - 1].Stamp?;
    if n > 0 { assert moves[..n][n - 1] == moves[n - 1]; }
    PromptStep(w, moves[n], stamping);
  }

  lemma PromptStep(w: World, m: Move, stamping: bool)
    requires PromptInv(w) && (m.Recover? ==> m.stamped)
    requires if stamping then |w.writers| == 1 else w.writers == []
    requires stamping ==> m.Crash? || (m.Commit? && m.writer == 0) || m == Abort(0)
    ensures PromptInv(Moved(w, m))
    ensures if m.Stamp? then |Moved(w, m).writers| == 1 else Moved(w, m).writers == []
  {
    if stamping { assert Without(w.writers, 0) == []; }
    hide Without;
  }

  lemma PromptIsGuarded(start: World, moves: seq<Move>)
    requires Initial(start) && Prompt(moves)
    ensures Guarded(start, moves)
  {
    hide Play;
    forall k | 0 <= k < |moves| ensures Safe(Play(start, moves[..k]), moves[k]) {
      PromptPrefix(moves, k);
      if k > 0 { assert moves[..k][k - 1] == moves[k - 1]; }
      PromptLeavesNone(start, moves[..k]);
    }
  }

  // ---- And when they do not, two orders go unnoticed ------------------------------------

  /** A refresh that has begun and a writer that has stamped: if the refresh reads before the commit
      and a crash takes away the writer's own refresh, startup misses the change exactly when the
      writer's stamp is the older one. */
  lemma MissedExactly(w: World, i: nat, document: string, canSeal: bool)
    requires w.refresh.Began? && i < |w.writers| && document != w.document
    ensures var recorded := Moved(Moved(Moved(Moved(w, ReadState), Commit(i, document)), Replace(canSeal)), Record);
      var after := Moved(recorded, Crash);
      && !IsCurrent(after)
      && (NeedsRefresh(after, canSeal) <==> w.refresh.stamp <= w.writers[i])
  {
    hide Without;
    var read := Moved(w, ReadState);
    assert read == w.(refresh := HasRead(w.refresh.stamp, w.document));
  }

  /** A recovery that changes the document and is cut before the refresh: the next start misses the change
      exactly when the recovery took no stamp and nothing else was left to do. */
  lemma CutRecoveryMissedExactly(w: World, document: string, stamped: bool, canSeal: bool)
    requires CacheInv(w) && w.refresh.Idle? && w.writers == [] && !w.stale && IsCurrent(w) && document != w.document
    ensures var after := Moved(Moved(w, Recover(document, stamped)), Crash);
      && !IsCurrent(after)
      && (NeedsRefresh(after, canSeal) <==> stamped || NeedsRefresh(w, canSeal))
  {
  }

  lemma PlaySnoc(w: World, moves: seq<Move>, m: Move)
    ensures Play(w, moves + [m]) == Moved(Play(w, moves), m)
  {
    hide Moved;
    assert (moves + [m])[..|moves|] == moves;
  }

  /** That order from a store that was never refreshed: the file is stale and startup does not notice. */
  lemma MissedIsReachable(canSeal: bool) returns (start: World, moves: seq<Move>)
    ensures Initial(start)
    ensures !IsCurrent(Play(start, moves)) && !NeedsRefresh(Play(start, moves), canSeal)
  {
    hide Without, Play;
    start := World(0, "", 0, None, Absent, Idle, [], false);
    NothingPlayed(start);
    var before := [] + [Stamp] + [Tick(1)] + [Begin];
    PlaySnoc(start, [], Stamp);
    PlaySnoc(start, [] + [Stamp], Tick(1));
    PlaySnoc(start, [] + [Stamp] + [Tick(1)], Begin);
    var begun := Play(start, before);
    assert begun == World(1, "", 0, None, Absent, Began(1), [0], false);
    MissedExactly(begun, 0, "new", canSeal);
    moves := before + [ReadState] + [Commit(0, "new")] + [Replace(canSeal)] + [Record] + [Crash];
    PlaySnoc(start, before, ReadState);
    PlaySnoc(start, before + [ReadState], Commit(0, "new"));
    PlaySnoc(start, before + [ReadState] + [Commit(0, "new")], Replace(canSeal));
    PlaySnoc(start, before + [ReadState] + [Commit(0, "new")] + [Replace(canSeal)], Record);
    PlaySnoc(start, before + [ReadState] + [Commit(0, "new")] + [Replace(canSeal)] + [Record], Crash);
  }

  /** The second one, from such a store too: refreshed, then recovered without a stamp and cut. */
  lemma CutRecoveryIsReachable() returns (start: World, moves: seq<Move>)
    ensures Initial(start)
    ensures !IsCurrent(Play(start, moves)) && !NeedsRefresh(Play(start, moves), true)
  {
    hide Without, Play;
    start := World(0, "", 0, None, Absent, Idle, [], false);
    NothingPlayed(start);
    var before := [] + [Tick(1)] + [Begin] + [ReadState] + [Replace(true)] + [Record];
    PlaySnoc(start, [], Tick(1));
    PlaySnoc(start, [] + [Tick(1)], Begin);
    PlaySnoc(start, [] + [Tick(1)] + [Begin], ReadState);
    PlaySnoc(start, [] + [Tick(1)] + [Begin] + [ReadState], Replace(true));
    PlaySnoc(start, [] + [Tick(1)] + [Begin] + [ReadState] + [Replace(true)], Record);
    assert Play(start, before) == World(1, "", 0, Some(1), Present("", true), Idle, [], false);
    moves := before + [Recover("new", false)] + [Crash];
    PlaySnoc(start, before, Recover("new", false));
    PlaySnoc(start, before + [Recover("new", false)], Crash);
  }

  lemma NothingPlayed(start: World)
    ensures Play(start, []) == start
  {
  }

  /** A refresh that a start completes is remembered: with nothing written since, the next start leaves the
      file alone, unless the document was stamped in the very moment of the refresh. One that was not
      recorded is done again, if the start had a reason to do it that the store shows. */
  lemma DoneIsRememberedExactly(w: World, outcome: Outcome, canSeal: bool)
    requires CacheInv(w) && SafeEnd(w) && NeedsRefresh(Moved(w, Crash), canSeal) && outcome != Unopened
    ensures var after := Startup(w, Nothing, outcome, canSeal);
      NeedsRefresh(Moved(after, Crash), canSeal)
      <==> if outcome == Done then w.updatedAt == w.clock
           else w.refreshedAt.None? || w.updatedAt >= w.refreshedAt.value
  {
  }
}
