/** Runs from a new workspace that reach each of the ways in which workspace and store part, whatever the
    hashes of trees and commits and the digests of histories are. */
module WorkspaceWitness {
  import opened Prelude
  import opened Text
  import opened Scores
  import opened Campaigns
  import opened CampaignInvariants
  import opened CampaignRuns
  import opened StatusRace
  import opened CampaignWitness
  import opened Workspace
  import opened WorkspaceFacts
  import opened WorkspaceRuns
  import L = Ledger

  const TREE := Tree(map["a" := "1"], Some([]))

  const INITIAL := Commit("c0", TREE)

  /** A commit is not called what its parent is called. */
  ghost predicate OwnNames(git: Git) {
    forall parent, tree, now :: git.commitId(parent, tree, now) != parent
  }

  /** The commit that an undisturbed first attempt makes. */
  function First(git: Git): Commit { Commit(git.commitId("c0", TREE, 4), TREE) }

  /** Nobody else writes, nothing fails, and the experiment succeeds. */
  const GOOD := Conditions(
    4, true, true, TREE, true, true, TREE, RanOk, Some(1.0), Some(0.0), 1, "", "", true, true, true, true, true,
    "1.0", "0.0", "")

  function Fresh(): (w: World)
    ensures w.state.commits == [INITIAL] && w.state.working == TREE && w.flight.None?
  {
    World(State(Created(), [INITIAL], TREE), None, map[])
  }

  /** The attempt on the workspace as it is. */
  function Next(git: Git, codec: Codec, w: World): (n: NewAttempt)
    ensures n.cid == "w" && n.tree == git.treeId(w.state.working) && n.hypothesis == "h"
  {
    Attempting(codec, w.state.db, git.treeId(w.state.working), 2)
  }

  /** A campaign that can take an attempt. */
  ghost predicate Open(w: World) {
    && Sound(w, "w") && w.flight.None? && !AnyRunning(w.state.db.attempts)
    && w.state.db.campaigns["w"].status == Active && w.state.db.campaigns["w"].threshold > 0
    && w.state.db.campaigns["w"].policy == POLICY
  }

  lemma FreshIsOpen(git: Git)
    ensures Open(Fresh()) && Spine(git, Fresh().state, "w")
    ensures Fresh().state.db.campaigns["w"].best.None? && Fresh().state.db.campaigns["w"].bestAttempt.None?
    ensures Fresh().state.db.attempts == []
  {
    hide Core, StatusInv, CreateCampaign;
    CampaignIsCreated();
    EmptyInv();
    InitialIsSound(git, EMPTY, CAMPAIGN, 1, INITIAL);
    NoBestYet();
  }

  lemma NoBestYet()
    ensures "w" in Created().campaigns && Created().campaigns["w"].bestAttempt.None?
  {
    StripsToItself();
  }

  // ---- Feasible runs, one move at a time -------------------------------------------------------------

  /** A feasible run from a new workspace and where it ends. */
  ghost predicate Leads(git: Git, codec: Codec, moves: seq<Move>, w: World) {
    hide *;
    && FeasibleRun(git, codec, Fresh(), "w", moves) && w == Play(git, codec, Fresh(), "w", moves)
  }

  lemma NoMoves(git: Git, codec: Codec)
    ensures Leads(git, codec, [], Fresh())
  {
  }

  lemma OneMore(git: Git, codec: Codec, moves: seq<Move>, w: World, m: Move)
    requires Leads(git, codec, moves, w) && Feasible(w, "w", m)
    ensures Leads(git, codec, moves + [m], Moved(git, codec, w, "w", m))
  {
    hide Moved, Feasible, Fresh;
    var more := moves + [m];
    assert more[..|moves|] == moves;
    forall k | 0 <= k < |more| ensures Feasible(Play(git, codec, Fresh(), "w", more[..k]), "w", more[k]) {
      if k < |moves| { assert more[..k] == moves[..k] && more[k] == moves[k]; }
    }
  }

  /** Propose and begin. */
  lemma BeginsAttempt(git: Git, codec: Codec, moves: seq<Move>, w: World, c: Conditions)
    returns (more: seq<Move>, next: World)
    requires HexDigests(codec) && Leads(git, codec, moves, w) && Open(w) && c.confined && c.startRefreshed
    ensures Leads(git, codec, more, next) && Sound(next, "w")
    ensures next.flight == Some(Flight(|w.state.db.attempts|, Next(git, codec, w), c))
    ensures next.state.commits == w.state.commits && next.state.working == w.state.working && next.asked == w.asked
    ensures |next.state.db.attempts| == |w.state.db.attempts| + 1
    ensures next.state.db.attempts[..|w.state.db.attempts|] == w.state.db.attempts
    ensures var a, b := w.state.db.campaigns["w"], next.state.db.campaigns["w"];
      b.best == a.best && b.policy == a.policy && b.threshold == a.threshold && b.bestAttempt == a.bestAttempt
  {
    hide Core, StatusInv, StartAttempt, CreateProposal, Moved, Spine, Leads, Engaged, Proposal;
    var propose, begin := Other(Whole(Propose(Proposal(codec, w.state.db), 2))), Begin(Next(git, codec, w), c);
    AttemptStarts(codec, w.state.db, git.treeId(w.state.working), 2, c.now);
    OneMore(git, codec, moves, w, propose);
    MoveKeepsSound(git, codec, w, "w", propose);
    var proposed := Moved(git, codec, w, "w", propose);
    MovedPropose(git, codec, w);
    OneMore(git, codec, moves + [propose], proposed, begin);
    MoveKeepsSound(git, codec, proposed, "w", begin);
    MovedBegin(git, codec, proposed, Next(git, codec, w), c);
    StartedRow(codec, proposed.state.db, Next(git, codec, w), c.now);
    StartKeepsBest(codec, proposed.state.db, Next(git, codec, w), c.now);
    more, next := moves + [propose] + [begin], Moved(git, codec, proposed, "w", begin);
  }

  lemma MovedPropose(git: Git, codec: Codec, w: World)
    requires HexDigests(codec) && w.state.commits != [] && "w" in w.state.db.campaigns
    ensures Moved(git, codec, w, "w", Other(Whole(Propose(Proposal(codec, w.state.db), 2))))
         == w.(state := w.state.(db := CreateProposal(codec, w.state.db, Proposal(codec, w.state.db), 2).0))
    ensures Feasible(w, "w", Other(Whole(Propose(Proposal(codec, w.state.db), 2))))
  {
    ProposalIsTaken(codec, w.state.db, 2);
    hide CreateProposal, Proposal;
  }

  lemma MovedBegin(git: Git, codec: Codec, w: World, n: NewAttempt, c: Conditions)
    requires w.state.commits != [] && w.flight.None? && c.confined && c.startRefreshed
    requires n.tree == git.treeId(w.state.working) && n.cid == "w"
    requires StartAttempt(codec, w.state.db, n, c.now).1.Ok?
    ensures var (db, started) := StartAttempt(codec, w.state.db, n, c.now);
      Moved(git, codec, w, "w", Begin(n, c)) == w.(state := w.state.(db := db), flight := Some(Flight(started.value, n, c)))
    ensures Feasible(w, "w", Begin(n, c))
  {
    hide StartAttempt;
  }

  lemma StartKeepsBest(codec: Codec, db: Db, n: NewAttempt, now: int)
    requires StartAttempt(codec, db, n, now).1.Ok?
    ensures var after := StartAttempt(codec, db, n, now).0;
      && n.cid in db.campaigns && n.cid in after.campaigns
      && var a, b := db.campaigns[n.cid], after.campaigns[n.cid];
         b.best == a.best && b.policy == a.policy && b.threshold == a.threshold && b.bestAttempt == a.bestAttempt
  {
    hide HistoryOf, BoundHypothesis, IsValidProposal;
  }

  // ---- An attempt that is kept --------------------------------------------------------------------------

  lemma FinishKeeps(db: Db, id: nat, commit: string)
    requires Core(db) && id < |db.attempts| && db.attempts[id].status == "running" && db.attempts[id].campaign == "w"
    requires "w" in db.campaigns && db.campaigns["w"].best.None? && db.campaigns["w"].policy == POLICY
    ensures var (after, r) := FinishAttempt(db, id, RunReport(GOOD, commit), 4);
      && r == Ok(Kept) && |after.attempts| == |db.attempts| && after.attempts[id].commit == commit
      && after.attempts[id].decision == Kept && !AnyRunning(after.attempts)
      && "w" in after.campaigns && after.campaigns["w"].bestAttempt == Some(id)
      && after.campaigns["w"].status == Active && after.campaigns["w"].policy == POLICY
      && after.campaigns["w"].threshold == db.campaigns["w"].threshold
  {
    FinishIdles(db, id, RunReport(GOOD, commit), 4);
    hide Core, OutcomesOf, AnyRunning;
  }

  lemma DescribeKeepsWinner(db: Db, commit: string, text: string, now: int, id: nat)
    requires "w" in db.campaigns && id < |db.attempts|
    ensures var after := Describe(db, commit, text, now);
      && |after.attempts| == |db.attempts| && after.attempts[id].commit == db.attempts[id].commit
      && after.attempts[id].decision == db.attempts[id].decision
      && (AnyRunning(after.attempts) ==> AnyRunning(db.attempts))
      && "w" in after.campaigns
      && after.campaigns["w"] == db.campaigns["w"].(updatedAt := after.campaigns["w"].updatedAt)
  {
    hide LacksDescription, Strip;
    var after := Describe(db, commit, text, now);
    if AnyRunning(after.attempts) {
      var i :| 0 <= i < |after.attempts| && after.attempts[i].status == "running";
      assert db.attempts[i].status == "running";
    }
  }

  /** The attempt ends as the winner. */
  lemma KeepsAttempt(git: Git, codec: Codec, moves: seq<Move>, w: World, id: nat, n: NewAttempt)
    returns (more: seq<Move>, next: World)
    requires Leads(git, codec, moves, w) && Sound(w, "w") && w.flight == Some(Flight(id, n, GOOD))
    requires w.state.db.campaigns["w"].best.None? && w.state.db.campaigns["w"].policy == POLICY
    requires w.state.db.campaigns["w"].threshold > 0 && n.tree == git.treeId(TREE)
    requires w.state.commits == [INITIAL]
    ensures Leads(git, codec, more, next) && Open(next)
    ensures next.state.commits == [INITIAL] + [First(git)] && next.asked == w.asked
    ensures id < |next.state.db.attempts| && next.state.db.attempts[id].commit == First(git).id
    ensures next.state.db.campaigns["w"].bestAttempt == Some(id)
  {
    hide StatusInv, OneRuns, OrdinalInv, LeaseInv, WinnerInv, FinishAttempt, Describe, L.Append, Spine, AnyRunning,
      Leads;
    OneMore(git, codec, moves, w, End);
    MoveKeepsSound(git, codec, w, "w", End);
    FinishKeeps(w.state.db, id, First(git).id);
    var finished := FinishAttempt(w.state.db, id, RunReport(GOOD, First(git).id), 4).0;
    DescribeKeepsWinner(finished, First(git).id, RowText(GOOD, n, Kept), 4, id);
    more, next := moves + [End], Moved(git, codec, w, "w", End);
  }

  // ---- The failures -----------------------------------------------------------------------------------------

  /** A reset request that read "no decision yet" before the first attempt and gets the lock after that
      attempt was kept drops the winner's commit. */
  lemma StaleResetDropsWinner(git: Git, codec: Codec) returns (moves: seq<Move>, end: World)
    requires HexDigests(codec) && OwnNames(git)
    ensures Leads(git, codec, moves, end) && end.flight.None?
    ensures Sound(Fresh(), "w") && Spine(git, Fresh().state, "w")
    ensures !HeadIsWinner(git, end.state, "w")
  {
    hide Core, StatusInv, Leads;
    NoMoves(git, codec);
    FreshIsOpen(git);
    OneMore(git, codec, [], Fresh(), Ask(0, true));
    var asked := Moved(git, codec, Fresh(), "w", Ask(0, true));
    assert asked == Fresh().(asked := map[0 := Asked(None, true)]);
    assert Open(asked);
    var a, begun := BeginsAttempt(git, codec, [] + [Ask(0, true)], asked, GOOD);
    var b, kept := KeepsAttempt(git, codec, a, begun, begun.flight.value.id, begun.flight.value.attempt);
    OneMore(git, codec, b, kept, Act(0));
    moves, end := b + [Act(0)], Moved(git, codec, kept, "w", Act(0));
    assert kept.state.commits == [INITIAL] + [First(git)];
    assert end.state.commits == [INITIAL];
  }

  /** An attempt that does not succeed strands its commit when neither finish is committed, or when the
      refresh after the one that is fails. */
  lemma StrandedIsReachable(git: Git, codec: Codec, finished: bool, crashFinished: bool, refreshed: bool)
    returns (moves: seq<Move>, end: World)
    requires HexDigests(codec)
    requires !((finished || crashFinished) && refreshed)
    ensures Leads(git, codec, moves, end) && end.flight.None? && !HeadIsWinner(git, end.state, "w")
    ensures (finished || crashFinished) <==> !AnyRunning(end.state.db.attempts)
  {
    hide Core, StatusInv, Leads;
    NoMoves(git, codec);
    FreshIsOpen(git);
    var c := GOOD.(status := Crashed, finished := finished, crashFinished := crashFinished, finishRefreshed := refreshed);
    var a, begun := BeginsAttempt(git, codec, [], Fresh(), c);
    OneMore(git, codec, a, begun, End);
    moves, end := a + [End], Moved(git, codec, begun, "w", End);
    StrandsCommit(git, codec, begun, c);
  }

  lemma StrandsCommit(git: Git, codec: Codec, w: World, c: Conditions)
    requires Sound(w, "w") && w.flight.Some? && w.flight.value.conditions == c
    requires w.flight.value.attempt.tree == git.treeId(TREE) && c.race == TREE && c.now == 4
    requires c.status == Crashed && c.committed && c.exported && !((c.finished || c.crashFinished) && c.finishRefreshed)
    requires w.state.commits == [INITIAL] && w.state.db.campaigns["w"].bestAttempt.None?
    ensures var end := Moved(git, codec, w, "w", End);
      && end.flight.None? && |end.state.commits| == 2
      && "w" in end.state.db.campaigns && end.state.db.campaigns["w"].bestAttempt.None?
      && ((c.finished || c.crashFinished) <==> !AnyRunning(end.state.db.attempts))
  {
    hide Core, FinishAttempt, AnyRunning, Describe, L.Append, Trail;
    var f := w.flight.value;
    var db := w.state.db;
    if c.finished {
      CrashKeepsBest(db, f.id, RunReport(c, First(git).id), c.now);
      FinishIdles(db, f.id, RunReport(c, First(git).id), c.now);
    } else if c.crashFinished {
      CrashKeepsBest(db, f.id, CrashReport(c, First(git).id), c.now);
      FinishIdles(db, f.id, CrashReport(c, First(git).id), c.now);
    } else {
      OneIsRunning(db, f.id);
    }
  }

  lemma OneIsRunning(db: Db, id: nat)
    requires id < |db.attempts| && db.attempts[id].status == "running"
    ensures AnyRunning(db.attempts)
  {
  }

  lemma CrashKeepsBest(db: Db, id: nat, r: Report, now: int)
    requires "w" in db.campaigns && r.status == "crash"
    requires id < |db.attempts| && db.attempts[id].status == "running" && db.attempts[id].campaign in db.campaigns
    ensures FinishAttempt(db, id, r, now).1.Ok?
    ensures var after := FinishAttempt(db, id, r, now).0;
      "w" in after.campaigns && after.campaigns["w"].bestAttempt == db.campaigns["w"].bestAttempt
  {
    hide StopDecision, OutcomesOf, ScoreImproved;
  }

  /** The first attempt is kept and the second one begins. */
  lemma SecondBegins(git: Git, codec: Codec) returns (moves: seq<Move>, again: World, id: nat)
    requires HexDigests(codec)
    ensures Leads(git, codec, moves, again) && Sound(again, "w") && again.flight.Some?
    ensures again.state.commits == [INITIAL, First(git)]
    ensures id < |again.state.db.attempts| && again.state.db.attempts[id].commit == First(git).id
    ensures again.state.db.campaigns["w"].bestAttempt == Some(id)
  {
    hide Core, StatusInv, Leads, Spine, AnyRunning, Engaged, Next, Created, Moved, Play, Feasible, First;
    NoMoves(git, codec);
    FreshIsOpen(git);
    var a, begun := BeginsAttempt(git, codec, [], Fresh(), GOOD);
    id := begun.flight.value.id;
    var b, kept := KeepsAttempt(git, codec, a, begun, id, begun.flight.value.attempt);
    moves, again := BeginsAttempt(git, codec, b, kept, GOOD);
    assert again.state.db.attempts[id] == again.state.db.attempts[..|kept.state.db.attempts|][id];
    assert kept.state.commits == [INITIAL] + [First(git)];
  }

  /** A crash before the second attempt's commit: the recovery resets the first attempt's, which was
      kept. */
  lemma CrashDropsWinner(git: Git, codec: Codec) returns (moves: seq<Move>, end: World)
    requires HexDigests(codec) && OwnNames(git)
    ensures Leads(git, codec, moves, end) && end.flight.None? && !HeadIsWinner(git, end.state, "w")
  {
    hide Core, StatusInv, Leads;
    var d, again, id := SecondBegins(git, codec);
    var crash := Crash(BeforeCommit, 9, true);
    OneMore(git, codec, d, again, crash);
    moves, end := d + [crash], Moved(git, codec, again, "w", crash);
    RecoveredWinner(git, codec, again, id);
  }

  lemma RecoveredWinner(git: Git, codec: Codec, w: World, id: nat)
    requires Sound(w, "w") && w.flight.Some? && w.state.commits == [INITIAL, First(git)]
    requires id < |w.state.db.attempts| && w.state.db.attempts[id].commit == First(git).id
    requires w.state.db.campaigns["w"].bestAttempt == Some(id)
    ensures var end := Moved(git, codec, w, "w", Crash(BeforeCommit, 9, true));
      && end.state.commits == [INITIAL] && id < |end.state.db.attempts| && end.state.db.attempts[id].commit == First(git).id
      && "w" in end.state.db.campaigns && end.state.db.campaigns["w"].bestAttempt == Some(id)
  {
    hide Core;
    assert InFlight(w.state.db.attempts, "w") by { assert w.state.db.attempts[w.flight.value.id].status == "running"; }
  }

  /** A crash between the commit and the finish whose recovery does not reset the workspace leaves the
      commit at HEAD, and no later start takes it away. */
  lemma UnrepairedIsReachable(git: Git, codec: Codec, at: CrashPoint, now: int)
    returns (moves: seq<Move>, end: World)
    requires HexDigests(codec)
    ensures Leads(git, codec, moves, end) && end.flight.None? && !HeadIsWinner(git, end.state, "w")
    ensures var later := Moved(git, codec, end, "w", Crash(at, now, true));
      Feasible(end, "w", Crash(at, now, true)) && later.state.commits == end.state.commits
      && !HeadIsWinner(git, later.state, "w")
  {
    hide Core, StatusInv, Leads;
    NoMoves(git, codec);
    FreshIsOpen(git);
    var a, begun := BeginsAttempt(git, codec, [], Fresh(), GOOD);
    var crash := Crash(BeforeFinish, 9, false);
    OneMore(git, codec, a, begun, crash);
    moves, end := a + [crash], Moved(git, codec, begun, "w", crash);
    LeavesCommit(git, codec, begun, crash, Crash(at, now, true));
  }

  lemma LeavesCommit(git: Git, codec: Codec, w: World, crash: Move, again: Move)
    requires w.flight.Some? && w.state.commits == [INITIAL] && "w" in w.state.db.campaigns
    requires w.state.db.campaigns["w"].bestAttempt.None?
    requires crash.Crash? && crash.at == BeforeFinish && !crash.restored && again.Crash?
    ensures var end := Moved(git, codec, w, "w", crash);
      var later := Moved(git, codec, end, "w", again);
      && |end.state.commits| == 2 && later.state.commits == end.state.commits
      && !HeadIsWinner(git, end.state, "w") && !HeadIsWinner(git, later.state, "w")
  {
    var c := w.flight.value.conditions;
    var made := CommitWorking(git, w.state.(working := c.race), c.now);
    RecoveryIsNotRetried(made, "w", crash.now, false, again.now, again.restored);
    NothingWon(made, crash.now, false);
    NothingWon(Restarted(made, "w", crash.now, false), again.now, again.restored);
    assert Moved(git, codec, w, "w", crash).state == Restarted(made, "w", crash.now, false);
    hide Restarted;
  }

  lemma NothingWon(s: State, now: int, restored: bool)
    requires "w" in s.db.campaigns && s.db.campaigns["w"].bestAttempt.None?
    ensures var after := Restarted(s, "w", now, restored).db;
      "w" in after.campaigns && after.campaigns["w"].bestAttempt.None?
    ensures !restored ==> Restarted(s, "w", now, restored).commits == s.commits
  {
  }

  /** A file that someone made while an attempt ran is still there after the attempt was rejected. */
  lemma NewFileSurvivesReset(git: Git, codec: Codec) returns (moves: seq<Move>, end: World)
    requires HexDigests(codec)
    ensures Leads(git, codec, moves, end) && end.state.commits == [INITIAL]
    ensures "new" in end.state.working.files && "new" !in TREE.files
  {
    hide Core, StatusInv, Leads;
    NoMoves(git, codec);
    FreshIsOpen(git);
    var c := GOOD.(status := Crashed, meanwhile := Tree(map["a" := "1", "new" := "x"], Some([])));
    var a, begun := BeginsAttempt(git, codec, [], Fresh(), c);
    var f := begun.flight.value;
    OneMore(git, codec, a, begun, End);
    moves, end := a + [End], Moved(git, codec, begun, "w", End);
    NeverImproves(begun.state.db.campaigns["w"], RunReport(c, AttemptCommit(git, begun.state, c)));
    RejectedExecution(git, begun.state, f.id, f.attempt, c);
  }
}
