/** A campaign's workspace and the attempts bound to it: a linear commit history, the working tree with
    its ledger, and the store (`workspaces.py`). A commit holds exactly what `git add -A` saw. */
module Workspace {
  import opened Prelude
  import opened Scores
  import opened Campaigns
  import opened CampaignInvariants
  import opened CampaignRuns
  import opened CampaignStore
  import L = Ledger

  /** The contents of a workspace: its files, and the rows of its ledger if there is one. */
  datatype Tree = Tree(files: map<string, string>, ledger: Option<seq<string>>)

  datatype Commit = Commit(id: string, tree: Tree)

  /** Git's content hashes, left open. */
  datatype Git = Git(treeId: Tree -> string, commitId: (string, Tree, int) -> string)

  datatype State = State(db: Db, commits: seq<Commit>, working: Tree)

  function Head(s: State): Commit
    requires s.commits != []
  {
    s.commits[|s.commits| - 1]
  }

  /** What a hard reset leaves of the working files: those that HEAD does not track stay, unless the
      parent brings a file of that path. */
  function ResetFiles(working: map<string, string>, head: map<string, string>, parent: map<string, string>)
    : map<string, string>
  {
    (map p | p in working && p !in head :: working[p]) + parent
  }

  /** `_reset_preserving_ledger`: `git reset --hard HEAD~1` around the ledger. Without a parent commit
      git fails and nothing changes. */
  function Reset(s: State): (r: State)
    ensures r.db == s.db && r.working.ledger == s.working.ledger
    ensures s.commits != [] ==> r.commits != []
  {
    var n := |s.commits|;
    if n < 2 then s
    else
      var files := ResetFiles(s.working.files, s.commits[n - 1].tree.files, s.commits[n - 2].tree.files);
      s.(commits := s.commits[..n - 1], working := Tree(files, s.working.ledger))
  }

  // ---- One attempt ------------------------------------------------------------------------------

  datatype RunStatus = RanOk | Crashed | TimedOut

  function StatusText(s: RunStatus): string {
    match s
    case RanOk => "ok"
    case Crashed => "crash"
    case TimedOut => "timeout"
  }

  /** What the world does while an attempt runs: who else writes to the workspace and when, what the
      experiment reports, and which steps fail. `finished` and `crashFinished` say whether the
      transaction of the regular finish and that of the error handler's are committed, and
      `finishRefreshed` whether the refresh after the committed one succeeds. */
  datatype Conditions = Conditions(
    now: int, confined: bool, startRefreshed: bool,
    race: Tree, committed: bool, exported: bool, meanwhile: Tree,
    status: RunStatus, score: Option<real>, memoryGb: Option<real>, elapsedMs: int, logsTail: string, error: string,
    finished: bool, crashFinished: bool, finishRefreshed: bool, resetDone: bool, appended: bool,
    scoreText: string, memoryText: string, description: string)

  function RunReport(c: Conditions, commit: string): Report {
    Report(StatusText(c.status), c.score, c.memoryGb, c.elapsedMs, commit, c.logsTail, c.description)
  }

  function CrashReport(c: Conditions, commit: string): Report {
    Report("crash", None, Some(0.0), c.elapsedMs, commit, c.error, c.description)
  }

  function CommitWorking(git: Git, s: State, now: int): State
    requires s.commits != []
  {
    s.(commits := s.commits + [Commit(git.commitId(Head(s).id, s.working, now), s.working)])
  }

  /** Finishing an attempt and, if it was rejected, taking its commit away; false if an error cut this
      short. An error of the refresh after a committed finish makes the runner finish again, which is
      refused, so the reset never happens. */
  function Settle(s: State, id: nat, report: Report, created: bool, c: Conditions): (r: (State, bool))
    ensures s.commits != [] ==> r.0.commits != []
  {
    var (db, decision) := FinishAttempt(s.db, id, report, c.now);
    var finished := s.(db := db);
    if decision.Err? || !c.finishRefreshed then (finished, false)
    else if created && decision.value == Rejected then
      if c.resetDone then (Reset(finished), true) else (finished, false)
    else (finished, true)
  }

  /** The error handler: it finishes the attempt as crashed, unless that fails as well. */
  function Handle(s: State, id: nat, commit: string, created: bool, c: Conditions): (r: State)
    ensures s.commits != [] ==> r.commits != []
  {
    if c.crashFinished then Settle(s, id, CrashReport(c, commit), created, c).0 else s
  }

  function Rows(t: Tree): seq<string> { if t.ledger.Some? then t.ledger.value else [] }

  /** `append_ledger`; the row may fail to be written. */
  function AppendLedger(s: State, row: L.Row, written: bool, now: int): State {
    s.(db := Describe(s.db, row.commit, row.description, now),
       working := if written then s.working.(ledger := Some(L.Append(Rows(s.working), row))) else s.working)
  }

  function DecisionText(d: Decision): string {
    match d
    case Pending => "pending"
    case Kept => "kept"
    case Rejected => "rejected"
  }

  function RowText(c: Conditions, n: NewAttempt, d: Decision): string {
    if c.description != "" then c.description else if n.hypothesis != "" then n.hypothesis else DecisionText(d)
  }

  function RunRow(c: Conditions, n: NewAttempt, commit: string, d: Decision): L.Row {
    L.Row(commit, c.scoreText, c.memoryText, StatusText(c.status), RowText(c, n, d))
  }

  datatype Ended = Refused | Raised | Ran(decision: Decision)

  /** The attempt once the store has started it. */
  function Execute(git: Git, s: State, id: nat, n: NewAttempt, c: Conditions): (r: (State, Ended))
    requires s.commits != []
    ensures r.0.commits != []
  {
    var raced := s.(working := c.race);
    if !c.committed then (Handle(raced, id, "", false, c), Raised)
    else
      var made := CommitWorking(git, raced, c.now);
      var commit := Head(made).id;
      if git.treeId(c.race) != n.tree || !c.exported then
        (Handle(made, id, commit, true, c), Raised)
      else if !c.finished then
        (Handle(made.(working := c.meanwhile), id, commit, true, c), Raised)
      else
        var (settled, ok) := Settle(made.(working := c.meanwhile), id, RunReport(c, commit), true, c);
        if !ok || id >= |settled.db.attempts| then (settled, Raised)
        else
          var decision := settled.db.attempts[id].decision;
          (AppendLedger(settled, RunRow(c, n, commit, decision), c.appended, c.now),
           if c.appended then Ran(decision) else Raised)
  }

  /** `_run_bound_attempt`. */
  function RunAttempt(git: Git, codec: Codec, s: State, n: NewAttempt, c: Conditions): (r: (State, Ended))
    requires s.commits != []
    ensures r.0.commits != []
  {
    if git.treeId(s.working) != n.tree || !c.confined then (s, Refused)
    else
      var (db, started) := StartAttempt(codec, s.db, n, c.now);
      if started.Err? then (s.(db := db), Refused)
      else if !c.startRefreshed then (s.(db := db), Raised)
      else Execute(git, s.(db := db), started.value, n, c)
  }

  /** The decision on the newest attempt of a campaign. */
  function LatestDecision(attempts: seq<Attempt>, cid: string): Option<Decision> {
    if attempts == [] then None
    else
      var n := |attempts| - 1;
      if attempts[n].campaign == cid then Some(attempts[n].decision) else LatestDecision(attempts[..n], cid)
  }

  /** `git_action`, with the newest decision as it was read before the workspace lock was taken. */
  function GitAction(s: State, latest: Option<Decision>, reset: bool): (r: State)
    ensures s.commits != [] ==> r.commits != []
  {
    if latest == Some(Kept) || latest == Some(Rejected) || !reset then s else Reset(s)
  }

  // ---- The same, in place --------------------------------------------------------------------------

  class Repository {
    const git: Git
    const codec: Codec
    const store: Store
    var commits: seq<Commit>
    var working: Tree

    constructor (git: Git, codec: Codec, store: Store, initial: Commit)
      ensures this.git == git && this.codec == codec && this.store == store
      ensures Snapshot() == State(store.Tables(), [initial], initial.tree)
    {
      this.git, this.codec, this.store := git, codec, store;
      commits, working := [initial], initial.tree;
    }

    function Snapshot(): State
      reads this, store
    {
      State(store.Tables(), commits, working)
    }

    method ResetPreservingLedger()
      modifies this`commits, this`working
      ensures Snapshot() == Reset(old(Snapshot()))
    {
      var n := |commits|;
      if n < 2 { return; }
      var rows := working.ledger;
      var files := ResetFiles(working.files, commits[n - 1].tree.files, commits[n - 2].tree.files);
      commits, working := commits[..n - 1], Tree(files, rows);
    }

    /** `_append_ledger_locked`: the loop looks for an earlier row of the commit. */
    method AppendLedgerLocked(row: L.Row, written: bool, now: int)
      requires Inv(store.Tables())
      modifies this`working, store
      ensures Snapshot() == AppendLedger(old(Snapshot()), row, written, now)
      ensures Inv(store.Tables())
    {
      hide Core, StatusInv, Describe, L.CommitOf, L.Line;
      store.UpdateAttemptDescription(row.commit, row.description, now);
      if !written { return; }
      var rows := Rows(working);
      if row.commit != "" {
        for i := 0 to |rows|
          invariant forall k :: 0 <= k < i ==> L.CommitOf(rows[k]) != row.commit
        {
          if L.CommitOf(rows[i]) == row.commit {
            working := working.(ledger := Some(rows));
            return;
          }
        }
      }
      working := working.(ledger := Some(rows + [L.Line(row)]));
    }

    /** Finish, then reset if rejected. */
    method SettleAttempt(id: nat, report: Report, created: bool, c: Conditions) returns (ok: bool)
      requires Inv(store.Tables()) && report.status != "running"
      modifies this`commits, this`working, store
      ensures (Snapshot(), ok) == Settle(old(Snapshot()), id, report, created, c)
      ensures Inv(store.Tables())
    {
      hide Core, StatusInv, FinishAttempt, Reset;
      var finished := store.Finish(id, report, c.now);
      if finished.Err? || !c.finishRefreshed { return false; }
      if created && finished.value == Rejected {
        if !c.resetDone { return false; }
        ResetPreservingLedger();
      }
      return true;
    }

    /** The error handler. */
    method HandleError(id: nat, commit: string, created: bool, c: Conditions)
      requires Inv(store.Tables())
      modifies this`commits, this`working, store
      ensures Snapshot() == Handle(old(Snapshot()), id, commit, created, c)
      ensures Inv(store.Tables())
    {
      hide Core, StatusInv, Settle;
      if c.crashFinished {
        var _ := SettleAttempt(id, CrashReport(c, commit), created, c);
      }
    }

    method ExecuteAttempt(id: nat, n: NewAttempt, c: Conditions) returns (ended: Ended)
      requires Inv(store.Tables()) && commits != []
      modifies this`commits, this`working, store
      ensures (Snapshot(), ended) == Execute(git, old(Snapshot()), id, n, c)
      ensures Inv(store.Tables())
    {
      hide Core, StatusInv, Settle, Handle, AppendLedger;
      working := c.race;
      if !c.committed {
        HandleError(id, "", false, c);
        return Raised;
      }
      var commit := git.commitId(commits[|commits| - 1].id, working, c.now);
      commits := commits + [Commit(commit, working)];
      if git.treeId(working) != n.tree || !c.exported {
        HandleError(id, commit, true, c);
        return Raised;
      }
      working := c.meanwhile;
      if !c.finished {
        HandleError(id, commit, true, c);
        return Raised;
      }
      var ok := SettleAttempt(id, RunReport(c, commit), true, c);
      if !ok || id >= |store.attempts| { return Raised; }
      var decision := store.attempts[id].decision;
      AppendLedgerLocked(RunRow(c, n, commit, decision), c.appended, c.now);
      return if c.appended then Ran(decision) else Raised;
    }

    method RunBoundAttempt(n: NewAttempt, c: Conditions) returns (ended: Ended)
      requires Inv(store.Tables()) && commits != []
      modifies this`commits, this`working, store
      ensures (Snapshot(), ended) == RunAttempt(git, codec, old(Snapshot()), n, c)
      ensures Inv(store.Tables())
    {
      hide Core, StatusInv, Execute, StartAttempt;
      if git.treeId(working) != n.tree || !c.confined { return Refused; }
      var started := store.Start(codec, n, c.now);
      if started.Err? { return Refused; }
      if !c.startRefreshed { return Raised; }
      ended := ExecuteAttempt(started.value, n, c);
    }
  }
}
