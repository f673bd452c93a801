/** What an attempt leaves in the store and in the ledger, said of the rows themselves
    (`workspaces.py`, `_run_bound_attempt`). */
module WorkspaceLaws {
  import opened Prelude
  import opened Text
  import opened Scores
  import opened Campaigns
  import opened CampaignLaws
  import opened Workspace
  import L = Ledger

  /** The attempt gets to its commit and the committed tree is executed. */
  predicate Ran(git: Git, n: NewAttempt, c: Conditions) {
    c.committed && git.treeId(c.race) == n.tree && c.exported
  }

  /** The name of the commit it makes, if it gets so far. */
  function Made(git: Git, s: State, c: Conditions): string
    requires s.commits != []
  {
    if c.committed then git.commitId(s.commits[|s.commits| - 1].id, c.race, c.now) else ""
  }

  /** The run was good enough for the campaign it was made for. */
  predicate Wins(campaign: Campaign, c: Conditions) {
    c.status == RanOk && c.score.Some? && (campaign.best.Some? ==> Better(c.score.value, campaign.best.value, campaign.policy))
  }

  /** What the row says: the experiment's own result if it ran and its finish is
      committed; else a crash without a score, if the error handler's is; else that it still runs. */
  ghost predicate Says(git: Git, s: State, campaign: Campaign, n: NewAttempt, c: Conditions, row: Attempt)
    requires s.commits != []
  {
    if Ran(git, n, c) && c.finished then
      && row.status == (match c.status case RanOk => "ok" case Crashed => "crash" case TimedOut => "timeout")
      && row.score == c.score && row.memoryGb == c.memoryGb && row.commit == Made(git, s, c)
      && row.logsTail == c.logsTail && row.finishedAt == Some(c.now)
      && row.decision == (if Wins(campaign, c) then Kept else Rejected)
    else if c.crashFinished then
      && row.status == "crash" && row.score.None? && row.memoryGb == Some(0.0) && row.commit == Made(git, s, c)
      && row.logsTail == c.error && row.finishedAt == Some(c.now) && row.decision == Rejected
    else
      row.status == "running" && row.decision == Pending
  }

  /** And the time and the description, once it is finished. */
  ghost predicate SaysMore(c: Conditions, row: Attempt) {
    row.status != "running" ==>
      && row.elapsedMs.Some? && row.elapsedMs.value >= 0 && (c.elapsedMs >= 0 ==> row.elapsedMs.value == c.elapsedMs)
      && (Strip(c.description) != "" ==> row.description == Strip(c.description))
  }

  lemma FinishSays(db: Db, id: nat, r: Report, now: int)
    requires id < |db.attempts| && db.attempts[id].status == "running" && db.attempts[id].campaign in db.campaigns
    ensures FinishAttempt(db, id, r, now).1.Ok?
    ensures var after, c := FinishAttempt(db, id, r, now).0, db.campaigns[db.attempts[id].campaign];
      && |after.attempts| == |db.attempts|
      && var row := after.attempts[id];
      && row.status == r.status && row.score == r.score && row.memoryGb == r.memoryGb && row.commit == r.commit
      && row.logsTail == r.logsTail && row.finishedAt == Some(now) && row.description == Strip(r.description)
      && row.elapsedMs.Some? && row.elapsedMs.value >= 0 && (r.elapsedMs >= 0 ==> row.elapsedMs.value == r.elapsedMs)
      && row.decision
         == if r.status == "ok" && r.score.Some? && (c.best.Some? ==> Better(r.score.value, c.best.value, c.policy))
            then Kept else Rejected
  {
    hide FinishAttempt, Better, Strip;
    FinishesExactly(db, id, r, now);
    FinishedAs(db, id, r, now);
  }

  lemma SettleSays(s: State, id: nat, r: Report, created: bool, c: Conditions)
    ensures Settle(s, id, r, created, c).0.db == FinishAttempt(s.db, id, r, c.now).0
    ensures Settle(s, id, r, created, c).0.working.ledger == s.working.ledger
    ensures Settle(s, id, r, created, c).1
      <==> FinishAttempt(s.db, id, r, c.now).1.Ok? && c.finishRefreshed
           && (created && FinishAttempt(s.db, id, r, c.now).1.value == Rejected ==> c.resetDone)
  {
    hide FinishAttempt;
  }

  lemma DescribeSays(db: Db, commit: string, text: string, now: int, id: nat)
    requires id < |db.attempts|
    ensures var after := Describe(db, commit, text, now);
      && |after.attempts| == |db.attempts|
      && after.attempts[id]
         == if commit != "" && Strip(text) != "" && db.attempts[id].commit == commit && db.attempts[id].description == ""
            then db.attempts[id].(description := Strip(text)) else db.attempts[id]
  {
    hide Describe, Strip;
    DescribesExactly(db, commit, text, now);
  }

  /** The attempt once started, up to its row. */
  lemma ExecuteSays(git: Git, s: State, id: nat, n: NewAttempt, c: Conditions)
    requires s.commits != [] && id < |s.db.attempts| && s.db.attempts[id].status == "running"
    requires s.db.attempts[id].campaign in s.db.campaigns && s.db.attempts[id].decision == Pending
    ensures var after := Execute(git, s, id, n, c).0;
      && |after.db.attempts| == |s.db.attempts|
      && Says(git, s, s.db.campaigns[s.db.attempts[id].campaign], n, c, after.db.attempts[id])
      && SaysMore(c, after.db.attempts[id])
  {
    hide FinishAttempt, Describe, Settle, L.Append, Better, Strip;
    var commit := Made(git, s, c);
    FinishSays(s.db, id, RunReport(c, commit), c.now);
    FinishSays(s.db, id, CrashReport(c, commit), c.now);
    var raced := s.(working := c.race);
    var made := CommitWorking(git, raced, c.now);
    var ran := made.(working := c.meanwhile);
    SettleSays(raced, id, CrashReport(c, commit), false, c);
    SettleSays(made, id, CrashReport(c, commit), true, c);
    SettleSays(ran, id, CrashReport(c, commit), true, c);
    SettleSays(ran, id, RunReport(c, commit), true, c);
    var db := FinishAttempt(s.db, id, RunReport(c, commit), c.now).0;
    DescribeSays(db, commit, RowText(c, n, db.attempts[id].decision), c.now, id);
  }

  /** An attempt that is started leaves one new row, and this is what it says. */
  lemma AttemptSays(git: Git, codec: Codec, s: State, n: NewAttempt, c: Conditions)
    requires s.commits != [] && git.treeId(s.working) == n.tree && c.confined && c.startRefreshed
    requires StartAttempt(codec, s.db, n, c.now).1.Ok?
    ensures var after := RunAttempt(git, codec, s, n, c).0;
      && |after.db.attempts| == |s.db.attempts| + 1 && n.cid in s.db.campaigns
      && Says(git, s, s.db.campaigns[n.cid], n, c, after.db.attempts[|s.db.attempts|])
      && SaysMore(c, after.db.attempts[|s.db.attempts|])
  {
    hide StartAttempt, Execute, Better, HistoryText, Normalize;
    StartedAs(codec, s.db, n, c.now);
    var db := StartAttempt(codec, s.db, n, c.now).0;
    ExecuteSays(git, s.(db := db), |s.db.attempts|, n, c);
  }

  /** How an attempt ends: refused unless it is for the approved tree, which can be confined, and the store
      starts it; with its decision if every step after that succeeds; and with an error otherwise. */
  lemma EndsExactly(git: Git, codec: Codec, s: State, n: NewAttempt, c: Conditions)
    requires s.commits != []
    ensures var (after, ended) := RunAttempt(git, codec, s, n, c);
      if git.treeId(s.working) != n.tree || !c.confined || StartAttempt(codec, s.db, n, c.now).1.Err? then
        ended == Refused && after == s
      else if c.startRefreshed && Ran(git, n, c) && c.finished && c.finishRefreshed && c.appended
              && n.cid in s.db.campaigns && (Wins(s.db.campaigns[n.cid], c) || c.resetDone) then
        ended == Workspace.Ran(if Wins(s.db.campaigns[n.cid], c) then Kept else Rejected)
      else
        ended == Raised
  {
    hide StartAttempt, Execute, Better, HistoryText, Normalize;
    StartsExactly(codec, s.db, n, c.now);
    if StartAttempt(codec, s.db, n, c.now).1.Ok? {
      StartedAs(codec, s.db, n, c.now);
      ExecuteEnds(git, s.(db := StartAttempt(codec, s.db, n, c.now).0), |s.db.attempts|, n, c);
    }
  }

  lemma ExecuteEnds(git: Git, s: State, id: nat, n: NewAttempt, c: Conditions)
    requires s.commits != [] && id < |s.db.attempts| && s.db.attempts[id].status == "running"
    requires s.db.attempts[id].campaign in s.db.campaigns
    ensures var won := Wins(s.db.campaigns[s.db.attempts[id].campaign], c);
      Execute(git, s, id, n, c).1
      == if Ran(git, n, c) && c.finished && c.finishRefreshed && c.appended && (won || c.resetDone)
         then Workspace.Ran(if won then Kept else Rejected) else Raised
  {
    hide FinishAttempt, Describe, Settle, Handle, L.Append, Better, Strip;
    var commit := Made(git, s, c);
    FinishSays(s.db, id, RunReport(c, commit), c.now);
    FinishesExactly(s.db, id, RunReport(c, commit), c.now);
    var ran := CommitWorking(git, s.(working := c.race), c.now).(working := c.meanwhile);
    SettleSays(ran, id, RunReport(c, commit), true, c);
  }

  /** The ledger after an attempt that ended with a decision: the rows that the last writer left, and behind
      them, unless one of them is for this commit already, a row of five cells: the commit, the score, the
      memory, the status, and the description, or the hypothesis when there is none, or the decision when
      there is neither. */
  lemma LedgerSays(git: Git, codec: Codec, s: State, n: NewAttempt, c: Conditions)
    requires s.commits != [] && RunAttempt(git, codec, s, n, c).1.Ran?
    ensures var (after, ended) := RunAttempt(git, codec, s, n, c);
      var before, commit := if c.meanwhile.ledger.Some? then c.meanwhile.ledger.value else [], Made(git, s, c);
      && after.working.ledger.Some?
      && var rows := after.working.ledger.value;
      && if commit != "" && exists i :: 0 <= i < |before| && L.CommitOf(before[i]) == commit then rows == before
         else
           && |rows| == |before| + 1 && rows[..|before|] == before
           && L.Split(rows[|before|])
              == [L.Cell(commit), L.Cell(c.scoreText), L.Cell(c.memoryText),
                  match c.status case RanOk => "ok" case Crashed => "crash" case TimedOut => "timeout",
                  L.Cell(if c.description != "" then c.description
                         else if n.hypothesis != "" then n.hypothesis
                         else if ended.decision == Kept then "kept"
                         else if ended.decision == Rejected then "rejected" else "pending")]
  {
    hide StartAttempt, Execute, RunAttempt, L.Append, L.Split, L.Cell, L.CommitOf;
    RanIsExecuted(git, codec, s, n, c);
    var db := StartAttempt(codec, s.db, n, c.now).0;
    ExecuteLedgerSays(git, s.(db := db), |s.db.attempts|, n, c);
    AppendSays(Rows(c.meanwhile), RunRow(c, n, Made(git, s, c), RunAttempt(git, codec, s, n, c).1.decision));
    StatusIsClean(c.status);
  }

  lemma RanIsExecuted(git: Git, codec: Codec, s: State, n: NewAttempt, c: Conditions)
    requires s.commits != [] && RunAttempt(git, codec, s, n, c).1.Ran?
    ensures RunAttempt(git, codec, s, n, c)
         == Execute(git, s.(db := StartAttempt(codec, s.db, n, c.now).0), |s.db.attempts|, n, c)
  {
    hide StartAttempt, Execute, HistoryText, Normalize;
    StartsExactly(codec, s.db, n, c.now);
    if StartAttempt(codec, s.db, n, c.now).1.Ok? { StartedAs(codec, s.db, n, c.now); }
  }

  lemma StatusIsClean(status: RunStatus)
    ensures L.Cell(StatusText(status)) == match status case RanOk => "ok" case Crashed => "crash" case TimedOut => "timeout"
  {
    assert L.Clean("ok") && L.Clean("crash") && L.Clean("timeout");
  }

  /** A row is added unless one of its commit is there; split at its tabs it gives its five cells. */
  lemma AppendSays(lines: seq<string>, row: L.Row)
    ensures var rows := L.Append(lines, row);
      if row.commit != "" && exists i :: 0 <= i < |lines| && L.CommitOf(lines[i]) == row.commit then rows == lines
      else
        && |rows| == |lines| + 1 && rows[..|lines|] == lines
        && L.Split(rows[|lines|])
           == [L.Cell(row.commit), L.Cell(row.score), L.Cell(row.memory), L.Cell(row.status), L.Cell(row.description)]
  {
    L.LineCommit(row);
    hide L.Split, L.Cell, L.Line;
  }

  lemma ExecuteLedgerSays(git: Git, s: State, id: nat, n: NewAttempt, c: Conditions)
    requires s.commits != [] && Execute(git, s, id, n, c).1.Ran?
    ensures var (after, ended) := Execute(git, s, id, n, c);
      && c.committed
      && after.working.ledger
         == Some(L.Append(if c.meanwhile.ledger.Some? then c.meanwhile.ledger.value else [],
                          RunRow(c, n, Made(git, s, c), ended.decision)))
  {
    hide FinishAttempt, Describe, Settle, Handle, L.Append;
    var commit := Made(git, s, c);
    var ran := CommitWorking(git, s.(working := c.race), c.now).(working := c.meanwhile);
    SettleSays(ran, id, RunReport(c, commit), true, c);
  }

  /** The newest decision is that of the campaign's last attempt. */
  lemma {:induction false} LatestExactly(a: seq<Attempt>, cid: string)
    ensures match LatestDecision(a, cid)
            case None => forall i :: 0 <= i < |a| ==> a[i].campaign != cid
            case Some(d) =>
              exists i :: 0 <= i < |a| && a[i].campaign == cid && a[i].decision == d
                          && forall j :: i < j < |a| ==> a[j].campaign != cid
  {
    if a != [] {
      var n := |a| - 1;
      if a[n].campaign != cid {
        LatestExactly(a[..n], cid);
        assert forall i :: 0 <= i < n ==> a[..n][i] == a[i];
        if LatestDecision(a, cid).Some? {
          var i :| 0 <= i < n && a[..n][i].campaign == cid && a[..n][i].decision == LatestDecision(a, cid).value
            && forall j :: i < j < n ==> a[..n][j].campaign != cid;
          assert a[i].campaign == cid && a[i].decision == LatestDecision(a, cid).value;
        }
      }
    }
  }
}
