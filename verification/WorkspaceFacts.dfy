/** How far a workspace and the store agree. */
module WorkspaceFacts {
  import opened Prelude
  import opened Text
  import opened Scores
  import opened Campaigns
  import opened CampaignInvariants
  import opened CampaignRuns
  import opened Workspace
  import L = Ledger

  // ---- The trail of kept attempts ------------------------------------------------------------------

  datatype Mark = Mark(commit: string, tree: string)

  function MarkOf(a: Attempt): Mark { Mark(a.commit, a.tree) }

  /** The commits and approved trees of a campaign's kept attempts, oldest first. */
  function Trail(attempts: seq<Attempt>, cid: string): seq<Mark> {
    if attempts == [] then []
    else
      var n := |attempts| - 1;
      Trail(attempts[..n], cid)
      + if attempts[n].campaign == cid && attempts[n].decision == Kept then [MarkOf(attempts[n])] else []
  }

  /** The history is the initial commit and then exactly the kept attempts, each with the tree it was
      approved with. */
  ghost predicate Spine(git: Git, s: State, cid: string) {
    var trail := Trail(s.db.attempts, cid);
    && |s.commits| == |trail| + 1
    && forall k :: 0 <= k < |trail| ==>
         s.commits[k + 1].id == trail[k].commit && git.treeId(s.commits[k + 1].tree) == trail[k].tree
  }

  /** Whether a store without crashes agrees with its workspace: HEAD is the winner's commit with the
      winner's approved tree, or nothing was kept and HEAD is the only commit. */
  ghost predicate HeadIsWinner(git: Git, s: State, cid: string) {
    && cid in s.db.campaigns && s.commits != []
    && match s.db.campaigns[cid].bestAttempt
       case None => |s.commits| == 1
       case Some(b) =>
         && b < |s.db.attempts| && s.db.attempts[b].campaign == cid
         && Head(s).id == s.db.attempts[b].commit && git.treeId(Head(s).tree) == s.db.attempts[b].tree
  }

  lemma {:induction false} TrailFrom(a: seq<Attempt>, id: nat, cid: string)
    requires id < |a| && forall j :: id < j < |a| ==> a[j].campaign != cid || a[j].decision != Kept
    ensures Trail(a, cid) == Trail(a[..id + 1], cid)
  {
    if id + 1 < |a| {
      var n := |a| - 1;
      TrailFrom(a[..n], id, cid);
      assert a[..n][..id + 1] == a[..id + 1];
    } else {
      assert a[..id + 1] == a;
    }
  }

  lemma {:induction false} NothingKept(a: seq<Attempt>, cid: string)
    requires forall j :: 0 <= j < |a| ==> a[j].campaign != cid || a[j].decision != Kept
    ensures Trail(a, cid) == []
  {
    if a != [] { NothingKept(a[..|a| - 1], cid); }
  }

  lemma {:induction false} TrailSame(a: seq<Attempt>, b: seq<Attempt>, cid: string)
    requires |a| == |b|
    requires forall i :: 0 <= i < |a| ==>
      a[i].campaign == b[i].campaign && a[i].commit == b[i].commit && a[i].tree == b[i].tree
      && (a[i].campaign == cid ==> (a[i].decision == Kept <==> b[i].decision == Kept))
    ensures Trail(a, cid) == Trail(b, cid)
  {
    if a != [] { TrailSame(a[..|a| - 1], b[..|b| - 1], cid); }
  }

  lemma TrailSnoc(a: seq<Attempt>, row: Attempt, cid: string)
    ensures Trail(a + [row], cid)
         == Trail(a, cid) + if row.campaign == cid && row.decision == Kept then [MarkOf(row)] else []
  {
    assert (a + [row])[..|a|] == a;
  }

  /** A history of kept attempts has the winner at its head. */
  lemma SpineMeansHeadIsWinner(git: Git, s: State, cid: string)
    requires Core(s.db) && cid in s.db.campaigns && Spine(git, s, cid)
    ensures HeadIsWinner(git, s, cid)
  {
    hide OneRuns, OrdinalInv, LeaseInv, WinnerInv, Trail;
    TrailEndsAtWinner(s.db, cid);
  }

  lemma TrailEndsAtWinner(db: Db, cid: string)
    requires WinnerInv(db) && cid in db.campaigns
    ensures var trail := Trail(db.attempts, cid);
      match db.campaigns[cid].bestAttempt
      case None => trail == []
      case Some(b) =>
        && b < |db.attempts| && db.attempts[b].campaign == cid
        && trail != [] && trail[|trail| - 1] == MarkOf(db.attempts[b])
  {
    hide WinnerInv, Trail;
    BestIsLastKept(db, cid);
    var A := db.attempts;
    match db.campaigns[cid].bestAttempt
    case None => NothingKept(A, cid);
    case Some(b) =>
      TrailFrom(A, b, cid);
      assert A[..b + 1] == A[..b] + [A[b]];
      TrailSnoc(A[..b], A[b], cid);
  }

  lemma BestIsLastKept(db: Db, cid: string)
    requires WinnerInv(db) && cid in db.campaigns
    ensures var A := db.attempts;
      match db.campaigns[cid].bestAttempt
      case None => forall i :: 0 <= i < |A| && A[i].campaign == cid ==> A[i].decision != Kept
      case Some(b) =>
        && b < |A| && A[b].campaign == cid && A[b].decision == Kept
        && forall i :: b < i < |A| && A[i].campaign == cid ==> A[i].decision != Kept
  {
    hide EarnedAt, ValidPolicy, BestOf, ScoresOf;
    assert WinnerOf(db, cid);
  }

  // ---- What the store's operations do to the trail --------------------------------------------------

  lemma StartKeepsTrail(codec: Codec, db: Db, n: NewAttempt, now: int, cid: string)
    ensures Trail(StartAttempt(codec, db, n, now).0.attempts, cid) == Trail(db.attempts, cid)
  {
    hide AdmitAttempt, ClampBudget;
    var (after, r) := StartAttempt(codec, db, n, now);
    if r.Ok? { TrailSnoc(db.attempts, after.attempts[|db.attempts|], cid); }
  }

  /** Finishing adds the attempt's mark to its campaign's trail if it was kept. */
  lemma FinishExtendsTrail(db: Db, id: nat, r: Report, now: int, cid: string)
    requires Core(db) && FinishAttempt(db, id, r, now).1.Ok?
    ensures id < |db.attempts|
    ensures var a := db.attempts[id];
      Trail(FinishAttempt(db, id, r, now).0.attempts, cid)
      == Trail(db.attempts, cid)
         + if a.campaign == cid && FinishAttempt(db, id, r, now).1.value == Kept then [Mark(r.commit, a.tree)] else []
  {
    hide Core, Trail;
    var A, B := db.attempts, FinishAttempt(db, id, r, now).0.attempts;
    FinishRow(db, id, r, now);
    RunningIsLast(db, id);
    hide FinishAttempt;
    if A[id].campaign == cid {
      TrailFrom(A, id, cid);
      TrailFrom(B, id, cid);
      assert A[..id + 1] == A[..id] + [A[id]] && B[..id + 1] == A[..id] + [B[id]];
      TrailSnoc(A[..id], A[id], cid);
      TrailSnoc(A[..id], B[id], cid);
    } else {
      TrailOthers(A, B, id, cid);
    }
  }

  lemma FinishRow(db: Db, id: nat, r: Report, now: int)
    requires FinishAttempt(db, id, r, now).1.Ok?
    ensures var (after, decision) := (FinishAttempt(db, id, r, now).0, FinishAttempt(db, id, r, now).1.value);
      && id < |db.attempts| == |after.attempts| && db.attempts[id].status == "running"
      && db.attempts[id].campaign in db.campaigns
      && (forall i :: 0 <= i < |db.attempts| && i != id ==> after.attempts[i] == db.attempts[i])
      && after.attempts[id].campaign == db.attempts[id].campaign && after.attempts[id].decision == decision
      && after.attempts[id].status == r.status
      && MarkOf(after.attempts[id]) == Mark(r.commit, db.attempts[id].tree)
      && after.campaigns.Keys == db.campaigns.Keys
  {
    hide StopDecision, OutcomesOf, ScoreImproved;
  }

  lemma RunningIsLast(db: Db, id: nat)
    requires Core(db) && id < |db.attempts| && db.attempts[id].status == "running"
    ensures db.attempts[id].decision != Kept
    ensures forall j :: id < j < |db.attempts| ==> db.attempts[j].campaign != db.attempts[id].campaign
  {
  }

  lemma {:induction false} TrailOthers(a: seq<Attempt>, b: seq<Attempt>, id: nat, cid: string)
    requires id < |a| == |b| && a[id].campaign != cid && b[id].campaign != cid
    requires forall i :: 0 <= i < |a| && i != id ==> a[i] == b[i]
    ensures Trail(a, cid) == Trail(b, cid)
  {
    var n := |a| - 1;
    if id == n { assert a[..n] == b[..n]; } else { TrailOthers(a[..n], b[..n], id, cid); }
  }

  lemma DescribeKeepsTrail(db: Db, commit: string, description: string, now: int, cid: string)
    ensures Trail(Describe(db, commit, description, now).attempts, cid) == Trail(db.attempts, cid)
  {
    hide Strip, LacksDescription;
    TrailSame(db.attempts, Describe(db, commit, description, now).attempts, cid);
  }

  lemma RecoverKeepsTrail(db: Db, now: int, cid: string)
    requires Core(db)
    ensures Trail(Recover(db, now).attempts, cid) == Trail(db.attempts, cid)
  {
    hide OrdinalInv, LeaseInv, WinnerInv;
    TrailSame(db.attempts, Recover(db, now).attempts, cid);
  }

  // ---- One attempt ------------------------------------------------------------------------------------

  /** The attempt is started. */
  predicate Starts(git: Git, codec: Codec, s: State, n: NewAttempt, c: Conditions) {
    && git.treeId(s.working) == n.tree && c.confined && c.startRefreshed
    && StartAttempt(codec, s.db, n, c.now).1.Ok?
  }

  /** The committed tree is the approved one and can be executed. */
  predicate Executes(git: Git, n: NewAttempt, c: Conditions) {
    c.committed && git.treeId(c.race) == n.tree && c.exported
  }

  /** The name of the commit the attempt makes, if it makes one. */
  function AttemptCommit(git: Git, s: State, c: Conditions): string
    requires s.commits != []
  {
    if c.committed then git.commitId(Head(s).id, c.race, c.now) else ""
  }

  /** The report of the finish that is committed, if one is: the experiment's own, or the error
      handler's. */
  function Reported(git: Git, s: State, n: NewAttempt, c: Conditions): Option<Report>
    requires s.commits != []
  {
    if Executes(git, n, c) && c.finished then Some(RunReport(c, AttemptCommit(git, s, c)))
    else if c.crashFinished then Some(CrashReport(c, AttemptCommit(git, s, c)))
    else None
  }

  /** The attempt beats the incumbent with what is reported. */
  predicate Prevails(git: Git, s: State, n: NewAttempt, c: Conditions) {
    && s.commits != [] && n.cid in s.db.campaigns && Reported(git, s, n, c).Some?
    && Improves(s.db.campaigns[n.cid], Reported(git, s, n, c).value)
  }

  /** The attempt's commit stays although it did not win: no finish was committed, or the refresh after
      it or the reset failed. */
  predicate Strands(git: Git, s: State, n: NewAttempt, c: Conditions) {
    && s.commits != [] && c.committed && !Prevails(git, s, n, c)
    && !(Reported(git, s, n, c).Some? && c.finishRefreshed && c.resetDone)
  }

  /** The store runs this attempt. */
  ghost predicate Engaged(s: State, id: nat, n: NewAttempt) {
    && id < |s.db.attempts| && s.db.attempts[id].status == "running"
    && s.db.attempts[id].campaign == n.cid && n.cid in s.db.campaigns && s.db.attempts[id].tree == n.tree
  }

  lemma StartedRow(codec: Codec, db: Db, n: NewAttempt, now: int)
    requires StartAttempt(codec, db, n, now).1.Ok?
    ensures var (after, id) := (StartAttempt(codec, db, n, now).0, StartAttempt(codec, db, n, now).1.value);
      && id == |db.attempts| && |after.attempts| == id + 1 && after.attempts[..id] == db.attempts
      && after.attempts[id].campaign == n.cid && after.attempts[id].tree == n.tree
      && after.attempts[id].status == "running" && after.attempts[id].decision == Pending
      && after.campaigns.Keys == db.campaigns.Keys && n.cid in db.campaigns
      && after.campaigns[n.cid].best == db.campaigns[n.cid].best
      && after.campaigns[n.cid].policy == db.campaigns[n.cid].policy
      && !AnyRunning(db.attempts)
  {
    hide ClampBudget, HistoryOf, IsValidProposal, BoundHypothesis;
  }

  /** Settling leaves the history of kept attempts, provided the attempt's commit is there if it was
      made, unless the commit was rejected and not taken away. */
  lemma SettleSpine(git: Git, s: State, id: nat, report: Report, created: bool, c: Conditions)
    requires Core(s.db) && id < |s.db.attempts| && s.db.attempts[id].status == "running"
    requires s.db.attempts[id].campaign in s.db.campaigns && s.commits != []
    requires created ==>
      && |s.commits| > 1 && Spine(git, s.(commits := s.commits[..|s.commits| - 1]), s.db.attempts[id].campaign)
      && Head(s).id == report.commit
      && (Improves(s.db.campaigns[s.db.attempts[id].campaign], report) ==> git.treeId(Head(s).tree) == s.db.attempts[id].tree)
    requires !created ==> Spine(git, s, s.db.attempts[id].campaign) && report.status == "crash"
    ensures var cid := s.db.attempts[id].campaign;
      Spine(git, Settle(s, id, report, created, c).0, cid)
      <==> !created || Improves(s.db.campaigns[cid], report) || (c.finishRefreshed && c.resetDone)
  {
    hide Core, Improves, StopDecision, OutcomesOf, Trail;
    var cid := s.db.attempts[id].campaign;
    FinishDecides(s.db, id, report, c.now);
    hide FinishAttempt;
    FinishExtendsTrail(s.db, id, report, c.now, cid);
  }

  lemma FinishDecides(db: Db, id: nat, report: Report, now: int)
    requires id < |db.attempts| && db.attempts[id].status == "running" && db.attempts[id].campaign in db.campaigns
    ensures FinishAttempt(db, id, report, now).1
         == Ok(if Improves(db.campaigns[db.attempts[id].campaign], report) then Kept else Rejected)
    ensures report.status == "crash" ==> !Improves(db.campaigns[db.attempts[id].campaign], report)
  {
    hide StopDecision, OutcomesOf, ScoreImproved;
  }

  lemma StartedSpine(git: Git, codec: Codec, s: State, n: NewAttempt, now: int)
    requires Core(s.db) && Spine(git, s, n.cid) && StartAttempt(codec, s.db, n, now).1.Ok?
    ensures var db := StartAttempt(codec, s.db, n, now).0;
      Core(db) && forall working :: Spine(git, State(db, s.commits, working), n.cid)
  {
    hide Core, StatusInv, StartAttempt;
    StartPreserves(codec, s.db, n, now);
    StartKeepsTrail(codec, s.db, n, now, n.cid);
  }

  lemma SpineIgnoresWorking(git: Git, s: State, t: State, cid: string)
    requires s.commits == t.commits && Trail(s.db.attempts, cid) == Trail(t.db.attempts, cid)
    ensures Spine(git, s, cid) <==> Spine(git, t, cid)
  {
  }

  /** An attempt, whoever else writes and whichever steps fail, leaves the history of kept attempts
      exactly unless it strands its commit. */
  lemma RunKeepsSpineExactly(git: Git, codec: Codec, s: State, n: NewAttempt, c: Conditions)
    requires Core(s.db) && s.commits != [] && Spine(git, s, n.cid)
    ensures Spine(git, RunAttempt(git, codec, s, n, c).0, n.cid)
      <==> !(Starts(git, codec, s, n, c) && Strands(git, s, n, c))
  {
    hide Core, Spine, StartAttempt, Improves, Execute, Strands;
    var (db, started) := StartAttempt(codec, s.db, n, c.now);
    if git.treeId(s.working) == n.tree && c.confined {
      if started.Err? {
        RefusedStart(codec, s.db, n, c.now);
      } else {
        StartedSpine(git, codec, s, n, c.now);
        StartedRow(codec, s.db, n, c.now);
        assert Spine(git, s.(db := db), n.cid);
        if c.startRefreshed {
          ExecuteSpine(git, s.(db := db), started.value, n, c);
          SameStrands(git, s, s.(db := db), n, c);
        }
      }
    }
  }

  lemma SameStrands(git: Git, s: State, t: State, n: NewAttempt, c: Conditions)
    requires s.commits == t.commits && n.cid in s.db.campaigns && n.cid in t.db.campaigns
    requires s.db.campaigns[n.cid].best == t.db.campaigns[n.cid].best
    requires s.db.campaigns[n.cid].policy == t.db.campaigns[n.cid].policy
    ensures Prevails(git, s, n, c) <==> Prevails(git, t, n, c)
    ensures Strands(git, s, n, c) <==> Strands(git, t, n, c)
  {
    hide Improves;
    if s.commits != [] && Reported(git, s, n, c).Some? {
      SameIncumbent(s.db.campaigns[n.cid], t.db.campaigns[n.cid], Reported(git, s, n, c).value);
    }
  }

  lemma RefusedStart(codec: Codec, db: Db, n: NewAttempt, now: int)
    requires StartAttempt(codec, db, n, now).1.Err?
    ensures StartAttempt(codec, db, n, now).0 == db
  {
    hide AdmitAttempt;
  }

  lemma SameIncumbent(a: Campaign, b: Campaign, r: Report)
    requires a.best == b.best && a.policy == b.policy
    ensures Improves(a, r) <==> Improves(b, r)
  {
  }

  lemma ExecuteSpine(git: Git, s: State, id: nat, n: NewAttempt, c: Conditions)
    requires Core(s.db) && s.commits != [] && Engaged(s, id, n) && Spine(git, s, n.cid)
    ensures Spine(git, Execute(git, s, id, n, c).0, n.cid) <==> !Strands(git, s, n, c)
  {
    hide Core, Improves, Settle, Handle, AppendLedger, Trail, Spine;
    var raced := s.(working := c.race);
    SpineIgnoresWorking(git, s, raced, n.cid);
    if !c.committed {
      HandleSpine(git, raced, id, "", false, c);
    } else {
      var made := CommitWorking(git, raced, c.now);
      var commit := Head(made).id;
      NeverImproves(s.db.campaigns[n.cid], CrashReport(c, commit));
      assert made.commits[..|made.commits| - 1] == s.commits;
      SpineIgnoresWorking(git, s, made.(commits := s.commits), n.cid);
      if !Executes(git, n, c) {
        HandleSpine(git, made, id, commit, true, c);
      } else {
        var ran := made.(working := c.meanwhile);
        SpineIgnoresWorking(git, s, ran.(commits := s.commits), n.cid);
        assert ran.commits[..|ran.commits| - 1] == s.commits;
        if !c.finished {
          HandleSpine(git, ran, id, commit, true, c);
        } else {
          SettleSpine(git, ran, id, RunReport(c, commit), true, c);
          var (settled, ok) := Settle(ran, id, RunReport(c, commit), true, c);
          if ok && id < |settled.db.attempts| {
            AppendKeepsSpine(git, settled, RunRow(c, n, commit, settled.db.attempts[id].decision), c, n.cid);
          }
        }
      }
    }
  }

  /** The handler leaves the history alone exactly if it made no commit or takes it away. */
  lemma HandleSpine(git: Git, s: State, id: nat, commit: string, created: bool, c: Conditions)
    requires Core(s.db) && id < |s.db.attempts| && s.db.attempts[id].status == "running"
    requires s.db.attempts[id].campaign in s.db.campaigns && s.commits != []
    requires created ==>
      && |s.commits| > 1 && Spine(git, s.(commits := s.commits[..|s.commits| - 1]), s.db.attempts[id].campaign)
      && Head(s).id == commit
    requires !created ==> Spine(git, s, s.db.attempts[id].campaign)
    ensures Spine(git, Handle(s, id, commit, created, c), s.db.attempts[id].campaign)
      <==> !created || (c.crashFinished && c.finishRefreshed && c.resetDone)
  {
    hide Core, Settle, Trail, Improves;
    NeverImproves(s.db.campaigns[s.db.attempts[id].campaign], CrashReport(c, commit));
    if c.crashFinished {
      SettleSpine(git, s, id, CrashReport(c, commit), created, c);
    }
  }

  lemma NeverImproves(campaign: Campaign, r: Report)
    requires r.status == "crash"
    ensures !Improves(campaign, r)
  {
    hide ScoreImproved;
  }

  lemma AppendKeepsSpine(git: Git, s: State, row: L.Row, c: Conditions, cid: string)
    ensures Spine(git, AppendLedger(s, row, c.appended, c.now), cid) <==> Spine(git, s, cid)
  {
    hide Describe, L.Append;
    DescribeKeepsTrail(s.db, row.commit, row.description, c.now, cid);
  }

  // ---- What an attempt leaves -------------------------------------------------------------------------

  /** What is in the workspace when an attempt's commit is taken away. */
  function LeftBehind(git: Git, n: NewAttempt, c: Conditions): Tree {
    if Executes(git, n, c) then c.meanwhile else c.race
  }

  /** A rejected attempt whose finish, refresh and reset succeed leaves HEAD where it was and the files
      that were committed there, and beside them exactly the files made after its own commit; only the
      ledger keeps what it held when the attempt ended, and its own row. */
  lemma RejectedRestores(git: Git, codec: Codec, s: State, n: NewAttempt, c: Conditions)
    requires Core(s.db) && s.commits != [] && Starts(git, codec, s, n, c) && c.committed && !Prevails(git, s, n, c)
    requires Reported(git, s, n, c).Some? && c.finishRefreshed && c.resetDone && c.appended
    ensures var (after, ended) := RunAttempt(git, codec, s, n, c);
      var left, head := LeftBehind(git, n, c), Head(s).tree.files;
      && after.commits == s.commits
      && (forall p :: p in head ==> p in after.working.files && after.working.files[p] == head[p])
      && (forall p :: p !in head ==>
            (p in after.working.files <==> p in left.files && p !in c.race.files)
            && (p in after.working.files ==> after.working.files[p] == left.files[p]))
      && (after.working.files == head <==> left.files.Keys <= c.race.files.Keys + head.Keys)
      && (!Executes(git, n, c) ==> after.working.files == head)
      && ended == (if Executes(git, n, c) && c.finished then Ran(Rejected) else Raised)
      && after.working.ledger
         == if ended == Raised then left.ledger
            else Some(L.Append(Rows(left), RunRow(c, n, AttemptCommit(git, s, c), Rejected)))
  {
    hide Core, Improves, StartAttempt, Execute, ResetFiles, Reported, L.Append;
    StartedRow(codec, s.db, n, c.now);
    var (db, started) := StartAttempt(codec, s.db, n, c.now);
    SameReport(git, s, s.(db := db), n, c);
    SameStrands(git, s, s.(db := db), n, c);
    RejectedExecution(git, s.(db := db), started.value, n, c);
    ResetFilesAre(LeftBehind(git, n, c).files, c.race.files, Head(s).tree.files);
  }

  lemma RejectedExecution(git: Git, s: State, id: nat, n: NewAttempt, c: Conditions)
    requires s.commits != [] && Engaged(s, id, n) && c.committed && !Prevails(git, s, n, c)
    requires Reported(git, s, n, c).Some? && c.finishRefreshed && c.resetDone && c.appended
    ensures var (after, ended) := Execute(git, s, id, n, c);
      var left := LeftBehind(git, n, c);
      && after.commits == s.commits
      && after.working.files == ResetFiles(left.files, c.race.files, Head(s).tree.files)
      && ended == (if Executes(git, n, c) && c.finished then Ran(Rejected) else Raised)
      && after.working.ledger
         == if ended == Raised then left.ledger
            else Some(L.Append(Rows(left), RunRow(c, n, AttemptCommit(git, s, c), Rejected)))
  {
    hide Improves, Describe, L.Append, ResetFiles;
    var report := Reported(git, s, n, c).value;
    FinishDecides(s.db, id, report, c.now);
    FinishRow(s.db, id, report, c.now);
    hide FinishAttempt;
    var made := s.commits + [Commit(AttemptCommit(git, s, c), c.race)];
    assert made[..|made| - 1] == s.commits;
  }

  lemma ResetFilesAre(working: map<string, string>, head: map<string, string>, parent: map<string, string>)
    ensures var r := ResetFiles(working, head, parent);
      && (forall p :: p in parent ==> p in r && r[p] == parent[p])
      && (forall p :: p !in parent ==>
            (p in r <==> p in working && p !in head) && (p in r ==> r[p] == working[p]))
      && (r == parent <==> working.Keys <= head.Keys + parent.Keys)
  {
    var r := ResetFiles(working, head, parent);
    if working.Keys <= head.Keys + parent.Keys {
      assert forall p :: p in r <==> p in parent;
      assert r == parent;
    } else {
      var p :| p in working.Keys && p !in head.Keys + parent.Keys;
      assert p in r;
    }
  }

  /** A kept attempt's commit is exactly the approved tree, on top of what was there. */
  lemma KeptAdvances(git: Git, codec: Codec, s: State, n: NewAttempt, c: Conditions)
    requires Core(s.db) && s.commits != [] && Starts(git, codec, s, n, c) && Prevails(git, s, n, c)
    ensures var after := RunAttempt(git, codec, s, n, c).0;
      && |after.commits| == |s.commits| + 1 && after.commits[..|s.commits|] == s.commits
      && git.treeId(Head(after).tree) == n.tree == git.treeId(s.working)
      && |after.db.attempts| == |s.db.attempts| + 1
      && after.db.attempts[|s.db.attempts|].decision == Kept
      && after.db.attempts[|s.db.attempts|].commit == Head(after).id
      && after.working.files == c.meanwhile.files
  {
    hide Core, Improves, StartAttempt, L.Append, AppendLedger;
    StartedRow(codec, s.db, n, c.now);
    var (db, started) := StartAttempt(codec, s.db, n, c.now);
    var report := Reported(git, s, n, c).value;
    SameIncumbent(s.db.campaigns[n.cid], db.campaigns[n.cid], report);
    if !(Executes(git, n, c) && c.finished) { NeverImproves(s.db.campaigns[n.cid], report); }
    FinishDecides(db, started.value, report, c.now);
    FinishRow(db, started.value, report, c.now);
    hide FinishAttempt;
    var made := CommitWorking(git, State(db, s.commits, c.race), c.now);
    var (settled, ok) := Settle(made.(working := c.meanwhile), started.value, report, true, c);
    AppendKeepsRow(settled, RunRow(c, n, Head(made).id, settled.db.attempts[started.value].decision), c, started.value);
  }

  /** What the store records of an attempt is the report of the finish that was committed; it is kept
      exactly if that was the experiment's own and it wins. */
  lemma RecordedExactly(git: Git, codec: Codec, s: State, n: NewAttempt, c: Conditions)
    requires Core(s.db) && s.commits != [] && Starts(git, codec, s, n, c)
    ensures var after, id := RunAttempt(git, codec, s, n, c).0, |s.db.attempts|;
      && |after.db.attempts| == id + 1 && n.cid in s.db.campaigns
      && after.db.attempts[id].status
         == (match Reported(git, s, n, c) case None => "running" case Some(r) => r.status)
      && (after.db.attempts[id].decision == Kept
          <==> Executes(git, n, c) && c.finished
               && Improves(s.db.campaigns[n.cid], RunReport(c, AttemptCommit(git, s, c))))
  {
    hide Core, Improves, StartAttempt, Execute, Reported;
    StartedRow(codec, s.db, n, c.now);
    var (db, started) := StartAttempt(codec, s.db, n, c.now);
    ExecuteRow(git, s.(db := db), started.value, n, c);
    SameIncumbent(s.db.campaigns[n.cid], db.campaigns[n.cid], RunReport(c, AttemptCommit(git, s, c)));
    SameReport(git, s, s.(db := db), n, c);
  }

  lemma SameReport(git: Git, s: State, t: State, n: NewAttempt, c: Conditions)
    requires s.commits == t.commits != []
    ensures Reported(git, s, n, c) == Reported(git, t, n, c)
  {
  }

  lemma SettleRow(s: State, id: nat, report: Report, created: bool, c: Conditions)
    requires id < |s.db.attempts| && s.db.attempts[id].status == "running" && s.db.attempts[id].campaign in s.db.campaigns
    ensures var after := Settle(s, id, report, created, c).0;
      && |after.db.attempts| == |s.db.attempts| && after.db.attempts[id].status == report.status
      && (after.db.attempts[id].decision == Kept <==> Improves(s.db.campaigns[s.db.attempts[id].campaign], report))
  {
    hide Improves;
    FinishDecides(s.db, id, report, c.now);
    FinishRow(s.db, id, report, c.now);
    hide FinishAttempt;
  }

  lemma ExecuteRow(git: Git, s: State, id: nat, n: NewAttempt, c: Conditions)
    requires s.commits != [] && Engaged(s, id, n) && s.db.attempts[id].decision == Pending
    ensures var after := Execute(git, s, id, n, c).0;
      && |after.db.attempts| == |s.db.attempts|
      && after.db.attempts[id].status
         == (match Reported(git, s, n, c) case None => "running" case Some(r) => r.status)
      && (after.db.attempts[id].decision == Kept
          <==> Executes(git, n, c) && c.finished
               && Improves(s.db.campaigns[n.cid], RunReport(c, AttemptCommit(git, s, c))))
  {
    hide Improves, Settle, AppendLedger;
    var raced, commit := s.(working := c.race), AttemptCommit(git, s, c);
    var made := CommitWorking(git, raced, c.now);
    var ran := made.(working := c.meanwhile);
    NeverImproves(s.db.campaigns[n.cid], CrashReport(c, commit));
    SettleRow(raced, id, CrashReport(c, commit), false, c);
    SettleRow(made, id, CrashReport(c, commit), true, c);
    SettleRow(ran, id, CrashReport(c, commit), true, c);
    SettleRow(ran, id, RunReport(c, commit), true, c);
    var settled := Settle(ran, id, RunReport(c, commit), true, c).0;
    AppendKeepsRow(settled, RunRow(c, n, commit, settled.db.attempts[id].decision), c, id);
  }

  lemma AppendKeepsRow(s: State, row: L.Row, c: Conditions, id: nat)
    requires id < |s.db.attempts|
    ensures var after := AppendLedger(s, row, c.appended, c.now);
      && after.commits == s.commits && after.working.files == s.working.files
      && |after.db.attempts| == |s.db.attempts|
      && after.db.attempts[id].decision == s.db.attempts[id].decision
      && after.db.attempts[id].status == s.db.attempts[id].status
      && after.db.attempts[id].commit == s.db.attempts[id].commit
  {
    hide Strip, L.Append, LacksDescription;
  }

  /** A workspace that is not the approved one starts nothing and consumes nothing; an attempt that
      does start is approved for exactly the workspace's contents. */
  lemma StartsOnlyApproved(git: Git, codec: Codec, s: State, n: NewAttempt, c: Conditions)
    requires s.commits != []
    ensures var after := RunAttempt(git, codec, s, n, c).0;
      if |after.db.attempts| == |s.db.attempts| then after == s
      else
        && git.treeId(s.working) == n.tree && |after.db.attempts| == |s.db.attempts| + 1
        && after.db.attempts[|s.db.attempts|].tree == git.treeId(s.working)
  {
    hide StartAttempt, Execute;
    if git.treeId(s.working) == n.tree && c.confined {
      var (db, started) := StartAttempt(codec, s.db, n, c.now);
      if started.Err? {
        RefusedStart(codec, s.db, n, c.now);
      } else {
        StartedRow(codec, s.db, n, c.now);
        ExecuteKeepsTree(git, s.(db := db), started.value, n, c);
      }
    }
  }

  lemma ExecuteKeepsTree(git: Git, s: State, id: nat, n: NewAttempt, c: Conditions)
    requires s.commits != [] && id < |s.db.attempts|
    ensures var after := Execute(git, s, id, n, c).0;
      |after.db.attempts| == |s.db.attempts| && after.db.attempts[id].tree == s.db.attempts[id].tree
  {
    hide FinishAttempt, Describe, L.Append;
    forall report { FinishKeepsTree(s.db, id, report, c.now); }
    forall db: Db, commit, description | |db.attempts| == |s.db.attempts| {
      DescribeKeepsTree(db, id, commit, description, c.now);
    }
  }

  lemma FinishKeepsTree(db: Db, id: nat, r: Report, now: int)
    requires id < |db.attempts|
    ensures |FinishAttempt(db, id, r, now).0.attempts| == |db.attempts|
    ensures FinishAttempt(db, id, r, now).0.attempts[id].tree == db.attempts[id].tree
  {
    hide StopDecision, OutcomesOf, ScoreImproved;
  }

  lemma DescribeKeepsTree(db: Db, id: nat, commit: string, description: string, now: int)
    requires id < |db.attempts|
    ensures |Describe(db, commit, description, now).attempts| == |db.attempts|
    ensures Describe(db, commit, description, now).attempts[id].tree == db.attempts[id].tree
  {
    hide Strip, LacksDescription;
  }

  // ---- Crashes ---------------------------------------------------------------------------------------

  datatype CrashPoint = BeforeCommit | BeforeFinish | BeforeReset

  /** What a crash of the engine leaves of an attempt that the store runs. */
  function CrashedAt(git: Git, s: State, id: nat, n: NewAttempt, c: Conditions, at: CrashPoint): State
    requires s.commits != []
  {
    var raced := s.(working := c.race);
    match at
    case BeforeCommit => raced
    case BeforeFinish => CommitWorking(git, raced, c.now)
    case BeforeReset =>
      var made := CommitWorking(git, raced, c.now).(working := LeftBehind(git, n, c));
      (match Reported(git, s, n, c)
       case None => made
       case Some(report) => made.(db := FinishAttempt(s.db, id, report, c.now).0))
  }

  predicate InFlight(attempts: seq<Attempt>, cid: string) {
    exists i :: 0 <= i < |attempts| && attempts[i].status == "running" && attempts[i].campaign == cid
  }

  /** The next start: the store is recovered, and then the workspace of a campaign whose attempt was
      running is reset, unless the start is cut in between or the reset fails, which nobody hears of. */
  function Restarted(s: State, cid: string, now: int, restored: bool): (r: State)
    ensures s.commits != [] ==> r.commits != []
  {
    var recovered := s.(db := Recover(s.db, now));
    if InFlight(s.db.attempts, cid) && restored then Reset(recovered) else recovered
  }

  /** Recovery resets one commit whether or not the attempt had made one. Between the commit and the
      finish that is right, provided the reset is done; before the commit it is wrong as soon as anything
      was ever kept, unless the reset is not done; and it does not come back for a rejected attempt that
      the crash kept from being reset. */
  lemma CrashKeepsSpineExactly(
    git: Git, s: State, id: nat, n: NewAttempt, c: Conditions, at: CrashPoint, now: int, restored: bool)
    requires Core(s.db) && s.commits != [] && Spine(git, s, n.cid) && Engaged(s, id, n)
    requires at.BeforeCommit? || c.committed
    ensures Spine(git, Restarted(CrashedAt(git, s, id, n, c, at), n.cid, now, restored), n.cid)
      <==> match at
           case BeforeCommit => !restored || |s.commits| == 1
           case BeforeFinish => restored
           case BeforeReset => if Reported(git, s, n, c).None? then restored else Prevails(git, s, n, c)
  {
    hide Core, Trail, Recover, Improves, FinishAttempt;
    RecoverKeepsTrail(s.db, now, n.cid);
    assert InFlight(s.db.attempts, n.cid) by { assert s.db.attempts[id].status == "running"; }
    if at == BeforeReset && Reported(git, s, n, c).Some? {
      var report := Reported(git, s, n, c).value;
      FinishedSpine(git, s.db, id, report, c.now, now);
      if !(Executes(git, n, c) && c.finished) { NeverImproves(s.db.campaigns[n.cid], report); }
    }
  }

  /** A restart while no attempt is under way: one that a failure left running is taken for one that had
      made a commit. */
  lemma RestartKeepsSpineExactly(git: Git, s: State, cid: string, now: int, restored: bool)
    requires Core(s.db) && s.commits != [] && Spine(git, s, cid)
    ensures Spine(git, Restarted(s, cid, now, restored), cid)
      <==> !InFlight(s.db.attempts, cid) || !restored || |s.commits| == 1
  {
    hide Core, Trail, Recover;
    RecoverKeepsTrail(s.db, now, cid);
  }

  /** A reset that was not done is never done later: the recovered store runs no attempt, so the starts
      that follow leave the workspace as it is. */
  lemma RecoveryIsNotRetried(s: State, cid: string, now: int, restored: bool, later: int, again: bool)
    ensures var first := Restarted(s, cid, now, restored);
      && Restarted(first, cid, later, again).commits == first.commits
      && Restarted(first, cid, later, again).working == first.working
  {
  }

  lemma FinishedSpine(git: Git, db: Db, id: nat, report: Report, now: int, later: int)
    requires Core(db) && id < |db.attempts| && db.attempts[id].status == "running" && report.status != "running"
    requires db.attempts[id].campaign in db.campaigns
    ensures var (after, cid) := (FinishAttempt(db, id, report, now).0, db.attempts[id].campaign);
      && !InFlight(after.attempts, cid)
      && Trail(Recover(after, later).attempts, cid)
         == Trail(db.attempts, cid)
            + if Improves(db.campaigns[cid], report) then [Mark(report.commit, db.attempts[id].tree)] else []
  {
    hide Core, Trail, Recover, Improves;
    FinishDecides(db, id, report, now);
    FinishExtendsTrail(db, id, report, now, db.attempts[id].campaign);
    FinishPreserves(db, id, report, now);
    FinishIdles(db, id, report, now);
    var after := FinishAttempt(db, id, report, now).0;
    hide FinishAttempt;
    RecoverKeepsTrail(after, later, db.attempts[id].campaign);
  }

  lemma FinishIdles(db: Db, id: nat, report: Report, now: int)
    requires Core(db) && FinishAttempt(db, id, report, now).1.Ok? && report.status != "running"
    ensures !AnyRunning(FinishAttempt(db, id, report, now).0.attempts)
  {
    hide OrdinalInv, LeaseInv, WinnerInv, StopDecision, OutcomesOf, ScoreImproved;
  }

  // ---- Legacy keep and reset ---------------------------------------------------------------------------

  /** A keep-or-reset request that read a decision changes nothing; one that read none, or a pending
      one, drops a kept commit exactly when it asks for a reset and there is one. */
  lemma GitActionKeepsSpineExactly(git: Git, s: State, cid: string, latest: Option<Decision>, reset: bool)
    requires s.commits != [] && Spine(git, s, cid)
    ensures Spine(git, GitAction(s, latest, reset), cid)
      <==> latest == Some(Kept) || latest == Some(Rejected) || !reset || |s.commits| == 1
  {
    hide Trail;
  }

  lemma {:induction false} LatestIs(a: seq<Attempt>, cid: string)
    ensures match LatestDecision(a, cid)
            case None => forall i :: 0 <= i < |a| ==> a[i].campaign != cid
            case Some(d) => exists i :: 0 <= i < |a| && a[i].campaign == cid && a[i].decision == d
  {
    if a != [] && a[|a| - 1].campaign != cid {
      var n := |a| - 1;
      LatestIs(a[..n], cid);
      if LatestDecision(a, cid).Some? {
        var i :| 0 <= i < n && a[..n][i].campaign == cid && a[..n][i].decision == LatestDecision(a, cid).value;
        assert a[i] == a[..n][i];
      } else {
        forall i | 0 <= i < |a| ensures a[i].campaign != cid {
          if i < n { assert a[i] == a[..n][i]; }
        }
      }
    }
  }

  /** When the decision is read while no attempt of the campaign runs and nothing happens in between,
      the request never changes a history of kept attempts. */
  lemma FreshGitActionIsHarmless(git: Git, s: State, cid: string, reset: bool)
    requires Core(s.db) && s.commits != [] && Spine(git, s, cid) && !InFlight(s.db.attempts, cid)
    ensures GitAction(s, LatestDecision(s.db.attempts, cid), reset) == s
  {
    hide OrdinalInv, LeaseInv, WinnerInv, Trail;
    LatestIs(s.db.attempts, cid);
    if LatestDecision(s.db.attempts, cid).None? { NothingKept(s.db.attempts, cid); }
  }
}
