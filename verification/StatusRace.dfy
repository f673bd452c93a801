/** `set_campaign_status` reads the current attempt before its transaction begins, so an attempt may
    start between that check and the update (`campaigns.py`).  What such a late update can and cannot
    break. */
module StatusRace {
  import opened Prelude
  import opened Text
  import opened Scores
  import opened Campaigns
  import opened CampaignInvariants
  import opened CampaignRuns
  import opened CampaignFacts

  /** The update alone, as it lands on whatever the store has become since the check. */
  function LateRestate(db: Db, cid: string, to: CampaignStatus, now: int): Db {
    if to == Running || cid !in db.campaigns then db
    else
      db.(campaigns := db.campaigns[cid := db.campaigns[cid].(
        status := to, updatedAt := now,
        finishedAt := if IsTerminal(to) then Some(now) else None, stopReason := ManualReason(to))])
  }

  /** With nothing in between, check and update are the one step of the atomic model. */
  lemma UndisturbedIsAtomic(db: Db, cid: string, to: CampaignStatus, now: int)
    requires SetStatus(db, cid, to, now).1.Ok?
    ensures SetStatus(db, cid, to, now).0 == LateRestate(db, cid, to, now)
  {
  }

  // ---- What survives ------------------------------------------------------------------------

  datatype RacyEvent = Whole(event: Event) | Late(cid: string, to: CampaignStatus, now: int)

  function ApplyRacy(codec: Codec, db: Db, e: RacyEvent): Db {
    match e
    case Whole(event) => Apply(codec, db, event)
    case Late(cid, to, now) => LateRestate(db, cid, to, now)
  }

  function RunRacy(codec: Codec, events: seq<RacyEvent>): Db {
    if events == [] then EMPTY
    else ApplyRacy(codec, RunRacy(codec, events[..|events| - 1]), events[|events| - 1])
  }

  lemma LateKeepsCore(db: Db, cid: string, to: CampaignStatus, now: int)
    requires Core(db)
    ensures Core(LateRestate(db, cid, to, now))
  {
    hide OneRuns, StatusInv, OrdinalInv, LeaseInv, WinnerInv;
    var after := LateRestate(db, cid, to, now);
    if after != db { Frame(db, after); }
  }

  /** Whatever races happen, at most one attempt runs, ordinals count, leases are consumed once by the
      attempt that follows them, and winners are the fold of the scores. */
  lemma {:induction false} RacyReachableCore(codec: Codec, events: seq<RacyEvent>)
    requires forall e :: e in events && e.Whole? ==> Proper(e.event)
    ensures Core(RunRacy(codec, events))
  {
    hide Core, StatusInv, Proper, Apply, LateRestate;
    if events == [] {
      EmptyInv();
      assert Inv(EMPTY);
    } else {
      var n := |events| - 1;
      assert events[n] in events && forall e :: e in events[..n] ==> e in events;
      RacyReachableCore(codec, events[..n]);
      var before := RunRacy(codec, events[..n]);
      match events[n]
      case Whole(event) => StepPreserves(codec, before, event);
      case Late(cid, to, now) => LateKeepsCore(before, cid, to, now);
    }
  }

  lemma RealStays(codec: Codec, db: Db, e: Event)
    requires OneRuns(db) && RunningIsReal(db)
    ensures RunningIsReal(Apply(codec, db, e))
  {
    hide HistoryOf, Strip, FindLease, ValidPolicy, IsRunId, LacksDescription, StartAttempt, FinishAttempt, Startup,
      Describe;
    match e
    case Start(n, now) => StartIsReal(codec, db, n, now);
    case Finish(id, r, now) => FinishIsReal(db, id, r, now);
    case Annotate(commit, description, now) => DescribeIsReal(db, commit, description, now);
    case Restart(workspaces, now) => RestartIsReal(db, workspaces, now);
    case _ =>
  }

  lemma FinishIsReal(db: Db, id: nat, r: Report, now: int)
    requires OneRuns(db) && RunningIsReal(db)
    ensures RunningIsReal(FinishAttempt(db, id, r, now).0)
  {
    hide StopDecision, OutcomesOf, ScoreImproved;
  }

  lemma DescribeIsReal(db: Db, commit: string, description: string, now: int)
    requires RunningIsReal(db)
    ensures RunningIsReal(Describe(db, commit, description, now))
  {
    hide LacksDescription, Strip;
  }

  lemma RestartIsReal(db: Db, ws: seq<LegacyWorkspace>, now: int)
    ensures RunningIsReal(Startup(db, ws, now))
  {
    hide ImportAll;
  }

  lemma StartIsReal(codec: Codec, db: Db, n: NewAttempt, now: int)
    requires RunningIsReal(db)
    ensures RunningIsReal(StartAttempt(codec, db, n, now).0)
  {
    hide HistoryOf, BoundHypothesis, IsValidProposal;
    if StartAttempt(codec, db, n, now).1.Ok? { NoneIsRunning(db); }
  }

  /** The crash recoveries and reopens of a campaign, and the late updates that declare it active. */
  function RacyInterventions(codec: Codec, events: seq<RacyEvent>, cid: string): nat {
    if events == [] then 0
    else
      var n := |events| - 1;
      var db := RunRacy(codec, events[..n]);
      RacyInterventions(codec, events[..n], cid)
      + if cid in db.campaigns && IntervenesRacy(db.campaigns[cid], events[n], cid) then 1 else 0
  }

  predicate IntervenesRacy(c: Campaign, e: RacyEvent, cid: string) {
    match e
    case Whole(event) => Intervenes(c, event, cid)
    case Late(target, to, _) => target == cid && to == Active
  }

  lemma LateWithin(db: Db, cid: string, to: CampaignStatus, now: int, target: string, x: nat)
    requires cid in db.campaigns && WithinLimit(db, cid, x)
    ensures WithinLimit(LateRestate(db, target, to, now), cid, x + if target == cid && to == Active then 1 else 0)
  {
    hide Entries;
  }

  /** Races included, the attempt limit bounds every run. */
  lemma {:induction false} RacyAttemptsAreBounded(codec: Codec, events: seq<RacyEvent>, cid: string)
    requires forall e :: e in events && e.Whole? ==>
      Proper(e.event) && (e.event.Restart? ==> forall w :: w in e.event.workspaces ==> w.cid != cid)
    ensures RunningIsReal(RunRacy(codec, events))
    ensures cid in RunRacy(codec, events).campaigns ==>
      WithinLimit(RunRacy(codec, events), cid, RacyInterventions(codec, events, cid))
  {
    hide OneRuns, OrdinalInv, LeaseInv, WinnerInv, RunningIsReal, WithinLimit, Proper, Apply, Intervenes, LateRestate;
    if events == [] {
      assert RunningIsReal(EMPTY) by { NothingIsReal(); }
    } else {
      var n := |events| - 1;
      assert events[n] in events && forall e :: e in events[..n] ==> e in events;
      var before, x := RunRacy(codec, events[..n]), RacyInterventions(codec, events[..n], cid);
      RacyAttemptsAreBounded(codec, events[..n], cid);
      RacyReachableCore(codec, events[..n]);
      match events[n]
      case Whole(event) =>
        RealStays(codec, before, event);
        if cid in Apply(codec, before, event).campaigns { StepWithin(codec, before, event, cid, x); }
      case Late(target, to, now) =>
        LateIsReal(before, target, to, now);
        if cid in before.campaigns { LateWithin(before, cid, to, now, target, x); }
    }
  }

  lemma NothingIsReal()
    ensures RunningIsReal(EMPTY)
  {
  }

  lemma LateIsReal(db: Db, cid: string, to: CampaignStatus, now: int)
    requires RunningIsReal(db)
    ensures RunningIsReal(LateRestate(db, cid, to, now))
    ensures LateRestate(db, cid, to, now).campaigns.Keys == db.campaigns.Keys
  {
  }

  // ---- What breaks --------------------------------------------------------------------------

  /** The update leaves a sound store exactly when no attempt of the campaign is running as it lands. */
  lemma LateIsSoundExactly(db: Db, cid: string, to: CampaignStatus, now: int)
    requires Inv(db) && cid in db.campaigns && to != Running
    ensures Inv(LateRestate(db, cid, to, now)) <==> db.campaigns[cid].current.None?
  {
    hide Core;
    if db.campaigns[cid].current.Some? {
      LateMismatch(db, cid, to, now);
    } else {
      UndisturbedIsAtomic(db, cid, to, now);
      hide LateRestate, SetStatus, StatusInv;
      RestatePreserves(db, cid, to, now);
    }
  }

  lemma LateMismatch(db: Db, cid: string, to: CampaignStatus, now: int)
    requires cid in db.campaigns && to != Running && db.campaigns[cid].current.Some?
    ensures !StatusInv(LateRestate(db, cid, to, now))
  {
    var after := LateRestate(db, cid, to, now);
    assert after.campaigns[cid].status != Running && after.campaigns[cid].current.Some?;
  }

  /** Finishing the running attempt erases every trace of the late update: the status the user asked
      for is lost. */
  lemma FinishErasesLate(db: Db, cid: string, to: CampaignStatus, now: int, id: nat, r: Report, later: int)
    requires Inv(db) && cid in db.campaigns && db.campaigns[cid].current == Some(id)
    ensures FinishAttempt(LateRestate(db, cid, to, now), id, r, later) == FinishAttempt(db, id, r, later)
    ensures FinishAttempt(db, id, r, later).1.Ok?
  {
    hide Core, OutcomesOf, StopDecision, ScoreImproved;
    var a, b := FinishAttempt(LateRestate(db, cid, to, now), id, r, later), FinishAttempt(db, id, r, later);
    assert a.0.campaigns == b.0.campaigns;
  }

  /** A campaign that names an attempt although none of its attempts is running, and is closed. */
  ghost predicate Stuck(db: Db, cid: string) {
    && cid in db.campaigns && db.campaigns[cid].current.Some? && IsTerminal(db.campaigns[cid].status)
    && forall i :: 0 <= i < |db.attempts| && db.attempts[i].campaign == cid ==> db.attempts[i].status != "running"
  }

  /** A crash before the attempt finishes leaves the campaign stuck exactly when the late status was
      terminal: recovery releases only campaigns whose status is still running. */
  lemma CrashSticksExactly(db: Db, cid: string, to: CampaignStatus, now: int, later: int)
    requires Inv(db) && cid in db.campaigns && db.campaigns[cid].current.Some?
    ensures Stuck(Recover(LateRestate(db, cid, to, now), later), cid) <==> IsTerminal(to)
  {
    hide Core;
  }

  /** A stuck campaign refuses every attempt and every change of status. */
  lemma StuckRefuses(codec: Codec, db: Db, n: NewAttempt, cid: string, to: CampaignStatus, now: int)
    requires Stuck(db, cid) && n.cid == cid
    ensures StartAttempt(codec, db, n, now) == (db, StartAttempt(codec, db, n, now).1)
    ensures StartAttempt(codec, db, n, now).1.Err?
    ensures SetStatus(db, cid, to, now) == (db, Err(if to == Running then BadValue else Busy))
  {
    hide HistoryOf, BoundHypothesis, IsValidProposal;
  }

  lemma StuckStays(codec: Codec, db: Db, cid: string, e: Event)
    requires Stuck(db, cid)
    ensures Stuck(Apply(codec, db, e), cid)
  {
    hide HistoryOf, BoundHypothesis, Strip, StopDecision, OutcomesOf, FindLease, ScoreImproved, ValidPolicy, IsRunId,
      Normalize, IsValidProposal, ImportWorkspace;
    match e
    case Restart(workspaces, now) => StuckImport(db, cid, workspaces);
    case _ =>
  }

  lemma {:induction false} StuckImport(db: Db, cid: string, ws: seq<LegacyWorkspace>)
    requires Stuck(db, cid)
    ensures Stuck(ImportAll(db, ws), cid)
  {
    hide BestOf, LastWin, LegacyScores, LegacyAttempt, Stuck;
    if ws != [] {
      var before, w := ImportAll(db, ws[..|ws| - 1]), ws[|ws| - 1];
      StuckImport(db, cid, ws[..|ws| - 1]);
      StuckImportOne(before, cid, w);
    }
  }

  lemma StuckImportOne(db: Db, cid: string, w: LegacyWorkspace)
    requires Stuck(db, cid)
    ensures Stuck(ImportWorkspace(db, w), cid)
  {
    hide BestOf, LastWin, LegacyScores, WonAt;
  }

  function RunFrom(codec: Codec, db: Db, events: seq<Event>): Db {
    if events == [] then db
    else Apply(codec, RunFrom(codec, db, events[..|events| - 1]), events[|events| - 1])
  }

  /** Nothing the store offers ever frees it, restarts included. */
  lemma {:induction false} StuckForever(codec: Codec, db: Db, cid: string, events: seq<Event>)
    requires Stuck(db, cid)
    ensures Stuck(RunFrom(codec, db, events), cid)
  {
    hide Stuck, Apply;
    if events != [] {
      var n := |events| - 1;
      StuckForever(codec, db, cid, events[..n]);
      StuckStays(codec, RunFrom(codec, db, events[..n]), cid, events[n]);
    }
  }
}
