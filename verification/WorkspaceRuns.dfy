/** Whole runs of one workspace beside its store, reset requests, failures and crashes included. */
module WorkspaceRuns {
  import opened Prelude
  import opened Text
  import opened Scores
  import opened Campaigns
  import opened CampaignInvariants
  import opened CampaignRuns
  import opened StatusRace
  import opened Workspace
  import opened WorkspaceFacts
  import L = Ledger

  /** The attempt that holds the workspace lock. */
  datatype Flight = Flight(id: nat, attempt: NewAttempt, conditions: Conditions)

  /** A keep-or-reset request that has read the newest decision and not taken the lock yet. */
  datatype Asked = Asked(latest: Option<Decision>, reset: bool)

  datatype World = World(state: State, flight: Option<Flight>, asked: map<nat, Asked>)

  /** An attempt begins with the tree check and the start, and ends with everything after it; the two
      halves of a keep-or-reset request may fall anywhere. */
  datatype Move =
    | Begin(attempt: NewAttempt, conditions: Conditions)
    | End
    | Ask(request: nat, reset: bool)
    | Act(request: nat)
    | Note(row: L.Row, written: bool, now: int)
    | Write(path: string, content: string)
    | Other(event: RacyEvent)
    | Crash(at: CrashPoint, now: int, restored: bool)

  function Begun(git: Git, codec: Codec, w: World, n: NewAttempt, c: Conditions): World {
    if w.flight.Some? || git.treeId(w.state.working) != n.tree || !c.confined then w
    else
      var (db, started) := StartAttempt(codec, w.state.db, n, c.now);
      if started.Err? then w
      else
        w.(state := w.state.(db := db),
           flight := if c.startRefreshed then Some(Flight(started.value, n, c)) else None)
  }

  function Moved(git: Git, codec: Codec, w: World, cid: string, m: Move): (r: World)
    requires w.state.commits != []
    ensures r.state.commits != []
  {
    var s := w.state;
    match m
    case Begin(n, c) => Begun(git, codec, w, n, c)
    case End =>
      (match w.flight
       case None => w
       case Some(f) => w.(state := Execute(git, s, f.id, f.attempt, f.conditions).0, flight := None))
    case Ask(request, reset) => w.(asked := w.asked[request := Asked(LatestDecision(s.db.attempts, cid), reset)])
    case Act(request) =>
      if request !in w.asked then w
      else
        var a, answered := w.asked[request], w.(asked := w.asked - {request});
        if w.flight.Some? then answered else answered.(state := GitAction(s, a.latest, a.reset))
    case Note(row, written, now) => if w.flight.Some? then w else w.(state := AppendLedger(s, row, written, now))
    case Write(path, content) =>
      if w.flight.Some? then w
      else w.(state := s.(working := s.working.(files := s.working.files[path := content])))
    case Other(e) => w.(state := s.(db := ApplyRacy(codec, s.db, e)))
    case Crash(at, now, restored) =>
      var left := match w.flight
                  case None => s
                  case Some(f) => CrashedAt(git, s, f.id, f.attempt, f.conditions, at);
      World(Restarted(left, cid, now, restored), None, map[])
  }

  function Play(git: Git, codec: Codec, start: World, cid: string, moves: seq<Move>): (r: World)
    requires start.state.commits != []
    ensures r.state.commits != []
  {
    if moves == [] then start
    else Moved(git, codec, Play(git, codec, start, cid, moves[..|moves| - 1]), cid, moves[|moves| - 1])
  }

  /** The two halves of an attempt with nothing in between are the whole of it. */
  lemma BeginEndIsRun(git: Git, codec: Codec, w: World, cid: string, n: NewAttempt, c: Conditions)
    requires w.state.commits != [] && w.flight.None?
    ensures var ended := Moved(git, codec, Moved(git, codec, w, cid, Begin(n, c)), cid, End);
      ended.state == RunAttempt(git, codec, w.state, n, c).0 && ended.flight.None?
  {
    hide StartAttempt, Execute;
    if StartAttempt(codec, w.state.db, n, c.now).1.Err? { RefusedStart(codec, w.state.db, n, c.now); }
  }

  /** An operation that neither restarts the engine nor starts or finishes an attempt of the campaign; late
      status updates may land at any moment. */
  ghost predicate Elsewhere(db: Db, e: RacyEvent, cid: string) {
    match e
    case Late(_, _, _) => true
    case Whole(event) =>
      && Proper(event) && !event.Restart? && (event.Start? ==> event.attempt.cid != cid)
      && (event.Finish? && event.id < |db.attempts| ==> db.attempts[event.id].campaign != cid)
  }

  /** Only the runner starts and finishes this campaign's attempts, and an engine restarts by crashing or
      not at all; a crash after the commit needs a commit. */
  ghost predicate Feasible(w: World, cid: string, m: Move) {
    match m
    case Begin(n, _) => n.cid == cid
    case Other(e) => Elsewhere(w.state.db, e, cid)
    case Crash(at, _, _) => w.flight.Some? ==> at.BeforeCommit? || w.flight.value.conditions.committed
    case _ => true
  }

  ghost predicate FeasibleRun(git: Git, codec: Codec, start: World, cid: string, moves: seq<Move>)
    requires start.state.commits != []
  {
    forall k :: 0 <= k < |moves| ==> Feasible(Play(git, codec, start, cid, moves[..k]), cid, moves[k])
  }

  /** The move does not touch the history of kept attempts: an attempt that ends does not strand its
      commit; a reset does not act on a decision that was not final while there is a commit to drop; and
      the recovery from a crash finds a commit to take away exactly when it takes one away. */
  predicate Harmless(git: Git, w: World, cid: string, m: Move) {
    match m
    case End => w.flight.Some? ==> !Strands(git, w.state, w.flight.value.attempt, w.flight.value.conditions)
    case Act(request) =>
      w.flight.None? && request in w.asked && w.asked[request].reset ==>
        w.asked[request].latest == Some(Kept) || w.asked[request].latest == Some(Rejected) || |w.state.commits| == 1
    case Crash(at, _, restored) =>
      (match w.flight
       case None => !InFlight(w.state.db.attempts, cid) || !restored || |w.state.commits| == 1
       case Some(f) =>
         match at
         case BeforeCommit => !restored || |w.state.commits| == 1
         case BeforeFinish => restored
         case BeforeReset =>
           w.state.commits == []
           || if Reported(git, w.state, f.attempt, f.conditions).None? then restored
              else Prevails(git, w.state, f.attempt, f.conditions))
    case _ => true
  }

  ghost predicate HarmlessRun(git: Git, codec: Codec, start: World, cid: string, moves: seq<Move>)
    requires start.state.commits != []
  {
    forall k :: 0 <= k < |moves| ==> Harmless(git, Play(git, codec, start, cid, moves[..k]), cid, moves[k])
  }

  /** The store is sound and runs the attempt in flight. */
  ghost predicate Sound(w: World, cid: string) {
    && Core(w.state.db) && cid in w.state.db.campaigns && w.state.commits != []
    && (w.flight.Some? ==> w.flight.value.attempt.cid == cid && Engaged(w.state, w.flight.value.id, w.flight.value.attempt))
  }

  /** A workspace that was just made is where such runs begin. */
  lemma InitialIsSound(git: Git, db: Db, n: NewCampaign, now: int, initial: Commit)
    requires Core(db) && n.cid !in db.campaigns && CreateCampaign(db, n, now).1.Ok?
    ensures var s := State(CreateCampaign(db, n, now).0, [initial], initial.tree);
      Sound(World(s, None, map[]), n.cid) && Spine(git, s, n.cid)
  {
    hide StatusInv, OrdinalInv, LeaseInv, WinnerInv, Strip, IsRunId, ValidPolicy;
    CreatePreserves(db, n, now);
    NothingKept(db.attempts, n.cid);
  }

  // ---- The store keeps its invariants --------------------------------------------------------------------

  lemma SettleKeepsCore(s: State, id: nat, report: Report, created: bool, c: Conditions)
    requires Core(s.db) && report.status != "running"
    ensures var after := Settle(s, id, report, created, c).0;
      Core(after.db) && after.db.campaigns.Keys == s.db.campaigns.Keys && after.working.ledger == s.working.ledger
  {
    hide Core, StatusInv;
    FinishPreserves(s.db, id, report, c.now);
    if FinishAttempt(s.db, id, report, c.now).1.Ok? { FinishRow(s.db, id, report, c.now); }
    hide FinishAttempt;
  }

  lemma AppendKeepsCore(s: State, row: L.Row, written: bool, now: int)
    requires Core(s.db)
    ensures var after := AppendLedger(s, row, written, now);
      Core(after.db) && after.db.campaigns.Keys == s.db.campaigns.Keys
  {
    hide Core, StatusInv, Describe, L.Append;
    DescribePreserves(s.db, row.commit, row.description, now);
    DescribeKeepsKeys(s.db, row.commit, row.description, now);
  }

  lemma DescribeKeepsKeys(db: Db, commit: string, description: string, now: int)
    ensures Describe(db, commit, description, now).campaigns.Keys == db.campaigns.Keys
  {
    hide Strip, LacksDescription;
  }

  lemma ExecuteKeepsCore(git: Git, s: State, id: nat, n: NewAttempt, c: Conditions)
    requires Core(s.db) && s.commits != []
    ensures var after := Execute(git, s, id, n, c).0;
      Core(after.db) && after.db.campaigns.Keys == s.db.campaigns.Keys
  {
    hide Core, StatusInv, Settle, AppendLedger;
    var raced := s.(working := c.race);
    var made := CommitWorking(git, raced, c.now);
    var ran, commit := made.(working := c.meanwhile), Head(made).id;
    SettleKeepsCore(raced, id, CrashReport(c, ""), false, c);
    SettleKeepsCore(made, id, CrashReport(c, commit), true, c);
    SettleKeepsCore(ran, id, CrashReport(c, commit), true, c);
    SettleKeepsCore(ran, id, RunReport(c, commit), true, c);
    var settled := Settle(ran, id, RunReport(c, commit), true, c).0;
    if id < |settled.db.attempts| {
      AppendKeepsCore(settled, RunRow(c, n, commit, settled.db.attempts[id].decision), c.appended, c.now);
    }
  }

  lemma RestartKeepsCore(s: State, cid: string, now: int, restored: bool)
    requires Core(s.db) && s.commits != []
    ensures var after := Restarted(s, cid, now, restored).db;
      Core(after) && after.campaigns.Keys == s.db.campaigns.Keys
  {
    CoreIsDormant(s.db);
    hide OneRuns, OrdinalInv, LeaseInv, WinnerInv, DormantInv, StatusInv, Reset;
    RecoverEstablishes(s.db, now);
  }

  lemma CrashKeepsCore(git: Git, s: State, id: nat, n: NewAttempt, c: Conditions, at: CrashPoint)
    requires Core(s.db) && s.commits != []
    ensures var after := CrashedAt(git, s, id, n, c, at);
      Core(after.db) && after.db.campaigns.Keys == s.db.campaigns.Keys && after.commits != []
  {
    hide Core, StatusInv;
    if Reported(git, s, n, c).Some? {
      var report := Reported(git, s, n, c).value;
      FinishPreserves(s.db, id, report, c.now);
      if FinishAttempt(s.db, id, report, c.now).1.Ok? { FinishRow(s.db, id, report, c.now); }
      hide FinishAttempt;
    }
  }

  lemma BeginKeepsSound(git: Git, codec: Codec, w: World, cid: string, n: NewAttempt, c: Conditions)
    requires Sound(w, cid) && n.cid == cid
    ensures Sound(Begun(git, codec, w, n, c), cid)
  {
    hide Core, StatusInv, StartAttempt;
    StartPreserves(codec, w.state.db, n, c.now);
    if StartAttempt(codec, w.state.db, n, c.now).1.Ok? { StartedRow(codec, w.state.db, n, c.now); }
  }

  /** Other operations of the store leave the campaign's kept attempts and the attempt in flight alone. */
  lemma OtherKeeps(codec: Codec, s: State, e: RacyEvent, cid: string)
    requires Core(s.db) && Elsewhere(s.db, e, cid)
    ensures var after := ApplyRacy(codec, s.db, e);
      && Core(after) && Trail(after.attempts, cid) == Trail(s.db.attempts, cid)
      && s.db.campaigns.Keys <= after.campaigns.Keys
      && forall id, n :: Engaged(s, id, n) && n.cid == cid ==> Engaged(s.(db := after), id, n)
  {
    hide Core, StatusInv, Trail, Proper, Apply, Engaged;
    match e
    case Whole(event) =>
      StepPreserves(codec, s.db, event);
      WholeKeeps(codec, s, event, cid);
    case Late(target, to, now) =>
      LateKeepsCore(s.db, target, to, now);
      LateKeepsEngaged(s, target, to, now);
  }

  lemma LateKeepsEngaged(s: State, cid: string, to: CampaignStatus, now: int)
    ensures var after := LateRestate(s.db, cid, to, now);
      && after.attempts == s.db.attempts && after.campaigns.Keys == s.db.campaigns.Keys
      && forall id, n :: Engaged(s, id, n) ==> Engaged(s.(db := after), id, n)
  {
  }

  lemma WholeKeeps(codec: Codec, s: State, e: Event, cid: string)
    requires Core(s.db) && Proper(e) && !e.Restart? && (e.Start? ==> e.attempt.cid != cid)
    requires e.Finish? && e.id < |s.db.attempts| ==> s.db.attempts[e.id].campaign != cid
    ensures Trail(Apply(codec, s.db, e).attempts, cid) == Trail(s.db.attempts, cid)
    ensures s.db.campaigns.Keys <= Apply(codec, s.db, e).campaigns.Keys
    ensures forall id, n :: Engaged(s, id, n) && n.cid == cid ==> Engaged(s.(db := Apply(codec, s.db, e)), id, n)
  {
    hide Core, Trail, Strip, IsRunId, ValidPolicy, FindLease, HistoryOf, StartAttempt, FinishAttempt, Describe, Proper;
    match e
    case Start(n, now) =>
      StartKeepsTrail(codec, s.db, n, now, cid);
      OtherStart(codec, s, n, now);
    case Finish(id, r, now) => OtherFinish(s, id, r, now, cid);
    case Annotate(commit, description, now) =>
      DescribeKeepsTrail(s.db, commit, description, now, cid);
      DescribeKeepsRows(s.db, commit, description, now);
    case _ =>
  }

  lemma DescribeKeepsRows(db: Db, commit: string, description: string, now: int)
    ensures var after := Describe(db, commit, description, now);
      && after.campaigns.Keys == db.campaigns.Keys && |after.attempts| == |db.attempts|
      && forall i :: 0 <= i < |db.attempts| ==>
           after.attempts[i].status == db.attempts[i].status && after.attempts[i].campaign == db.attempts[i].campaign
           && after.attempts[i].tree == db.attempts[i].tree
  {
    hide Strip, LacksDescription;
  }

  lemma OtherStart(codec: Codec, s: State, n: NewAttempt, now: int)
    ensures var after := StartAttempt(codec, s.db, n, now).0;
      && after.campaigns.Keys == s.db.campaigns.Keys
      && forall id, a :: Engaged(s, id, a) ==> Engaged(s.(db := after), id, a)
  {
    if StartAttempt(codec, s.db, n, now).1.Err? {
      RefusedStart(codec, s.db, n, now);
    } else {
      StartedRow(codec, s.db, n, now);
      hide StartAttempt;
      forall id, a ensures !Engaged(s, id, a) {}
    }
  }

  lemma OtherFinish(s: State, id: nat, r: Report, now: int, cid: string)
    requires Core(s.db) && (id < |s.db.attempts| ==> s.db.attempts[id].campaign != cid)
    ensures var after := FinishAttempt(s.db, id, r, now).0;
      && Trail(after.attempts, cid) == Trail(s.db.attempts, cid) && after.campaigns.Keys == s.db.campaigns.Keys
      && forall k, a :: Engaged(s, k, a) && a.cid == cid ==> Engaged(s.(db := after), k, a)
  {
    hide Core, Trail;
    if FinishAttempt(s.db, id, r, now).1.Ok? {
      FinishRow(s.db, id, r, now);
      FinishExtendsTrail(s.db, id, r, now, cid);
      hide FinishAttempt;
    } else {
      RefusedFinish(s.db, id, r, now);
    }
  }

  lemma RefusedFinish(db: Db, id: nat, r: Report, now: int)
    requires FinishAttempt(db, id, r, now).1.Err?
    ensures FinishAttempt(db, id, r, now).0 == db
  {
    hide StopDecision, OutcomesOf, ScoreImproved;
  }

  lemma MoveKeepsSound(git: Git, codec: Codec, w: World, cid: string, m: Move)
    requires Sound(w, cid) && Feasible(w, cid, m)
    ensures Sound(Moved(git, codec, w, cid, m), cid)
  {
    hide Core, StatusInv, Begun, Execute, AppendLedger, ApplyRacy, Restarted, CrashedAt, GitAction, LatestDecision,
      Engaged, Elsewhere;
    match m
    case Begin(n, c) => BeginKeepsSound(git, codec, w, cid, n, c);
    case End =>
      if w.flight.Some? {
        var f := w.flight.value;
        ExecuteKeepsCore(git, w.state, f.id, f.attempt, f.conditions);
      }
    case Act(request) =>
      if request in w.asked { GitActionKeepsStore(w.state, w.asked[request].latest, w.asked[request].reset); }
    case Note(row, written, now) => AppendKeepsCore(w.state, row, written, now);
    case Write(path, content) =>
    case Other(e) =>
      OtherKeeps(codec, w.state, e, cid);
    case Crash(at, now, restored) =>
      if w.flight.Some? {
        var f := w.flight.value;
        CrashKeepsCore(git, w.state, f.id, f.attempt, f.conditions, at);
        RestartKeepsCore(CrashedAt(git, w.state, f.id, f.attempt, f.conditions, at), cid, now, restored);
      } else {
        RestartKeepsCore(w.state, cid, now, restored);
      }
    case Ask(request, reset) =>
  }

  lemma GitActionKeepsStore(s: State, latest: Option<Decision>, reset: bool)
    ensures GitAction(s, latest, reset).db == s.db
  {
  }

  // ---- The history of kept attempts -----------------------------------------------------------------------

  /** One move keeps the history of kept attempts if and only if it is harmless. */
  lemma MoveKeepsSpineExactly(git: Git, codec: Codec, w: World, cid: string, m: Move)
    requires Sound(w, cid) && Feasible(w, cid, m) && Spine(git, w.state, cid)
    ensures Spine(git, Moved(git, codec, w, cid, m).state, cid) <==> Harmless(git, w, cid, m)
  {
    hide Core, StatusInv, Spine, Trail, Execute, StartAttempt, ApplyRacy, Restarted, CrashedAt, GitAction, LatestDecision,
      Engaged, Elsewhere, Strands, Reported, Prevails, Describe, L.Append;
    match m
    case Begin(n, c) => BeginKeepsSpine(git, codec, w, cid, n, c);
    case End =>
      if w.flight.Some? {
        var f := w.flight.value;
        ExecuteSpine(git, w.state, f.id, f.attempt, f.conditions);
      }
    case Act(request) =>
      if request in w.asked && w.flight.None? {
        var a := w.asked[request];
        GitActionKeepsSpineExactly(git, w.state, cid, a.latest, a.reset);
      }
    case Note(row, written, now) =>
      DescribeKeepsTrail(w.state.db, row.commit, row.description, now, cid);
      SpineIgnoresWorking(git, w.state, AppendLedger(w.state, row, written, now), cid);
    case Write(path, content) => SpineIgnoresWorking(git, w.state, Moved(git, codec, w, cid, m).state, cid);
    case Other(e) =>
      OtherKeeps(codec, w.state, e, cid);
      SpineIgnoresWorking(git, w.state, Moved(git, codec, w, cid, m).state, cid);
    case Crash(at, now, restored) =>
      if w.flight.Some? {
        var f := w.flight.value;
        CrashKeepsSpineExactly(git, w.state, f.id, f.attempt, f.conditions, at, now, restored);
      } else {
        RestartKeepsSpineExactly(git, w.state, cid, now, restored);
      }
    case Ask(request, reset) =>
  }

  lemma BeginKeepsSpine(git: Git, codec: Codec, w: World, cid: string, n: NewAttempt, c: Conditions)
    requires Spine(git, w.state, cid)
    ensures Spine(git, Begun(git, codec, w, n, c).state, cid)
  {
    hide StartAttempt, Trail, Spine;
    StartKeepsTrail(codec, w.state.db, n, c.now, cid);
    SpineIgnoresWorking(git, w.state, w.state.(db := StartAttempt(codec, w.state.db, n, c.now).0), cid);
  }

  lemma {:induction false} PlayKeepsSound(git: Git, codec: Codec, start: World, cid: string, moves: seq<Move>)
    requires start.state.commits != [] && Sound(start, cid) && FeasibleRun(git, codec, start, cid, moves)
    ensures Sound(Play(git, codec, start, cid, moves), cid)
  {
    hide Sound, Feasible, Moved;
    if moves != [] {
      var n := |moves| - 1;
      FeasiblePrefix(git, codec, start, cid, moves, n);
      PlayKeepsSound(git, codec, start, cid, moves[..n]);
      MoveKeepsSound(git, codec, Play(git, codec, start, cid, moves[..n]), cid, moves[n]);
    }
  }

  lemma FeasiblePrefix(git: Git, codec: Codec, start: World, cid: string, moves: seq<Move>, n: nat)
    requires start.state.commits != [] && FeasibleRun(git, codec, start, cid, moves) && n <= |moves|
    ensures FeasibleRun(git, codec, start, cid, moves[..n])
  {
    hide Feasible, Play;
    forall k | 0 <= k < n ensures Feasible(Play(git, codec, start, cid, moves[..n][..k]), cid, moves[..n][k]) {
      assert moves[..n][..k] == moves[..k];
    }
  }

  lemma HarmlessPrefix(git: Git, codec: Codec, start: World, cid: string, moves: seq<Move>, n: nat)
    requires start.state.commits != [] && HarmlessRun(git, codec, start, cid, moves) && n <= |moves|
    ensures HarmlessRun(git, codec, start, cid, moves[..n])
  {
    hide Harmless, Play;
    forall k | 0 <= k < n ensures Harmless(git, Play(git, codec, start, cid, moves[..n][..k]), cid, moves[..n][k]) {
      assert moves[..n][..k] == moves[..k];
    }
  }

  /** After a harmless run the history is the initial commit and exactly the kept attempts. */
  lemma {:induction false} HarmlessKeepsSpine(git: Git, codec: Codec, start: World, cid: string, moves: seq<Move>)
    requires start.state.commits != [] && Sound(start, cid) && Spine(git, start.state, cid)
    requires FeasibleRun(git, codec, start, cid, moves) && HarmlessRun(git, codec, start, cid, moves)
    ensures Spine(git, Play(git, codec, start, cid, moves).state, cid)
  {
    hide Sound, Spine, Feasible, Harmless, Moved;
    if moves != [] {
      var n := |moves| - 1;
      FeasiblePrefix(git, codec, start, cid, moves, n);
      HarmlessPrefix(git, codec, start, cid, moves, n);
      HarmlessKeepsSpine(git, codec, start, cid, moves[..n]);
      PlayKeepsSound(git, codec, start, cid, moves[..n]);
      MoveKeepsSpineExactly(git, codec, Play(git, codec, start, cid, moves[..n]), cid, moves[n]);
    }
  }

  /** The history of kept attempts survives a run, at every moment of it, if and only if every move of
      the run is harmless. */
  lemma SpineThroughoutExactly(git: Git, codec: Codec, start: World, cid: string, moves: seq<Move>)
    requires start.state.commits != [] && Sound(start, cid) && Spine(git, start.state, cid)
    requires FeasibleRun(git, codec, start, cid, moves)
    ensures (forall k :: 0 <= k <= |moves| ==> Spine(git, Play(git, codec, start, cid, moves[..k]).state, cid))
      <==> HarmlessRun(git, codec, start, cid, moves)
  {
    hide Sound, Spine, Feasible, Harmless, Moved, Play;
    if HarmlessRun(git, codec, start, cid, moves) {
      forall k | 0 <= k <= |moves| ensures Spine(git, Play(git, codec, start, cid, moves[..k]).state, cid) {
        FeasiblePrefix(git, codec, start, cid, moves, k);
        HarmlessPrefix(git, codec, start, cid, moves, k);
        HarmlessKeepsSpine(git, codec, start, cid, moves[..k]);
      }
    }
    if forall k :: 0 <= k <= |moves| ==> Spine(git, Play(git, codec, start, cid, moves[..k]).state, cid) {
      forall k | 0 <= k < |moves| ensures Harmless(git, Play(git, codec, start, cid, moves[..k]), cid, moves[k]) {
        FeasiblePrefix(git, codec, start, cid, moves, k);
        PlayKeepsSound(git, codec, start, cid, moves[..k]);
        MoveKeepsSpineExactly(git, codec, Play(git, codec, start, cid, moves[..k]), cid, moves[k]);
        PlayNext(git, codec, start, cid, moves, k);
      }
    }
  }

  lemma PlayNext(git: Git, codec: Codec, start: World, cid: string, moves: seq<Move>, k: nat)
    requires start.state.commits != [] && k < |moves|
    ensures Play(git, codec, start, cid, moves[..k + 1])
         == Moved(git, codec, Play(git, codec, start, cid, moves[..k]), cid, moves[k])
    ensures moves[..k + 1] <= moves
  {
    hide Moved;
    assert moves[..k + 1][..k] == moves[..k];
  }

  /** After every harmless run HEAD is the winner's commit with the winner's approved tree, or the
      initial commit when nothing was kept. */
  lemma WorkspaceAgrees(git: Git, codec: Codec, start: World, cid: string, moves: seq<Move>)
    requires start.state.commits != [] && Sound(start, cid) && Spine(git, start.state, cid)
    requires FeasibleRun(git, codec, start, cid, moves) && HarmlessRun(git, codec, start, cid, moves)
    ensures HeadIsWinner(git, Play(git, codec, start, cid, moves).state, cid)
  {
    hide FeasibleRun, HarmlessRun, Play, Core, Spine, HeadIsWinner, Engaged;
    PlayKeepsSound(git, codec, start, cid, moves);
    HarmlessKeepsSpine(git, codec, start, cid, moves);
    SpineMeansHeadIsWinner(git, Play(git, codec, start, cid, moves).state, cid);
  }

  // ---- The ledger --------------------------------------------------------------------------------------------

  /** Git's commit names are never empty and hold no tab or line feed. */
  ghost predicate RealGit(git: Git) {
    forall parent, tree, now :: git.commitId(parent, tree, now) != "" && L.Clean(git.commitId(parent, tree, now))
  }

  /** Other writers leave the ledger alone while an attempt runs, and rows name clean commits. */
  ghost predicate Tidy(w: World, m: Move) {
    match m
    case End => w.flight.Some? ==> SameLedger(w.state, w.flight.value.conditions)
    case Crash(_, _, _) => w.flight.Some? ==> SameLedger(w.state, w.flight.value.conditions)
    case Note(row, _, _) => L.Clean(row.commit)
    case _ => true
  }

  ghost predicate SameLedger(s: State, c: Conditions) {
    c.race.ledger == s.working.ledger && c.meanwhile.ledger == s.working.ledger
  }

  ghost predicate TidyRun(git: Git, codec: Codec, start: World, cid: string, moves: seq<Move>)
    requires start.state.commits != []
  {
    forall k :: 0 <= k < |moves| ==> Tidy(Play(git, codec, start, cid, moves[..k]), moves[k])
  }

  /** The ledger an attempt leaves: as the others left it, or with the attempt's row. */
  lemma ExecuteLedger(git: Git, s: State, id: nat, n: NewAttempt, c: Conditions)
    requires s.commits != [] && SameLedger(s, c)
    ensures var after := Execute(git, s, id, n, c).0;
      || after.working.ledger == s.working.ledger
      || exists row: L.Row :: row.commit == git.commitId(Head(s).id, c.race, c.now)
           && after.working.ledger == Some(L.Append(Rows(s.working), row))
  {
    hide FinishAttempt, Describe, L.Append;
    var after := Execute(git, s, id, n, c).0;
    if after.working.ledger != s.working.ledger {
      var made := CommitWorking(git, s.(working := c.race), c.now);
      var settled := Settle(made.(working := c.meanwhile), id, RunReport(c, Head(made).id), true, c).0;
      var row := RunRow(c, n, Head(made).id, settled.db.attempts[id].decision);
      assert row.commit == git.commitId(Head(s).id, c.race, c.now);
      assert after.working.ledger == Some(L.Append(Rows(s.working), row));
    }
  }

  lemma CommitIdIsClean(git: Git, parent: string, tree: Tree, now: int)
    requires RealGit(git)
    ensures L.Clean(git.commitId(parent, tree, now))
  {
    hide L.Clean;
  }

  lemma EndGrowsLedger(git: Git, s: State, id: nat, n: NewAttempt, c: Conditions)
    requires RealGit(git) && s.commits != [] && SameLedger(s, c) && L.AtMostOne(Rows(s.working))
    ensures var after := Execute(git, s, id, n, c).0;
      L.AtMostOne(Rows(after.working)) && Rows(s.working) <= Rows(after.working)
  {
    hide Execute, L.Append, L.AtMostOne, L.Clean;
    ExecuteLedger(git, s, id, n, c);
    var after := Execute(git, s, id, n, c).0;
    if after.working.ledger != s.working.ledger {
      var row: L.Row :| row.commit == git.commitId(Head(s).id, c.race, c.now)
        && after.working.ledger == Some(L.Append(Rows(s.working), row));
      CommitIdIsClean(git, Head(s).id, c.race, c.now);
      L.AppendKeepsAtMostOne(Rows(s.working), row);
    }
  }

  lemma CrashKeepsLedger(git: Git, s: State, id: nat, n: NewAttempt, c: Conditions, at: CrashPoint)
    requires s.commits != [] && SameLedger(s, c)
    ensures CrashedAt(git, s, id, n, c, at).working.ledger == s.working.ledger
    ensures CrashedAt(git, s, id, n, c, at).commits != []
  {
    hide FinishAttempt;
  }

  lemma RestartKeepsLedger(s: State, cid: string, now: int, restored: bool)
    ensures Restarted(s, cid, now, restored).working.ledger == s.working.ledger
  {
  }

  lemma MoveGrowsLedger(git: Git, codec: Codec, w: World, cid: string, m: Move)
    requires RealGit(git) && w.state.commits != [] && Tidy(w, m) && L.AtMostOne(Rows(w.state.working))
    ensures var after := Moved(git, codec, w, cid, m);
      L.AtMostOne(Rows(after.state.working)) && Rows(w.state.working) <= Rows(after.state.working)
  {
    hide RealGit, Execute, StartAttempt, Describe, ApplyRacy, Restarted, CrashedAt, LatestDecision, SameLedger, L.Append,
      L.AtMostOne, L.Clean;
    match m
    case End =>
      if w.flight.Some? {
        var f := w.flight.value;
        EndGrowsLedger(git, w.state, f.id, f.attempt, f.conditions);
      }
    case Note(row, written, now) => L.AppendKeepsAtMostOne(Rows(w.state.working), row);
    case Crash(at, now, restored) =>
      if w.flight.Some? {
        var f := w.flight.value;
        CrashKeepsLedger(git, w.state, f.id, f.attempt, f.conditions, at);
        RestartKeepsLedger(CrashedAt(git, w.state, f.id, f.attempt, f.conditions, at), cid, now, restored);
      } else {
        RestartKeepsLedger(w.state, cid, now, restored);
      }
    case _ =>
  }

  lemma TidyPrefix(git: Git, codec: Codec, start: World, cid: string, moves: seq<Move>, n: nat)
    requires start.state.commits != [] && TidyRun(git, codec, start, cid, moves) && n <= |moves|
    ensures TidyRun(git, codec, start, cid, moves[..n])
  {
    hide Tidy, Play;
    forall k | 0 <= k < n ensures Tidy(Play(git, codec, start, cid, moves[..n][..k]), moves[..n][k]) {
      assert moves[..n][..k] == moves[..k];
    }
  }

  /** In every run, crashes, resets and failures included, ledger rows are only ever added, and no commit
      has two of them. */
  lemma {:induction false} LedgerOnlyGrows(
    git: Git, codec: Codec, start: World, cid: string, moves: seq<Move>, k: nat)
    requires start.state.commits != [] && RealGit(git) && L.AtMostOne(Rows(start.state.working))
    requires TidyRun(git, codec, start, cid, moves) && k <= |moves|
    ensures Rows(Play(git, codec, start, cid, moves[..k]).state.working)
         <= Rows(Play(git, codec, start, cid, moves).state.working)
    ensures L.AtMostOne(Rows(Play(git, codec, start, cid, moves).state.working))
  {
    hide RealGit, Tidy, Moved, Rows, L.AtMostOne;
    var n := |moves| - 1;
    if n < 0 {
      assert moves[..k] == moves;
    } else {
      TidyPrefix(git, codec, start, cid, moves, n);
      LedgerOnlyGrows(git, codec, start, cid, moves[..n], if k <= n then k else n);
      MoveGrowsLedger(git, codec, Play(git, codec, start, cid, moves[..n]), cid, moves[n]);
      if k <= n { assert moves[..n][..k] == moves[..k]; } else { assert moves[..k] == moves; }
    }
  }
}
