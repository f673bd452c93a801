/** The campaign store: its tables, its history state and its operations (`campaigns.py`).
    A row's id is its position in its table: rows are only ever appended. */
module Campaigns {
  import opened Prelude
  import opened Text
  import opened Scores

  // ---- Rows ---------------------------------------------------------------------------

  datatype CampaignStatus = Active | Running | Completed | Failed | Cancelled

  datatype Campaign = Campaign(
    name: string, experiment: string, goal: string, improvementRun: string,
    threshold: nat, policy: Policy, status: CampaignStatus,
    createdAt: int, startedAt: Option<int>, updatedAt: int, finishedAt: Option<int>,
    best: Option<real>, bestAttempt: Option<nat>, current: Option<nat>, stopReason: Option<string>)

  datatype Attempt = Attempt(
    campaign: string, ordinal: nat, status: string, decision: Decision,
    score: Option<real>, memoryGb: Option<real>, elapsedMs: Option<int>,
    startedAt: int, finishedAt: Option<int>,
    hypothesis: string, description: string, commit: string, logsTail: string,
    proposal: Option<nat>, budget: int, tree: string)

  datatype Kind = LegacyUnverified | Freeform | RlmVerified

  /** The text of an analysis; citations are JSON values kept as text. */
  datatype AnalysisText = AnalysisText(
    query: string, response: string, reasoning: string, error: string,
    recommendation: string, citations: seq<string>)

  datatype Analysis = Analysis(
    campaign: string, kind: Kind, status: string, createdAt: int, text: AnalysisText,
    digest: string, after: nat, contextId: string, runId: string, recursions: int,
    consumedBy: Option<nat>)

  datatype Db = Db(campaigns: map<string, Campaign>, attempts: seq<Attempt>, analyses: seq<Analysis>)

  const EMPTY := Db(map[], [], [])

  datatype StoreError = BadValue | NotFound | Busy | ReasoningRequired

  // ---- The canonical history and what it requires -------------------------------------

  datatype Entry = Entry(id: nat, attempt: Attempt)

  /** A campaign's attempts, oldest first. */
  function Entries(attempts: seq<Attempt>, cid: string): seq<Entry> {
    if attempts == [] then []
    else
      var n := |attempts| - 1;
      Entries(attempts[..n], cid) + if attempts[n].campaign == cid then [Entry(n, attempts[n])] else []
  }

  datatype Record =
    | Header(experiment: string, goal: string, improvementRun: string, policy: Policy)
    | Line(entry: Entry)

  /** JSON rendering and SHA-256, left open. */
  datatype Codec = Codec(render: seq<Record> -> string, sha256: string -> string)

  /** The canonical history: analyses and leases are not part of it. */
  function Canonical(campaign: Campaign, entries: seq<Entry>): seq<Record> {
    [Header(campaign.experiment, campaign.goal, campaign.improvementRun, campaign.policy)]
    + seq(|entries|, i requires 0 <= i < |entries| =>
        Line(Entry(entries[i].id, entries[i].attempt.(proposal := None))))
  }

  datatype History = History(count: nat, digest: string, required: Kind, current: Option<nat>)

  /** `_proposal_is_valid`. */
  predicate IsValidProposal(row: Analysis, required: Kind) {
    && row.kind == required && row.status == "completed" && row.consumedBy.None?
    && if required == Freeform then Strip(row.text.recommendation) == ""
       else Strip(row.contextId) != "" && Strip(row.runId) != "" && Strip(row.text.recommendation) != ""
            && row.text.citations != [] && row.recursions > 0
  }

  /** The newest usable proposal for a history. */
  function CurrentProposal(analyses: seq<Analysis>, cid: string, count: nat, digest: string, required: Kind): Option<nat> {
    if analyses == [] then None
    else
      var n := |analyses| - 1;
      var row := analyses[n];
      if row.campaign == cid && row.after == count && row.digest == digest && IsValidProposal(row, required)
      then Some(n)
      else CurrentProposal(analyses[..n], cid, count, digest, required)
  }

  /** `_history_state`, from the rows its SELECTs returned. */
  function HistoryState(codec: Codec, cid: string, campaign: Campaign, entries: seq<Entry>, analyses: seq<Analysis>)
    : (h: History)
    ensures h.count == |entries|
  {
    var canonical := codec.render(Canonical(campaign, entries));
    var digest := codec.sha256(canonical);
    var required := if |canonical| >= campaign.threshold then RlmVerified else Freeform;
    History(|entries|, digest, required, CurrentProposal(analyses, cid, |entries|, digest, required))
  }

  /** The history state of a campaign in one database state. */
  function HistoryOf(codec: Codec, db: Db, cid: string): (h: History)
    requires cid in db.campaigns
    ensures h.count == |Entries(db.attempts, cid)|
  {
    HistoryState(codec, cid, db.campaigns[cid], Entries(db.attempts, cid), db.analyses)
  }

  // ---- Operations -----------------------------------------------------------------------

  function OkScore(a: Attempt): Option<real> {
    if a.status == "ok" then a.score else None
  }

  /** The scores that count for the winner, oldest first. */
  function ScoresOf(attempts: seq<Attempt>, cid: string): seq<Option<real>> {
    if attempts == [] then []
    else
      var n := |attempts| - 1;
      ScoresOf(attempts[..n], cid) + if attempts[n].campaign == cid then [OkScore(attempts[n])] else []
  }

  function OutcomesOf(attempts: seq<Attempt>, cid: string): seq<Outcome> {
    if attempts == [] then []
    else
      var n := |attempts| - 1;
      OutcomesOf(attempts[..n], cid)
      + if attempts[n].campaign == cid then [Outcome(attempts[n].status, attempts[n].decision)] else []
  }

  predicate AnyRunning(attempts: seq<Attempt>) {
    exists i :: 0 <= i < |attempts| && attempts[i].status == "running"
  }

  predicate IsTerminal(status: CampaignStatus) {
    status.Completed? || status.Failed? || status.Cancelled?
  }

  function ClampBudget(p: Policy, requested: Option<int>): int {
    var wanted := if requested.Some? then requested.value else p.budget;
    var raised := if wanted < p.budgetMin then p.budgetMin else wanted;
    if raised > p.budgetMax then p.budgetMax else raised
  }

  /** What a caller supplies to `create_campaign`; `policy` is what the experiment's configuration
      loads to, if it loads. */
  datatype NewCampaign = NewCampaign(
    cid: string, experiment: string, name: string, goal: string, threshold: Option<int>,
    improvementRun: string, policy: Option<Policy>)

  predicate IsRunIdChar(c: char) {
    'A' <= c <= 'Z' || 'a' <= c <= 'z' || '0' <= c <= '9' || c == '.' || c == '_' || c == '-'
  }

  predicate IsRunId(s: string) {
    s == "" || (|s| <= 128 && forall c :: c in s ==> IsRunIdChar(c))
  }

  /** `create_campaign`: a new row, or new metadata for an existing one. */
  function CreateCampaign(db: Db, n: NewCampaign, now: int): (Db, Result<(), StoreError>) {
    var threshold := if n.threshold.Some? then n.threshold.value else 12_000;
    var run := Strip(n.improvementRun);
    if threshold < 1 || !IsRunId(run) then (db, Err(BadValue))
    else if n.policy.None? then (db, Err(NotFound))
    else if !ValidPolicy(n.policy.value) then (db, Err(BadValue))
    else
      var name := if Strip(n.name) != "" then Strip(n.name) else n.experiment;
      var row :=
        if n.cid in db.campaigns then
          var known := db.campaigns[n.cid];
          known.(name := name, experiment := n.experiment, goal := Strip(n.goal), updatedAt := now,
               threshold := threshold, improvementRun := if run != "" then run else known.improvementRun)
        else
          Campaign(name, n.experiment, Strip(n.goal), run, threshold, n.policy.value, Active,
                   now, None, now, None, None, None, None, None);
      (db.(campaigns := db.campaigns[n.cid := row]), Ok(()))
  }

  /** What a caller supplies to `create_proposal`. */
  datatype NewProposal = NewProposal(
    cid: string, digest: string, kind: Kind, text: AnalysisText,
    contextId: string, runId: string, recursions: int)

  function StrippedText(t: AnalysisText): AnalysisText {
    t.(query := Strip(t.query), recommendation := Strip(t.recommendation))
  }

  predicate IsProposable(p: NewProposal) {
    && p.kind != LegacyUnverified && p.recursions >= 0
    && (p.kind == RlmVerified ==>
          Strip(p.contextId) != "" && Strip(p.runId) != "" && Strip(p.text.recommendation) != ""
          && p.text.citations != [] && p.recursions > 0)
    && (p.kind == Freeform ==> Strip(p.text.recommendation) == "")
  }

  /** The row a proposal would add to a history. */
  function LeaseRow(p: NewProposal, h: History, now: int): Analysis {
    Analysis(p.cid, p.kind, "completed", now, StrippedText(p.text), h.digest, h.count,
             Strip(p.contextId), Strip(p.runId), p.recursions, None)
  }

  predicate SameLease(a: Analysis, b: Analysis) {
    && a.campaign == b.campaign && a.kind == b.kind && a.after == b.after && a.digest == b.digest
    && a.contextId == b.contextId && a.runId == b.runId && a.recursions == b.recursions && a.text == b.text
  }

  /** The newest row that already makes the same proposal. */
  function FindLease(analyses: seq<Analysis>, row: Analysis): (r: Option<nat>)
    ensures r.Some? ==> r.value < |analyses| && SameLease(analyses[r.value], row)
  {
    if analyses == [] then None
    else if SameLease(analyses[|analyses| - 1], row) then Some(|analyses| - 1)
    else FindLease(analyses[..|analyses| - 1], row)
  }

  /** `create_proposal` under the write lock, against a history state. */
  function ProposeWith(db: Db, p: NewProposal, h: History, now: int): (Db, Result<nat, StoreError>)
    requires p.cid in db.campaigns
  {
    var supplied := Strip(p.digest);
    if supplied == "" || supplied != h.digest then (db, Err(ReasoningRequired))
    else
      var row := LeaseRow(p, h, now);
      match FindLease(db.analyses, row)
      case Some(id) => (db, Ok(id))
      case None =>
        (db.(analyses := db.analyses + [row],
             campaigns := db.campaigns[p.cid := db.campaigns[p.cid].(updatedAt := now)]),
         Ok(|db.analyses|))
  }

  /** `create_proposal`. */
  function CreateProposal(codec: Codec, db: Db, p: NewProposal, now: int): (Db, Result<nat, StoreError>) {
    if !IsProposable(p) then (db, Err(BadValue))
    else if p.cid !in db.campaigns then (db, Err(NotFound))
    else ProposeWith(db, p, HistoryOf(codec, db, p.cid), now)
  }

  /** `record_analysis` under the write lock, against a history state. */
  function RecordWith(db: Db, cid: string, status: string, text: AnalysisText, h: History, now: int)
    : (Db, Result<nat, StoreError>)
    requires cid in db.campaigns
  {
    var row := Analysis(cid, LegacyUnverified, status, now,
      AnalysisText(Strip(text.query), text.response, text.reasoning, text.error, "", []),
      h.digest, h.count, "", "", 0, None);
    (db.(analyses := db.analyses + [row],
         campaigns := db.campaigns[cid := db.campaigns[cid].(updatedAt := now)]),
     Ok(|db.analyses|))
  }

  /** `record_analysis`: kept for old callers, never usable as a proposal. */
  function RecordAnalysis(codec: Codec, db: Db, cid: string, status: string, text: AnalysisText, now: int)
    : (Db, Result<nat, StoreError>)
  {
    if cid !in db.campaigns then (db, Err(NotFound))
    else RecordWith(db, cid, status, text, HistoryOf(codec, db, cid), now)
  }

  /** What a caller supplies to `start_attempt`. */
  datatype NewAttempt = NewAttempt(
    cid: string, hypothesis: string, proposal: Option<int>, analysis: Option<int>,
    budget: Option<int>, tree: string)

  /** The hypothesis an attempt is bound to by its proposal, or why it cannot be. */
  function BoundHypothesis(supplied: string, proposal: Analysis, required: Kind): Result<string, StoreError> {
    var hypothesis := Normalize(supplied);
    if required == RlmVerified then
      var recommendation := Normalize(proposal.text.recommendation);
      if hypothesis != "" && hypothesis != recommendation then Err(ReasoningRequired) else Ok(recommendation)
    else if hypothesis == "" then Err(BadValue)
    else Ok(hypothesis)
  }

  /** The proposal a start names. */
  function Requested(n: NewAttempt): Option<int> {
    if n.proposal.Some? then n.proposal else n.analysis
  }

  /** The checks of `start_attempt` under the write lock, in order, against a history state: the
      proposal to consume and the bound hypothesis. */
  function AdmitWith(db: Db, n: NewAttempt, h: History): Result<(nat, string), StoreError>
    requires Requested(n).Some?
  {
    if AnyRunning(db.attempts) then Err(Busy)
    else if n.cid !in db.campaigns then Err(NotFound)
    else if IsTerminal(db.campaigns[n.cid].status) then Err(BadValue)
    else
      var id := Requested(n).value;
      if !(0 <= id < |db.analyses|) || db.analyses[id].campaign != n.cid then Err(ReasoningRequired)
      else
        var proposal := db.analyses[id];
        if proposal.after != h.count || proposal.digest != h.digest || !IsValidProposal(proposal, h.required)
        then Err(ReasoningRequired)
        else
          match BoundHypothesis(n.hypothesis, proposal, h.required)
          case Err(error) => Err(error)
          case Ok(hypothesis) => Ok((id, hypothesis))
  }

  function AdmitAttempt(codec: Codec, db: Db, n: NewAttempt): Result<(nat, string), StoreError> {
    if n.proposal.Some? && n.analysis.Some? && n.proposal != n.analysis then Err(BadValue)
    else if Requested(n).None? then Err(ReasoningRequired)
    else if n.cid !in db.campaigns then Err(NotFound)
    else AdmitWith(db, n, HistoryOf(codec, db, n.cid))
  }

  /** The updates of an admitted start: a new running attempt that consumes its proposal. */
  function BeginAttempt(db: Db, n: NewAttempt, proposal: nat, hypothesis: string, ordinal: nat, now: int): Db
    requires n.cid in db.campaigns && proposal < |db.analyses|
  {
    var id, c := |db.attempts|, db.campaigns[n.cid];
    var row := Attempt(n.cid, ordinal, "running", Pending, None, None, None, now, None,
      hypothesis, "", "", "", Some(proposal), ClampBudget(c.policy, n.budget), n.tree);
    Db(db.campaigns[n.cid := c.(
         status := Running, startedAt := if c.startedAt.Some? then c.startedAt else Some(now),
         updatedAt := now, current := Some(id), finishedAt := None, stopReason := None)],
       db.attempts + [row],
       db.analyses[proposal := db.analyses[proposal].(consumedBy := Some(id))])
  }

  /** `start_attempt`. */
  function StartAttempt(codec: Codec, db: Db, n: NewAttempt, now: int): (Db, Result<nat, StoreError>) {
    match AdmitAttempt(codec, db, n)
    case Err(error) => (db, Err(error))
    case Ok((proposal, hypothesis)) =>
      (BeginAttempt(db, n, proposal, hypothesis, |Entries(db.attempts, n.cid)| + 1, now), Ok(|db.attempts|))
  }

  /** What the runner reports to `finish_attempt`. */
  datatype Report = Report(
    status: string, score: Option<real>, memoryGb: Option<real>, elapsedMs: int,
    commit: string, logsTail: string, description: string)

  function FinishedRow(a: Attempt, r: Report, improved: bool, now: int): Attempt {
    a.(status := r.status, decision := if improved then Kept else Rejected, score := r.score,
       memoryGb := r.memoryGb, elapsedMs := Some(if r.elapsedMs < 0 then 0 else r.elapsedMs),
       finishedAt := Some(now), commit := r.commit, logsTail := r.logsTail,
       description := Strip(r.description))
  }

  predicate Improves(c: Campaign, r: Report) {
    r.status == "ok" && ScoreImproved(r.score, c.best, c.policy)
  }

  function StopStatus(stop: StopEvaluation): CampaignStatus {
    match stop
    case GoOn => Active
    case Stop(_, Finished) => Completed
    case Stop(_, Exhausted) => Failed
  }

  /** `finish_attempt`: the winner decision and the stop policy. */
  function FinishAttempt(db: Db, id: nat, r: Report, now: int): (Db, Result<Decision, StoreError>) {
    if id >= |db.attempts| || db.attempts[id].status != "running"
       || db.attempts[id].campaign !in db.campaigns then (db, Err(BadValue))
    else
      var cid := db.attempts[id].campaign;
      var c := db.campaigns[cid];
      var improved := Improves(c, r);
      var attempts := db.attempts[id := FinishedRow(db.attempts[id], r, improved, now)];
      var best := if improved then r.score else c.best;
      var stop := StopDecision(OutcomesOf(attempts, cid), best, c.policy);
      (db.(attempts := attempts,
           campaigns := db.campaigns[cid := c.(
             status := StopStatus(stop), updatedAt := now, current := None, best := best,
             bestAttempt := if improved then Some(id) else c.bestAttempt,
             finishedAt := if stop.Stop? then Some(now) else None,
             stopReason := if stop.Stop? then Some(stop.reason) else None)]),
       Ok(attempts[id].decision))
  }

  function ManualReason(status: CampaignStatus): Option<string> {
    match status
    case Completed => Some("manual_completed")
    case Failed => Some("manual_failed")
    case Cancelled => Some("manual_cancelled")
    case _ => None
  }

  /** `set_campaign_status`. */
  function SetStatus(db: Db, cid: string, status: CampaignStatus, now: int): (Db, Result<(), StoreError>) {
    if status == Running then (db, Err(BadValue))
    else if cid !in db.campaigns then (db, Err(NotFound))
    else if db.campaigns[cid].current.Some? then (db, Err(Busy))
    else
      (db.(campaigns := db.campaigns[cid := db.campaigns[cid].(
         status := status, updatedAt := now,
         finishedAt := if IsTerminal(status) then Some(now) else None, stopReason := ManualReason(status))]),
       Ok(()))
  }

  predicate LacksDescription(a: Attempt, commit: string) { a.commit == commit && a.description == "" }

  /** `update_attempt_description`: only an empty description is filled. */
  function Describe(db: Db, commit: string, description: string, now: int): Db {
    if commit == "" || Strip(description) == "" then db
    else
      Db(map c | c in db.campaigns ::
           if exists i :: 0 <= i < |db.attempts| && db.attempts[i].campaign == c && LacksDescription(db.attempts[i], commit)
           then db.campaigns[c].(updatedAt := now) else db.campaigns[c],
         seq(|db.attempts|, i requires 0 <= i < |db.attempts| =>
           if LacksDescription(db.attempts[i], commit) then db.attempts[i].(description := Strip(description))
           else db.attempts[i]),
         db.analyses)
  }

  // ---- Startup: the legacy importer and crash recovery ------------------------------------

  /** A non-blank row of a legacy ledger, its numbers parsed. */
  datatype LegacyRow = LegacyRow(
    commit: string, score: Option<real>, memoryGb: Option<real>, status: string, description: string)

  /** A workspace that predates the store. */
  datatype LegacyWorkspace = LegacyWorkspace(
    cid: string, name: string, experiment: string, policy: Policy, stamp: int, rows: seq<LegacyRow>)

  function LegacyScores(rows: seq<LegacyRow>): (scores: seq<Option<real>>)
    ensures |scores| == |rows|
  {
    seq(|rows|, i requires 0 <= i < |rows| => if rows[i].status == "ok" then rows[i].score else None)
  }

  /** The attempt a legacy row becomes: kept if it won when the rows are taken in order. */
  function LegacyAttempt(w: LegacyWorkspace, i: nat): Attempt
    requires i < |w.rows|
  {
    var row := w.rows[i];
    Attempt(w.cid, i + 1, if row.status == "" then "unknown" else row.status,
            if WonAt(LegacyScores(w.rows), i, w.policy) then Kept else Rejected,
            row.score, row.memoryGb, None, w.stamp, Some(w.stamp), row.description, row.description,
            row.commit, "", None, w.policy.budget, "")
  }

  /** The last of the first n rows that won. */
  function LastWin(history: seq<Option<real>>, p: Policy, n: nat): (r: Option<nat>)
    requires n <= |history|
    ensures r.Some? ==> r.value < n
  {
    if n == 0 then None
    else if WonAt(history, n - 1, p) then Some(n - 1)
    else LastWin(history, p, n - 1)
  }

  function ImportWorkspace(db: Db, w: LegacyWorkspace): Db {
    if w.cid in db.campaigns then db
    else
      var scores := LegacyScores(w.rows);
      var last := LastWin(scores, w.policy, |scores|);
      Db(db.campaigns[w.cid := Campaign(
           w.name, w.experiment, "", "", 12_000, w.policy, Active, w.stamp, None, w.stamp, None,
           BestOf(scores, w.policy), if last.Some? then Some(|db.attempts| + last.value) else None, None, None)],
         db.attempts + seq(|w.rows|, i requires 0 <= i < |w.rows| => LegacyAttempt(w, i)),
         db.analyses)
  }

  function ImportAll(db: Db, ws: seq<LegacyWorkspace>): Db {
    if ws == [] then db else ImportWorkspace(ImportAll(db, ws[..|ws| - 1]), ws[|ws| - 1])
  }

  function InterruptedRow(a: Attempt, now: int): Attempt {
    if a.status != "running" then a
    else a.(status := "interrupted", decision := Rejected, finishedAt := Some(now),
            elapsedMs := if a.elapsedMs.None? then Some(0) else a.elapsedMs)
  }

  /** Attempts and campaigns left running by a crash. */
  function Recover(db: Db, now: int): Db {
    Db(map c | c in db.campaigns ::
         if db.campaigns[c].status != Running then db.campaigns[c]
         else db.campaigns[c].(status := Active, current := None, updatedAt := now),
       seq(|db.attempts|, i requires 0 <= i < |db.attempts| => InterruptedRow(db.attempts[i], now)),
       db.analyses)
  }

  /** The one transaction of `initialize_store` that changes campaigns. */
  function Startup(db: Db, ws: seq<LegacyWorkspace>, now: int): Db {
    Recover(ImportAll(db, ws), now)
  }

  // ---- Runs ---------------------------------------------------------------------------

  datatype Event =
    | Create(campaign: NewCampaign, now: int)
    | Propose(proposal: NewProposal, now: int)
    | Analyze(cid: string, status: string, text: AnalysisText, now: int)
    | Start(attempt: NewAttempt, now: int)
    | Finish(id: nat, report: Report, now: int)
    | Restate(cid: string, to: CampaignStatus, now: int)
    | Annotate(commit: string, description: string, now: int)
    | Restart(workspaces: seq<LegacyWorkspace>, now: int)

  /** One committed transaction; a rejected one changes nothing. */
  function Apply(codec: Codec, db: Db, e: Event): Db {
    match e
    case Create(campaign, now) => CreateCampaign(db, campaign, now).0
    case Propose(proposal, now) => CreateProposal(codec, db, proposal, now).0
    case Analyze(cid, status, text, now) => RecordAnalysis(codec, db, cid, status, text, now).0
    case Start(attempt, now) => StartAttempt(codec, db, attempt, now).0
    case Finish(id, report, now) => FinishAttempt(db, id, report, now).0
    case Restate(cid, to, now) => SetStatus(db, cid, to, now).0
    case Annotate(commit, description, now) => Describe(db, commit, description, now)
    case Restart(workspaces, now) => Startup(db, workspaces, now)
  }

  function Run(codec: Codec, events: seq<Event>): Db {
    if events == [] then EMPTY
    else Apply(codec, Run(codec, events[..|events| - 1]), events[|events| - 1])
  }
}
