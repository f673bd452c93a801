/** What the history document of a campaign shows, and which changes of it are stamped
    (`campaigns.py`, `_document_history_jsonl`). */
module Documents {
  import opened Prelude
  import opened Text
  import opened Scores
  import opened Campaigns
  import opened CampaignInvariants
  import opened CampaignRuns
  import opened StatusRace

  /** The campaign's header in the document. */
  datatype DocumentHeader = DocumentHeader(
    name: string, experiment: string, goal: string, status: CampaignStatus, createdAt: int,
    improvementRun: string, best: Option<real>, policy: Policy, stopReason: Option<string>)

  datatype Lease = Lease(id: nat, analysis: Analysis)

  datatype Document = Document(header: DocumentHeader, entries: seq<Entry>, leases: seq<Lease>)

  function Leases(analyses: seq<Analysis>, cid: string): seq<Lease> {
    if analyses == [] then []
    else
      var n := |analyses| - 1;
      Leases(analyses[..n], cid) + if analyses[n].campaign == cid then [Lease(n, analyses[n])] else []
  }

  function HeaderOf(c: Campaign): DocumentHeader {
    DocumentHeader(c.name, c.experiment, c.goal, c.status, c.createdAt, c.improvementRun, c.best, c.policy, c.stopReason)
  }

  /** Everything the document of a campaign is rendered from. */
  function DocumentOf(db: Db, cid: string): Document
    requires cid in db.campaigns
  {
    Document(HeaderOf(db.campaigns[cid]), Entries(db.attempts, cid), Leases(db.analyses, cid))
  }

  // ---- Rows of other campaigns do not show ---------------------------------------------------------

  /** The tables differ only in rows of other campaigns. */
  ghost predicate OthersOnly(a: Db, b: Db, cid: string) {
    && |a.attempts| <= |b.attempts| && |a.analyses| <= |b.analyses|
    && (forall i :: 0 <= i < |a.attempts| ==>
          a.attempts[i] == b.attempts[i] || (a.attempts[i].campaign != cid && b.attempts[i].campaign != cid))
    && (forall i :: |a.attempts| <= i < |b.attempts| ==> b.attempts[i].campaign != cid)
    && (forall p :: 0 <= p < |a.analyses| ==>
          a.analyses[p] == b.analyses[p] || (a.analyses[p].campaign != cid && b.analyses[p].campaign != cid))
    && (forall p :: |a.analyses| <= p < |b.analyses| ==> b.analyses[p].campaign != cid)
  }

  lemma {:induction false} EntriesIgnoreOthers(a: seq<Attempt>, b: seq<Attempt>, cid: string)
    requires |a| <= |b|
    requires forall i :: 0 <= i < |a| ==> a[i] == b[i] || (a[i].campaign != cid && b[i].campaign != cid)
    requires forall i :: |a| <= i < |b| ==> b[i].campaign != cid
    ensures Entries(a, cid) == Entries(b, cid)
    decreases |b|
  {
    if b != [] {
      var n := |b| - 1;
      if |a| <= n {
        EntriesIgnoreOthers(a, b[..n], cid);
      } else {
        EntriesIgnoreOthers(a[..n], b[..n], cid);
      }
    }
  }

  lemma {:induction false} LeasesIgnoreOthers(a: seq<Analysis>, b: seq<Analysis>, cid: string)
    requires |a| <= |b|
    requires forall i :: 0 <= i < |a| ==> a[i] == b[i] || (a[i].campaign != cid && b[i].campaign != cid)
    requires forall i :: |a| <= i < |b| ==> b[i].campaign != cid
    ensures Leases(a, cid) == Leases(b, cid)
    decreases |b|
  {
    if b != [] {
      var n := |b| - 1;
      if |a| <= n {
        LeasesIgnoreOthers(a, b[..n], cid);
      } else {
        LeasesIgnoreOthers(a[..n], b[..n], cid);
      }
    }
  }

  lemma SameDocument(a: Db, b: Db, cid: string)
    requires cid in a.campaigns && cid in b.campaigns && a.campaigns[cid] == b.campaigns[cid] && OthersOnly(a, b, cid)
    ensures DocumentOf(a, cid) == DocumentOf(b, cid)
  {
    hide Entries, Leases;
    EntriesIgnoreOthers(a.attempts, b.attempts, cid);
    LeasesIgnoreOthers(a.analyses, b.analyses, cid);
  }

  // ---- Every change is stamped or reported -----------------------------------------------------------

  /** The event stamps the campaign, or leaves everything its document shows alone. */
  ghost predicate Stamps(before: Db, after: Db, cid: string, now: int)
    requires cid in before.campaigns
  {
    && cid in after.campaigns
    && (after.campaigns[cid].updatedAt == now
        || (after.campaigns[cid] == before.campaigns[cid] && OthersOnly(before, after, cid)))
  }

  /** A start finds the campaign with a running attempt and reports it as stale. */
  ghost predicate ReportedStale(db: Db, cid: string) {
    exists i :: 0 <= i < |db.attempts| && db.attempts[i].campaign == cid && db.attempts[i].status == "running"
  }

  lemma WriteStamps(codec: Codec, db: Db, e: Event, cid: string)
    requires cid in db.campaigns && !e.Restart? && !e.Annotate?
    ensures Stamps(db, Apply(codec, db, e), cid, e.now)
  {
    hide HistoryOf, Strip, StopDecision, OutcomesOf, FindLease, ScoreImproved, ValidPolicy, IsRunId, IsProposable;
    match e
    case Start(n, now) => StartStamps(codec, db, n, now, cid);
    case _ =>
  }

  lemma StartStamps(codec: Codec, db: Db, n: NewAttempt, now: int, cid: string)
    requires cid in db.campaigns
    ensures Stamps(db, StartAttempt(codec, db, n, now).0, cid, now)
  {
    hide HistoryOf, BoundHypothesis, IsValidProposal, ClampBudget;
  }

  lemma DescribeStamps(db: Db, commit: string, description: string, now: int, cid: string)
    requires cid in db.campaigns
    ensures Stamps(db, Describe(db, commit, description, now), cid, now)
  {
    hide Strip, LacksDescription;
  }

  lemma RestartStamps(db: Db, ws: seq<LegacyWorkspace>, now: int, cid: string)
    requires cid in db.campaigns && !ReportedStale(db, cid)
    ensures Stamps(db, Startup(db, ws, now), cid, now)
  {
    ImportShowsNothing(db, ws, cid);
    hide ImportAll;
  }

  lemma {:induction false} ImportShowsNothing(db: Db, ws: seq<LegacyWorkspace>, cid: string)
    requires cid in db.campaigns
    ensures var after := ImportAll(db, ws);
      cid in after.campaigns && after.campaigns[cid] == db.campaigns[cid] && OthersOnly(db, after, cid)
      && |db.attempts| <= |after.attempts|
  {
    hide BestOf, LastWin, LegacyScores, WonAt;
    if ws != [] { ImportShowsNothing(db, ws[..|ws| - 1], cid); }
  }

  /** An event that changes what a campaign's document shows stamps the campaign with its own time, or
      is a restart that finds an attempt of the campaign running although its status is another one. */
  lemma DocumentChangesAreStamped(codec: Codec, db: Db, e: Event, cid: string)
    requires cid in db.campaigns
    ensures var after := Apply(codec, db, e);
      && cid in after.campaigns
      && (DocumentOf(after, cid) != DocumentOf(db, cid) ==>
            after.campaigns[cid].updatedAt == e.now
            || (e.Restart? && ReportedStale(db, cid) && db.campaigns[cid].status != Running))
  {
    hide DocumentOf, OthersOnly;
    var after := Apply(codec, db, e);
    match e {
      case Annotate(commit, description, now) => DescribeStamps(db, commit, description, now, cid);
      case Restart(workspaces, now) =>
        if ReportedStale(db, cid) { StaleRestart(db, workspaces, now, cid); }
        else { RestartStamps(db, workspaces, now, cid); }
      case _ => WriteStamps(codec, db, e, cid);
    }
    if after.campaigns[cid] == db.campaigns[cid] && OthersOnly(db, after, cid) { SameDocument(db, after, cid); }
  }

  /** What a restart does to a campaign of which an attempt is running. */
  lemma StaleRestart(db: Db, ws: seq<LegacyWorkspace>, now: int, cid: string)
    requires cid in db.campaigns && ReportedStale(db, cid)
    ensures var after := Startup(db, ws, now);
      && cid in after.campaigns && !ReportedStale(after, cid)
      && (if db.campaigns[cid].status == Running
          then after.campaigns[cid] == db.campaigns[cid].(status := Active, current := None, updatedAt := now)
          else after.campaigns[cid] == db.campaigns[cid])
      && |db.attempts| <= |after.attempts|
      && exists i :: 0 <= i < |db.attempts| && db.attempts[i].campaign == cid == after.attempts[i].campaign
                     && db.attempts[i].status == "running" && after.attempts[i].status == "interrupted"
  {
    ImportShowsNothing(db, ws, cid);
    var imported := ImportAll(db, ws);
    hide ImportAll;
    var i :| 0 <= i < |db.attempts| && db.attempts[i].campaign == cid && db.attempts[i].status == "running";
    assert imported.attempts[i] == db.attempts[i];
    assert Startup(db, ws, now).attempts[i].status == "interrupted";
  }

  /** In any store, a restart that finds an attempt of the campaign running changes its document; it stamps
      the campaign if and only if the campaign's status is running; and the restart after that one reports
      nothing of the campaign any more. */
  lemma StaleRestartStampsExactly(db: Db, ws: seq<LegacyWorkspace>, now: int, cid: string)
    requires cid in db.campaigns && ReportedStale(db, cid)
    ensures var after := Startup(db, ws, now);
      && cid in after.campaigns && !ReportedStale(after, cid)
      && DocumentOf(after, cid) != DocumentOf(db, cid)
      && after.campaigns[cid].updatedAt
         == if db.campaigns[cid].status == Running then now else db.campaigns[cid].updatedAt
  {
    StaleRestart(db, ws, now, cid);
    var after := Startup(db, ws, now);
    hide Startup, Leases, ReportedStale;
    var i :| 0 <= i < |db.attempts| && db.attempts[i].campaign == cid == after.attempts[i].campaign
             && db.attempts[i].status == "running" && after.attempts[i].status == "interrupted";
    EntryShows(db.attempts, i);
    EntriesAreRows(after.attempts, cid);
    hide Entries;
  }

  lemma {:induction false} EntryShows(a: seq<Attempt>, i: nat)
    requires i < |a|
    ensures Entry(i, a[i]) in Entries(a, a[i].campaign)
  {
    if i < |a| - 1 { EntryShows(a[..|a| - 1], i); }
  }

  lemma {:induction false} EntriesAreRows(a: seq<Attempt>, cid: string)
    ensures forall e :: e in Entries(a, cid) ==> e.id < |a| && e.attempt == a[e.id]
  {
    if a != [] { EntriesAreRows(a[..|a| - 1], cid); }
  }

  /** So in every store of whole transactions each event that changes a document stamps it. */
  lemma WholeChangesAreStamped(codec: Codec, db: Db, e: Event, cid: string)
    requires Inv(db) && cid in db.campaigns
    ensures var after := Apply(codec, db, e);
      && cid in after.campaigns
      && (DocumentOf(after, cid) != DocumentOf(db, cid) ==> after.campaigns[cid].updatedAt == e.now)
  {
    DocumentChangesAreStamped(codec, db, e, cid);
    if ReportedStale(db, cid) { RunningIsShown(db, cid); }
    hide Inv, Apply, DocumentOf, ReportedStale;
  }

  lemma RunningIsShown(db: Db, cid: string)
    requires Inv(db) && cid in db.campaigns && ReportedStale(db, cid)
    ensures db.campaigns[cid].status == Running
  {
    hide OrdinalInv, LeaseInv, WinnerInv;
  }

  /** A late status update stamps too. */
  lemma LateChangesAreStamped(db: Db, cid: string, target: string, to: CampaignStatus, now: int)
    requires cid in db.campaigns
    ensures var after := LateRestate(db, target, to, now);
      cid in after.campaigns
      && (DocumentOf(after, cid) != DocumentOf(db, cid) ==> after.campaigns[cid].updatedAt == now)
  {
    hide Entries, Leases;
  }

  /** A document tells apart everything it is made of: two stores in which a campaign has the same document
      agree on what it is called and for, on its status, its winner, its policy and why it stopped, and on
      every row of its attempts and analyses. */
  lemma DocumentTellsApart(a: Db, b: Db, cid: string)
    requires cid in a.campaigns && cid in b.campaigns && DocumentOf(a, cid) == DocumentOf(b, cid)
    ensures var c, d := a.campaigns[cid], b.campaigns[cid];
      && c.name == d.name && c.experiment == d.experiment && c.goal == d.goal && c.status == d.status
      && c.createdAt == d.createdAt && c.improvementRun == d.improvementRun && c.best == d.best
      && c.policy == d.policy && c.stopReason == d.stopReason
    ensures forall i :: 0 <= i < |a.attempts| && a.attempts[i].campaign == cid ==>
      i < |b.attempts| && b.attempts[i] == a.attempts[i]
    ensures forall p :: 0 <= p < |a.analyses| && a.analyses[p].campaign == cid ==>
      p < |b.analyses| && b.analyses[p] == a.analyses[p]
  {
    hide Entries, Leases;
    forall i | 0 <= i < |a.attempts| && a.attempts[i].campaign == cid
      ensures i < |b.attempts| && b.attempts[i] == a.attempts[i]
    {
      EntryShows(a.attempts, i);
      EntriesAreRows(b.attempts, cid);
    }
    forall p | 0 <= p < |a.analyses| && a.analyses[p].campaign == cid
      ensures p < |b.analyses| && b.analyses[p] == a.analyses[p]
    {
      LeaseShows(a.analyses, p);
      LeasesAreRows(b.analyses, cid);
    }
  }

  lemma {:induction false} LeaseShows(a: seq<Analysis>, p: nat)
    requires p < |a|
    ensures Lease(p, a[p]) in Leases(a, a[p].campaign)
  {
    if p < |a| - 1 { LeaseShows(a[..|a| - 1], p); }
  }

  lemma {:induction false} LeasesAreRows(a: seq<Analysis>, cid: string)
    ensures forall l :: l in Leases(a, cid) ==> l.id < |a| && l.analysis == a[l.id]
  {
    if a != [] { LeasesAreRows(a[..|a| - 1], cid); }
  }
}
