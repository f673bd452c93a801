/** The campaign store as the object the engine updates in place: every method is one transaction. */
module CampaignStore {
  import opened Prelude
  import opened Text
  import opened Scores
  import opened Campaigns
  import opened CampaignInvariants
  import opened CampaignRuns
  import opened StatusRace

  class Store {
    var campaigns: map<string, Campaign>
    var attempts: seq<Attempt>
    var analyses: seq<Analysis>

    /** The three tables as one value. */
    function Tables(): Db
      reads this
    {
      Db(campaigns, attempts, analyses)
    }

    constructor ()
      ensures Tables() == EMPTY && Inv(Tables())
    {
      campaigns, attempts, analyses := map[], [], [];
      new;
      EmptyInv();
    }

    method Create(n: NewCampaign, now: int) returns (r: Result<(), StoreError>)
      modifies this
      ensures (Tables(), r) == CreateCampaign(old(Tables()), n, now)
      ensures old(Inv(Tables())) ==> Inv(Tables())
    {
      hide Core, StatusInv, Strip, IsRunId, ValidPolicy;
      ghost var before := Tables();
      if Inv(before) { CreatePreserves(before, n, now); }
      var threshold := if n.threshold.None? then 12_000 else n.threshold.value;
      if threshold < 1 { return Err(BadValue); }
      var run := Strip(n.improvementRun);
      if !IsRunId(run) { return Err(BadValue); }
      if n.policy.None? { return Err(NotFound); }
      if !ValidPolicy(n.policy.value) { return Err(BadValue); }
      var name := Strip(n.name);
      if name == "" { name := n.experiment; }
      if n.cid in campaigns {
        var row := campaigns[n.cid];
        if run != "" { row := row.(improvementRun := run); }
        campaigns := campaigns[n.cid := row.(
          name := name, experiment := n.experiment, goal := Strip(n.goal), updatedAt := now, threshold := threshold)];
      } else {
        campaigns := campaigns[n.cid := Campaign(
          name, n.experiment, Strip(n.goal), run, threshold, n.policy.value, Active,
          now, None, now, None, None, None, None, None)];
      }
      return Ok(());
    }

    method Propose(codec: Codec, p: NewProposal, now: int) returns (r: Result<nat, StoreError>)
      modifies this
      ensures (Tables(), r) == CreateProposal(codec, old(Tables()), p, now)
      ensures old(Inv(Tables())) ==> Inv(Tables())
    {
      hide Core, StatusInv, Strip, HistoryOf, SameLease;
      ghost var before := Tables();
      if Inv(before) { ProposePreserves(codec, before, p, now); }
      if !IsProposable(p) { return Err(BadValue); }
      if p.cid !in campaigns { return Err(NotFound); }
      var state := HistoryOf(codec, Tables(), p.cid);
      var supplied := Strip(p.digest);
      if supplied == "" || supplied != state.digest { return Err(ReasoningRequired); }
      var row := LeaseRow(p, state, now);
      // Newest first, as the query orders them.
      var n := |analyses|;
      assert analyses[..n] == analyses;
      while n > 0
        invariant n <= |analyses| && Tables() == before
        invariant FindLease(analyses, row) == FindLease(analyses[..n], row)
      {
        if SameLease(analyses[n - 1], row) { return Ok(n - 1); }
        assert analyses[..n][..n - 1] == analyses[..n - 1];
        n := n - 1;
      }
      var id := |analyses|;
      analyses := analyses + [row];
      campaigns := campaigns[p.cid := campaigns[p.cid].(updatedAt := now)];
      return Ok(id);
    }

    method Analyze(codec: Codec, cid: string, status: string, text: AnalysisText, now: int)
      returns (r: Result<nat, StoreError>)
      modifies this
      ensures (Tables(), r) == RecordAnalysis(codec, old(Tables()), cid, status, text, now)
      ensures old(Inv(Tables())) ==> Inv(Tables())
    {
      hide Core, StatusInv, Strip, HistoryOf;
      ghost var before := Tables();
      if Inv(before) { AnalyzePreserves(codec, before, cid, status, text, now); }
      if cid !in campaigns { return Err(NotFound); }
      var state := HistoryOf(codec, Tables(), cid);
      var id := |analyses|;
      analyses := analyses + [Analysis(
        cid, LegacyUnverified, status, now,
        AnalysisText(Strip(text.query), text.response, text.reasoning, text.error, "", []),
        state.digest, state.count, "", "", 0, None)];
      campaigns := campaigns[cid := campaigns[cid].(updatedAt := now)];
      return Ok(id);
    }

    method Start(codec: Codec, n: NewAttempt, now: int) returns (r: Result<nat, StoreError>)
      modifies this
      ensures (Tables(), r) == StartAttempt(codec, old(Tables()), n, now)
      ensures old(Inv(Tables())) ==> Inv(Tables())
    {
      hide Core, StatusInv, HistoryOf, Normalize, ClampBudget, IsValidProposal, AnyRunning;
      ghost var before := Tables();
      if Inv(before) { StartPreserves(codec, before, n, now); }
      if n.proposal.Some? && n.analysis.Some? && n.proposal.value != n.analysis.value { return Err(BadValue); }
      var requested := Requested(n);
      if requested.None? { return Err(ReasoningRequired); }
      var proposalId := requested.value;
      if n.cid !in campaigns { return Err(NotFound); }
      var state := HistoryOf(codec, Tables(), n.cid);
      if AnyRunning(attempts) { return Err(Busy); }
      var campaign := campaigns[n.cid];
      if IsTerminal(campaign.status) { return Err(BadValue); }
      if proposalId < 0 || proposalId >= |analyses| || analyses[proposalId].campaign != n.cid {
        return Err(ReasoningRequired);
      }
      var proposal := analyses[proposalId];
      if proposal.after != state.count { return Err(ReasoningRequired); }
      if proposal.digest != state.digest { return Err(ReasoningRequired); }
      if !IsValidProposal(proposal, state.required) { return Err(ReasoningRequired); }
      var hypothesis := Normalize(n.hypothesis);
      if state.required == RlmVerified {
        var recommendation := Normalize(proposal.text.recommendation);
        if hypothesis != "" && hypothesis != recommendation { return Err(ReasoningRequired); }
        hypothesis := recommendation;
      } else if hypothesis == "" {
        return Err(BadValue);
      }
      assert AdmitAttempt(codec, before, n) == Ok((proposalId, hypothesis));
      hide AdmitAttempt;
      var id := |attempts|;
      attempts := attempts + [Attempt(
        n.cid, state.count + 1, "running", Pending, None, None, None, now, None,
        hypothesis, "", "", "", Some(proposalId), ClampBudget(campaign.policy, n.budget), n.tree)];
      analyses := analyses[proposalId := proposal.(consumedBy := Some(id))];
      campaigns := campaigns[n.cid := campaign.(
        status := Running, startedAt := if campaign.startedAt.None? then Some(now) else campaign.startedAt,
        updatedAt := now, current := Some(id), finishedAt := None, stopReason := None)];
      return Ok(id);
    }

    method Finish(id: nat, report: Report, now: int) returns (r: Result<Decision, StoreError>)
      modifies this
      ensures (Tables(), r) == FinishAttempt(old(Tables()), id, report, now)
      ensures old(Inv(Tables())) && report.status != "running" ==> Inv(Tables())
    {
      hide Core, StatusInv, Strip, ScoreImproved, StopDecision, OutcomesOf;
      ghost var before := Tables();
      if Inv(before) && report.status != "running" { FinishPreserves(before, id, report, now); }
      if id >= |attempts| || attempts[id].status != "running" { return Err(BadValue); }
      var attempt := attempts[id];
      var cid := attempt.campaign;
      if cid !in campaigns { return Err(BadValue); }
      var campaign := campaigns[cid];
      var improved := report.status == "ok" && ScoreImproved(report.score, campaign.best, campaign.policy);
      var decision := if improved then Kept else Rejected;
      attempts := attempts[id := attempt.(
        status := report.status, decision := decision, score := report.score, memoryGb := report.memoryGb,
        elapsedMs := Some(if report.elapsedMs < 0 then 0 else report.elapsedMs), finishedAt := Some(now),
        commit := report.commit, logsTail := report.logsTail, description := Strip(report.description))];
      var best := if improved then report.score else campaign.best;
      var stop := EvaluateStop(OutcomesOf(attempts, cid), best, campaign.policy);
      campaigns := campaigns[cid := campaign.(
        status := StopStatus(stop), updatedAt := now, current := None, best := best,
        bestAttempt := if improved then Some(id) else campaign.bestAttempt,
        finishedAt := if stop.Stop? then Some(now) else None,
        stopReason := if stop.Stop? then Some(stop.reason) else None)];
      return Ok(decision);
    }

    /** What `set_campaign_status` reads before its transaction begins. */
    method CheckStatus(cid: string, status: CampaignStatus, ghost now: int) returns (r: Result<(), StoreError>)
      ensures r == SetStatus(Tables(), cid, status, now).1
    {
      if status == Running { return Err(BadValue); }
      if cid !in campaigns { return Err(NotFound); }
      if campaigns[cid].current.Some? { return Err(Busy); }
      return Ok(());
    }

    /** Its transaction: the update lands on whatever the tables have become since the check. */
    method UpdateStatus(cid: string, status: CampaignStatus, now: int)
      modifies this
      ensures Tables() == LateRestate(old(Tables()), cid, status, now)
      ensures old(Core(Tables())) ==> Core(Tables())
    {
      hide Core;
      ghost var before := Tables();
      if Core(before) { LateKeepsCore(before, cid, status, now); }
      if status == Running || cid !in campaigns { return; }
      campaigns := campaigns[cid := campaigns[cid].(
        status := status, updatedAt := now,
        finishedAt := if IsTerminal(status) then Some(now) else None, stopReason := ManualReason(status))];
    }

    /** Check and update with nothing in between. */
    method SetCampaignStatus(cid: string, status: CampaignStatus, now: int) returns (r: Result<(), StoreError>)
      modifies this
      ensures (Tables(), r) == SetStatus(old(Tables()), cid, status, now)
      ensures old(Inv(Tables())) ==> Inv(Tables())
    {
      hide Core, StatusInv, LateRestate;
      ghost var before := Tables();
      if Inv(before) { RestatePreserves(before, cid, status, now); }
      r := CheckStatus(cid, status, now);
      if r.Err? { return; }
      UndisturbedIsAtomic(before, cid, status, now);
      UpdateStatus(cid, status, now);
    }

    /** `update_attempt_description`: row by row over the attempts of a commit. */
    method UpdateAttemptDescription(commit: string, description: string, now: int)
      requires Inv(Tables())
      modifies this
      ensures Tables() == Describe(old(Tables()), commit, description, now)
      ensures Inv(Tables())
    {
      hide Core, StatusInv, Strip, Described, Stamped, LacksDescription;
      ghost var before := Tables();
      DescribePreserves(before, commit, description, now);
      var text := Strip(description);
      if commit == "" || text == "" { return; }
      DescribedSoFar(before, commit, description, now);
      for id := 0 to |attempts|
        invariant analyses == before.analyses
        invariant attempts == Described(before, commit, text, id)
        invariant campaigns == Stamped(before, commit, now, id)
      {
        DescribedStep(before, commit, text, now, id);
        if LacksDescription(attempts[id], commit) {
          var c := attempts[id].campaign;
          campaigns := campaigns[c := campaigns[c].(updatedAt := now)];
          attempts := attempts[id := attempts[id].(description := text)];
        }
      }
    }

    /** The importer's loop over one legacy ledger. */
    method ImportLegacy(w: LegacyWorkspace)
      modifies this
      ensures Tables() == ImportWorkspace(old(Tables()), w)
    {
      hide ScoreImproved, BestOf;
      if w.cid in campaigns { return; }
      ghost var before := Tables();
      ghost var scores := LegacyScores(w.rows);
      var base := |attempts|;
      var best: Option<real> := None;
      var bestAttempt: Option<nat> := None;
      assert BestOf(scores[..0], w.policy) == None by { NothingYet(w.policy); }
      for n := 0 to |w.rows|
        invariant campaigns == before.campaigns && analyses == before.analyses
        invariant attempts == before.attempts + LegacyRows(w, n)
        invariant best == BestOf(scores[..n], w.policy)
        invariant bestAttempt == match LastWin(scores, w.policy, n)
                                 case None => None
                                 case Some(k) => Some(base + k)
      {
        var row := w.rows[n];
        var kept := row.status == "ok" && ScoreImproved(row.score, best, w.policy);
        assert kept == WonAt(scores, n, w.policy) by { MissingNeverWins(best, w.policy); }
        var attempt := Attempt(
          w.cid, n + 1, if row.status == "" then "unknown" else row.status, if kept then Kept else Rejected,
          row.score, row.memoryGb, None, w.stamp, Some(w.stamp), row.description, row.description,
          row.commit, "", None, w.policy.budget, "");
        assert attempt == LegacyAttempt(w, n);
        attempts := attempts + [attempt];
        LegacyRowsGrow(before.attempts, w, n);
        BestGrows(scores, n, w.policy);
        if kept {
          best, bestAttempt := row.score, Some(base + n);
        }
      }
      assert scores[..|w.rows|] == scores;
      campaigns := campaigns[w.cid := Campaign(
        w.name, w.experiment, "", "", 12_000, w.policy, Active, w.stamp, None, w.stamp, None,
        best, bestAttempt, None, None)];
    }

    /** The campaign transaction of `initialize_store`: import, then recover from a crash. */
    method InitializeStore(ws: seq<LegacyWorkspace>, now: int)
      requires Inv(Tables()) && forall w :: w in ws ==> ValidPolicy(w.policy)
      modifies this
      ensures Tables() == Startup(old(Tables()), ws, now)
      ensures Inv(Tables()) && !AnyRunning(attempts)
    {
      hide Core, StatusInv, ImportWorkspace, AnyRunning, ValidPolicy;
      ghost var before := Tables();
      StartupPreserves(before, ws, now);
      for n := 0 to |ws|
        invariant Tables() == ImportAll(before, ws[..n])
      {
        ImportLegacy(ws[n]);
        assert ws[..n + 1][..n] == ws[..n];
      }
      assert ws[..|ws|] == ws;
      var rows, table := attempts, campaigns;
      attempts := seq(|rows|, i requires 0 <= i < |rows| => InterruptedRow(rows[i], now));
      campaigns := map c | c in table ::
        if table[c].status == Running then table[c].(status := Active, current := None, updatedAt := now) else table[c];
    }
  }

  lemma NothingYet(p: Policy)
    ensures BestOf([], p) == None
  {
  }

  lemma MissingNeverWins(incumbent: Option<real>, p: Policy)
    ensures !ScoreImproved(None, incumbent, p)
  {
  }

  lemma LegacyRowsGrow(a: seq<Attempt>, w: LegacyWorkspace, n: nat)
    requires n < |w.rows|
    ensures (a + LegacyRows(w, n)) + [LegacyAttempt(w, n)] == a + LegacyRows(w, n + 1)
  {
    hide LegacyAttempt;
  }

  lemma BestGrows(scores: seq<Option<real>>, n: nat, p: Policy)
    requires n < |scores|
    ensures BestOf(scores[..n + 1], p)
         == if WonAt(scores, n, p) then scores[n] else BestOf(scores[..n], p)
  {
    assert scores[..n + 1] == scores[..n] + [scores[n]];
    BestSnoc(scores[..n], scores[n], p);
  }

  /** One of the first n attempts is this campaign's, of this commit and without a description. */
  ghost predicate Touched(db: Db, commit: string, n: nat, c: string) {
    exists i :: 0 <= i < n && i < |db.attempts| && db.attempts[i].campaign == c && LacksDescription(db.attempts[i], commit)
  }

  /** The attempts once the first n have been visited. */
  ghost function Described(db: Db, commit: string, text: string, n: nat): (s: seq<Attempt>)
    ensures |s| == |db.attempts|
  {
    seq(|db.attempts|, i requires 0 <= i < |db.attempts| =>
      if i < n && LacksDescription(db.attempts[i], commit) then db.attempts[i].(description := text) else db.attempts[i])
  }

  /** The campaigns once the first n attempts have been visited. */
  ghost function Stamped(db: Db, commit: string, now: int, n: nat): (m: map<string, Campaign>)
    ensures m.Keys == db.campaigns.Keys
  {
    map c | c in db.campaigns ::
      if Touched(db, commit, n, c) then db.campaigns[c].(updatedAt := now) else db.campaigns[c]
  }

  lemma DescribedSoFar(db: Db, commit: string, description: string, now: int)
    requires commit != "" && Strip(description) != ""
    ensures Described(db, commit, Strip(description), 0) == db.attempts
    ensures Stamped(db, commit, now, 0) == db.campaigns
    ensures Described(db, commit, Strip(description), |db.attempts|) == Describe(db, commit, description, now).attempts
    ensures Stamped(db, commit, now, |db.attempts|) == Describe(db, commit, description, now).campaigns
    ensures Describe(db, commit, description, now).analyses == db.analyses
  {
    hide Strip, LacksDescription;
  }

  lemma DescribedStep(db: Db, commit: string, text: string, now: int, n: nat)
    requires n < |db.attempts| && Inv(db)
    ensures var a, m := Described(db, commit, text, n), Stamped(db, commit, now, n);
      && a[n] == db.attempts[n] && a[n].campaign in m
      && Described(db, commit, text, n + 1)
         == (if LacksDescription(a[n], commit) then a[n := a[n].(description := text)] else a)
      && Stamped(db, commit, now, n + 1)
         == (if LacksDescription(a[n], commit) then m[a[n].campaign := m[a[n].campaign].(updatedAt := now)] else m)
  {
    OwnerExists(db, n);
    hide Core, StatusInv, LacksDescription, Described, Stamped;
    DescribedGrows(db, commit, text, n);
    StampedGrows(db, commit, now, n);
  }

  lemma DescribedGrows(db: Db, commit: string, text: string, n: nat)
    requires n < |db.attempts|
    ensures var a := Described(db, commit, text, n);
      && a[n] == db.attempts[n]
      && Described(db, commit, text, n + 1)
         == (if LacksDescription(a[n], commit) then a[n := a[n].(description := text)] else a)
  {
    hide LacksDescription;
  }

  lemma StampedGrows(db: Db, commit: string, now: int, n: nat)
    requires n < |db.attempts| && db.attempts[n].campaign in db.campaigns
    ensures var m, c := Stamped(db, commit, now, n), db.attempts[n].campaign;
      Stamped(db, commit, now, n + 1)
      == (if LacksDescription(db.attempts[n], commit) then m[c := m[c].(updatedAt := now)] else m)
  {
    hide LacksDescription, Touched;
    forall k ensures Touched(db, commit, n + 1, k)
      <==> Touched(db, commit, n, k) || (db.attempts[n].campaign == k && LacksDescription(db.attempts[n], commit))
    {
      TouchedStep(db, commit, n, k);
    }
  }

  lemma TouchedStep(db: Db, commit: string, n: nat, c: string)
    requires n < |db.attempts|
    ensures Touched(db, commit, n + 1, c)
       <==> Touched(db, commit, n, c) || (db.attempts[n].campaign == c && LacksDescription(db.attempts[n], commit))
  {
    hide LacksDescription;
  }

  lemma OwnerExists(db: Db, n: nat)
    requires Inv(db) && n < |db.attempts|
    ensures db.attempts[n].campaign in db.campaigns
  {
  }
}
