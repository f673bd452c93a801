/** What the operations of the campaign store promise, said of the tables and the numbers in them: whom
    they refuse, and what the ones they accept leave (`campaigns.py`, `experiments.py`). */
module CampaignLaws {
  import opened Prelude
  import opened Text
  import opened Scores
  import opened Campaigns

  // ---- The history -----------------------------------------------------------------------------------

  /** The entries of a campaign are exactly its attempts, in the order of their ids. */
  lemma {:induction false} EntriesAreItsAttempts(a: seq<Attempt>, cid: string)
    ensures var E := Entries(a, cid);
      && (forall k :: 0 <= k < |E| ==> E[k].id < |a| && E[k].attempt == a[E[k].id] && a[E[k].id].campaign == cid)
      && (forall j, k :: 0 <= j < k < |E| ==> E[j].id < E[k].id)
      && (forall i :: 0 <= i < |a| && a[i].campaign == cid ==> exists k :: 0 <= k < |E| && E[k].id == i)
  {
    if a != [] {
      var n := |a| - 1;
      EntriesAreItsAttempts(a[..n], cid);
      var E, F := Entries(a, cid), Entries(a[..n], cid);
      forall i | 0 <= i < |a| && a[i].campaign == cid ensures exists k :: 0 <= k < |E| && E[k].id == i {
        if i < n {
          assert a[..n][i] == a[i];
          var k :| 0 <= k < |F| && F[k].id == i;
          assert E[k] == F[k];
        } else {
          assert E[|F|].id == i;
        }
      }
    }
  }

  /** Two campaigns have the same canonical history if and only if they have the same experiment, goal,
      improvement run and policy and the same attempts, whatever proposals those consumed: neither
      analyses nor a campaign's name, status or winner show in it. */
  lemma CanonicalExactly(c: Campaign, d: Campaign, es: seq<Entry>, fs: seq<Entry>)
    ensures Canonical(c, es) == Canonical(d, fs)
      <==> && c.experiment == d.experiment && c.goal == d.goal && c.improvementRun == d.improvementRun
           && c.policy == d.policy && |es| == |fs|
           && forall k :: 0 <= k < |es| ==>
                es[k].id == fs[k].id && es[k].attempt.(proposal := None) == fs[k].attempt.(proposal := None)
  {
    var a, b := Canonical(c, es), Canonical(d, fs);
    if a == b {
      assert a[0] == b[0];
      forall k | 0 <= k < |es|
        ensures es[k].id == fs[k].id && es[k].attempt.(proposal := None) == fs[k].attempt.(proposal := None)
      {
        assert a[k + 1] == b[k + 1];
      }
    }
  }

  /** A campaign's canonical history as text. */
  function HistoryText(codec: Codec, db: Db, cid: string): string
    requires cid in db.campaigns
  {
    codec.render(Canonical(db.campaigns[cid], Entries(db.attempts, cid)))
  }

  // ---- create_proposal ---------------------------------------------------------------------------------

  /** A proposal is accepted if and only if it comes with the evidence its kind asks for and names the
      digest that the campaign's history has now; a refusal changes nothing. */
  lemma ProposesExactly(codec: Codec, db: Db, p: NewProposal, now: int)
    ensures var (after, r) := CreateProposal(codec, db, p, now);
      && (r.Ok?
          <==> && p.cid in db.campaigns
               && Strip(p.digest) != "" && Strip(p.digest) == codec.sha256(HistoryText(codec, db, p.cid))
               && p.recursions >= 0
               && match p.kind
                  case LegacyUnverified => false
                  case Freeform => Strip(p.text.recommendation) == ""
                  case RlmVerified =>
                    && Strip(p.contextId) != "" && Strip(p.runId) != "" && Strip(p.text.recommendation) != ""
                    && p.text.citations != [] && p.recursions > 0)
      && (r.Err? ==> after == db)
  {
    hide Strip, FindLease, Entries, CurrentProposal;
  }

  /** An accepted proposal is a row with what was proposed, for the history it named: a new row that
      nobody has consumed, or one that was there. Only the campaign's stamp changes besides. */
  lemma ProposedAs(codec: Codec, db: Db, p: NewProposal, now: int)
    requires CreateProposal(codec, db, p, now).1.Ok?
    ensures var (after, r) := CreateProposal(codec, db, p, now);
      && r.value < |after.analyses| && p.cid in db.campaigns
      && var row := after.analyses[r.value];
      && row.campaign == p.cid && row.kind == p.kind && row.digest == Strip(p.digest)
      && row.after == |Entries(db.attempts, p.cid)| && row.recursions == p.recursions
      && row.contextId == Strip(p.contextId) && row.runId == Strip(p.runId)
      && row.text.citations == p.text.citations && row.text.recommendation == Strip(p.text.recommendation)
      && row.text.query == Strip(p.text.query) && row.text.response == p.text.response
      && row.text.reasoning == p.text.reasoning && row.text.error == p.text.error
      && if r.value < |db.analyses| then after == db
         else
           && r.value == |db.analyses| && row.consumedBy.None? && row.status == "completed" && row.createdAt == now
           && after.analyses == db.analyses + [row] && after.attempts == db.attempts
           && after.campaigns == db.campaigns[p.cid := db.campaigns[p.cid].(updatedAt := now)]
  {
    hide Strip, Entries, CurrentProposal;
  }

  /** A compatibility analysis of a known campaign is a new row for the history as it is now, of the kind that
      nothing accepts and without any evidence; only the campaign's stamp changes besides. */
  lemma RecordsAs(codec: Codec, db: Db, cid: string, status: string, text: AnalysisText, now: int)
    ensures var (after, r) := RecordAnalysis(codec, db, cid, status, text, now);
      && (r.Ok? <==> cid in db.campaigns)
      && (r.Err? ==> after == db)
      && (r.Ok? ==>
            && r.value == |db.analyses| && after.analyses[..r.value] == db.analyses
            && |after.analyses| == r.value + 1 && after.attempts == db.attempts
            && after.campaigns == db.campaigns[cid := db.campaigns[cid].(updatedAt := now)]
            && var row := after.analyses[r.value];
            && row.campaign == cid && row.kind == LegacyUnverified && row.status == status && row.createdAt == now
            && row.digest == codec.sha256(HistoryText(codec, db, cid)) && row.after == |Entries(db.attempts, cid)|
            && row.text.query == Strip(text.query) && row.text.response == text.response
            && row.text.reasoning == text.reasoning && row.text.error == text.error
            && row.text.recommendation == "" && row.text.citations == [] && row.contextId == "" && row.runId == ""
            && row.recursions == 0 && row.consumedBy.None?)
  {
    hide Strip, Entries, CurrentProposal;
  }

  // ---- start_attempt -----------------------------------------------------------------------------------

  /** A start is accepted if and only if one proposal is named, nothing runs, the campaign is open, and the
      proposal is the campaign's own, unconsumed, for its present attempt count and digest, and of the kind
      that the length of the history asks for: verified, with its evidence and at most its own
      recommendation as hypothesis, once the history has as many characters as the threshold; freeform,
      with a hypothesis, before. A refusal changes nothing. */
  lemma StartsExactly(codec: Codec, db: Db, n: NewAttempt, now: int)
    ensures var (after, r) := StartAttempt(codec, db, n, now);
      && (r.Ok?
          <==> && (n.proposal.Some? || n.analysis.Some?)
               && (n.proposal.Some? && n.analysis.Some? ==> n.proposal == n.analysis)
               && n.cid in db.campaigns
               && (forall i :: 0 <= i < |db.attempts| ==> db.attempts[i].status != "running")
               && db.campaigns[n.cid].status !in {Completed, Failed, Cancelled}
               && var id := if n.proposal.Some? then n.proposal.value else n.analysis.value;
               && 0 <= id < |db.analyses|
               && Consumable(codec, db, n.cid, n.hypothesis, db.analyses[id]))
      && (r.Err? ==> after == db)
  {
    hide Strip, Normalize, Entries, CurrentProposal, ClampBudget;
  }

  ghost predicate Consumable(codec: Codec, db: Db, cid: string, hypothesis: string, lease: Analysis)
    requires cid in db.campaigns
  {
    var history := HistoryText(codec, db, cid);
    && lease.campaign == cid && lease.status == "completed" && lease.consumedBy.None?
    && lease.after == |Entries(db.attempts, cid)| && lease.digest == codec.sha256(history)
    && if |history| >= db.campaigns[cid].threshold then
         && lease.kind == RlmVerified
         && Strip(lease.contextId) != "" && Strip(lease.runId) != "" && Strip(lease.text.recommendation) != ""
         && lease.text.citations != [] && lease.recursions > 0
         && (Normalize(hypothesis) == "" || Normalize(hypothesis) == Normalize(lease.text.recommendation))
       else
         lease.kind == Freeform && Strip(lease.text.recommendation) == "" && Normalize(hypothesis) != ""
  }

  /** An accepted start is a new row, running and undecided, with the next number, the hypothesis it was
      bound to, a budget within the policy and the tree it was approved for; it consumes its proposal and
      occupies its campaign, and nothing else changes. */
  lemma StartedAs(codec: Codec, db: Db, n: NewAttempt, now: int)
    requires StartAttempt(codec, db, n, now).1.Ok?
    ensures var (after, r) := StartAttempt(codec, db, n, now);
      var id := if n.proposal.Some? then n.proposal else n.analysis;
      && n.cid in db.campaigns && id.Some? && 0 <= id.value < |db.analyses|
      && r.value == |db.attempts| && |after.attempts| == |db.attempts| + 1
      && after.attempts[..r.value] == db.attempts
      && var row, lease, c := after.attempts[r.value], db.analyses[id.value], db.campaigns[n.cid];
      && row.campaign == n.cid && row.ordinal == |Entries(db.attempts, n.cid)| + 1
      && row.status == "running" && row.decision == Pending && row.startedAt == now && row.finishedAt.None?
      && row.proposal == Some(id.value) && row.tree == n.tree && row.commit == "" && row.score.None?
      && row.hypothesis
         == (if |HistoryText(codec, db, n.cid)| >= c.threshold
             then Normalize(lease.text.recommendation) else Normalize(n.hypothesis))
      && after.analyses == db.analyses[id.value := lease.(consumedBy := Some(r.value))]
      && after.campaigns == db.campaigns[n.cid := c.(
           status := Running, current := Some(r.value), updatedAt := now, finishedAt := None, stopReason := None,
           startedAt := if c.startedAt.None? then Some(now) else c.startedAt)]
  {
    hide Strip, Normalize, Entries, CurrentProposal, ClampBudget;
  }

  // ---- finish_attempt ----------------------------------------------------------------------------------

  /** The report's score is better than the incumbent's by more than the least improvement the policy
      counts: lower when the metric is minimized, higher when it is maximized. */
  predicate Better(score: real, incumbent: real, p: Policy) {
    match p.direction
    case Minimize => score < incumbent - p.minDelta - 0.000000000001
    case Maximize => score > incumbent + p.minDelta + 0.000000000001
  }

  /** A finish is accepted if and only if the attempt is running. It is kept if and only if the run was
      ok and had a score, and either there was no best score or this one is better; the kept attempt is
      then its campaign's best, and otherwise the best one stays. */
  lemma FinishesExactly(db: Db, id: nat, r: Report, now: int)
    ensures var (after, done) := FinishAttempt(db, id, r, now);
      && (done.Ok?
          <==> id < |db.attempts| && db.attempts[id].status == "running" && db.attempts[id].campaign in db.campaigns)
      && (done.Err? ==> after == db)
      && (done.Ok? ==>
            var cid := db.attempts[id].campaign;
            var c := db.campaigns[cid];
            && |after.attempts| == |db.attempts| && cid in after.campaigns
            && var row, c' := after.attempts[id], after.campaigns[cid];
            && var kept := r.status == "ok" && r.score.Some? && (c.best.Some? ==> Better(r.score.value, c.best.value, c.policy));
            && done.value == row.decision == (if kept then Kept else Rejected)
            && c'.best == (if kept then r.score else c.best)
            && c'.bestAttempt == (if kept then Some(id) else c.bestAttempt))
  {
    hide StopDecision, OutcomesOf, Strip;
  }

  /** A finish records the report in the attempt's row, frees the campaign, and changes nothing else. */
  lemma FinishedAs(db: Db, id: nat, r: Report, now: int)
    requires FinishAttempt(db, id, r, now).1.Ok?
    ensures var after := FinishAttempt(db, id, r, now).0;
      && id < |db.attempts| == |after.attempts| && after.analyses == db.analyses
      && (forall i :: 0 <= i < |db.attempts| && i != id ==> after.attempts[i] == db.attempts[i])
      && var prior, row, cid := db.attempts[id], after.attempts[id], db.attempts[id].campaign;
      && row == prior.(
           status := r.status, decision := row.decision, score := r.score, memoryGb := r.memoryGb,
           elapsedMs := row.elapsedMs, finishedAt := Some(now), commit := r.commit, logsTail := r.logsTail,
           description := Strip(r.description))
      && row.elapsedMs.Some? && row.elapsedMs.value >= 0 && (r.elapsedMs >= 0 ==> row.elapsedMs.value == r.elapsedMs)
      && cid in db.campaigns && after.campaigns.Keys == db.campaigns.Keys
      && (forall k :: k in db.campaigns && k != cid ==> after.campaigns[k] == db.campaigns[k])
      && var c, c' := db.campaigns[cid], after.campaigns[cid];
      && c'.current.None? && c'.updatedAt == now
      && c' == c.(status := c'.status, updatedAt := now, current := None, best := c'.best,
                  bestAttempt := c'.bestAttempt, finishedAt := c'.finishedAt, stopReason := c'.stopReason)
  {
    hide StopDecision, OutcomesOf, Strip, ScoreImproved;
  }

  // ---- The stop policy ---------------------------------------------------------------------------------

  /** The last k attempts of a campaign all have a status other than ok. */
  ghost predicate LastFailed(es: seq<Entry>, k: nat) {
    k <= |es| && forall i :: |es| - k <= i < |es| ==> es[i].attempt.status != "ok"
  }

  /** The last k attempts of a campaign all were not kept. */
  ghost predicate LastLost(es: seq<Entry>, k: nat) {
    k <= |es| && forall i :: |es| - k <= i < |es| ==> es[i].attempt.decision != Kept
  }

  lemma {:induction false} OutcomesAreEntries(a: seq<Attempt>, cid: string)
    ensures |OutcomesOf(a, cid)| == |Entries(a, cid)|
    ensures forall k :: 0 <= k < |Entries(a, cid)| ==>
      OutcomesOf(a, cid)[k] == Outcome(Entries(a, cid)[k].attempt.status, Entries(a, cid)[k].attempt.decision)
  {
    if a != [] { OutcomesAreEntries(a[..|a| - 1], cid); }
  }

  lemma TrailingReaches(outcomes: seq<Outcome>, marked: Outcome -> bool, k: nat)
    ensures k <= Trailing(outcomes, marked)
      <==> k <= |outcomes| && forall i :: |outcomes| - k <= i < |outcomes| ==> !marked(outcomes[i])
  {
    var t := Trailing(outcomes, marked);
    if t < k && k <= |outcomes| { assert marked(outcomes[|outcomes| - t - 1]); }
  }

  /** When and why a finished attempt closes its campaign: its best score has reached the target; else its
      last attempts, as many as the policy tolerates, all failed; else it has had its attempts; else as
      many as the policy has patience for were not kept. Only failures make the campaign failed. */
  lemma StopsExactly(db: Db, id: nat, r: Report, now: int)
    requires FinishAttempt(db, id, r, now).1.Ok?
    ensures var after := FinishAttempt(db, id, r, now).0;
      && id < |db.attempts| && db.attempts[id].campaign in after.campaigns
      && var cid := db.attempts[id].campaign;
      && var c, es := after.campaigns[cid], Entries(after.attempts, cid);
      && var p := c.policy;
      && var reached := p.target.Some? && c.best.Some?
           && match p.direction
              case Minimize => c.best.value <= p.target.value
              case Maximize => c.best.value >= p.target.value;
      && var failed := p.maxFailures > 0 && LastFailed(es, p.maxFailures);
      && var spent := p.maxAttempts > 0 && |es| >= p.maxAttempts;
      && var tired := p.patience > 0 && LastLost(es, p.patience);
      && (if reached then c.stopReason == Some("target_reached") && c.status == Completed
          else if failed then c.stopReason == Some("max_failures") && c.status == Failed
          else if spent then c.stopReason == Some("max_attempts") && c.status == Completed
          else if tired then c.stopReason == Some("patience_exhausted") && c.status == Completed
          else c.stopReason.None? && c.status == Active)
      && c.finishedAt == (if c.status == Active then None else Some(now))
  {
    hide Strip, ScoreImproved, Trailing, Entries, OutcomesOf;
    var after := FinishAttempt(db, id, r, now).0;
    var cid := db.attempts[id].campaign;
    var outcomes, p := OutcomesOf(after.attempts, cid), after.campaigns[cid].policy;
    OutcomesAreEntries(after.attempts, cid);
    if p.maxFailures > 0 { TrailingReaches(outcomes, IsOk(), p.maxFailures); }
    if p.patience > 0 { TrailingReaches(outcomes, IsKept(), p.patience); }
  }

  // ---- The other operations ----------------------------------------------------------------------------

  /** A status is set if and only if it is not running and the campaign is there and names no attempt; a
      closing status is dated and gives its reason, an opening one takes both away. */
  lemma RestatesExactly(db: Db, cid: string, to: CampaignStatus, now: int)
    ensures var (after, r) := SetStatus(db, cid, to, now);
      && (r.Ok? <==> to != Running && cid in db.campaigns && db.campaigns[cid].current.None?)
      && (r.Err? ==> after == db)
      && (r.Ok? ==>
            && after.attempts == db.attempts && after.analyses == db.analyses
            && after.campaigns.Keys == db.campaigns.Keys
            && (forall k :: k in db.campaigns && k != cid ==> after.campaigns[k] == db.campaigns[k])
            && var c, c' := db.campaigns[cid], after.campaigns[cid];
            && c'.status == to && c'.updatedAt == now
            && c' == c.(status := to, updatedAt := now, finishedAt := c'.finishedAt, stopReason := c'.stopReason)
            && (to == Active ==> c'.finishedAt.None? && c'.stopReason.None?)
            && (to != Active ==> c'.finishedAt == Some(now) && c'.stopReason.Some?)
            && (to == Completed ==> c'.stopReason == Some("manual_completed"))
            && (to == Failed ==> c'.stopReason == Some("manual_failed"))
            && (to == Cancelled ==> c'.stopReason == Some("manual_cancelled")))
  {
  }

  /** A recovery rejects exactly the attempts that were running and opens exactly the campaigns that were;
      rows keep everything else. */
  lemma RecoversExactly(db: Db, now: int)
    ensures var after := Recover(db, now);
      && |after.attempts| == |db.attempts| && after.analyses == db.analyses
      && after.campaigns.Keys == db.campaigns.Keys
      && (forall i :: 0 <= i < |db.attempts| ==>
            var a, b := db.attempts[i], after.attempts[i];
            if a.status == "running" then
              && b == a.(status := "interrupted", decision := Rejected, finishedAt := Some(now), elapsedMs := b.elapsedMs)
              && b.elapsedMs.Some? && (a.elapsedMs.Some? ==> b.elapsedMs == a.elapsedMs)
            else b == a)
      && (forall c :: c in db.campaigns ==>
            if db.campaigns[c].status == Running
            then after.campaigns[c] == db.campaigns[c].(status := Active, current := None, updatedAt := now)
            else after.campaigns[c] == db.campaigns[c])
  {
  }

  /** Describing a commit fills the empty descriptions of its attempts, never overwrites one, and stamps
      exactly the campaigns of those it fills; a blank text or a missing commit fills nothing. */
  lemma DescribesExactly(db: Db, commit: string, description: string, now: int)
    ensures var after, text := Describe(db, commit, description, now), Strip(description);
      && |after.attempts| == |db.attempts| && after.analyses == db.analyses
      && after.campaigns.Keys == db.campaigns.Keys
      && (forall i :: 0 <= i < |db.attempts| ==>
            var a := db.attempts[i];
            after.attempts[i]
            == if commit != "" && text != "" && a.commit == commit && a.description == ""
               then a.(description := text) else a)
      && (forall c :: c in db.campaigns ==>
            after.campaigns[c]
            == if exists i :: 0 <= i < |db.attempts| && db.attempts[i].campaign == c && after.attempts[i] != db.attempts[i]
               then db.campaigns[c].(updatedAt := now) else db.campaigns[c])
  {
    hide Strip;
    var after, text := Describe(db, commit, description, now), Strip(description);
    if commit != "" && text != "" {
      forall c | c in db.campaigns
        ensures (exists i :: 0 <= i < |db.attempts| && db.attempts[i].campaign == c && LacksDescription(db.attempts[i], commit))
          <==> exists i :: 0 <= i < |db.attempts| && db.attempts[i].campaign == c && after.attempts[i] != db.attempts[i]
      {
        FilledExactly(db, after, commit, text, c);
      }
    }
  }

  lemma FilledExactly(db: Db, after: Db, commit: string, text: string, c: string)
    requires text != "" && |after.attempts| == |db.attempts|
    requires forall i :: 0 <= i < |db.attempts| ==>
      after.attempts[i]
      == if LacksDescription(db.attempts[i], commit) then db.attempts[i].(description := text) else db.attempts[i]
    ensures (exists i :: 0 <= i < |db.attempts| && db.attempts[i].campaign == c && LacksDescription(db.attempts[i], commit))
      <==> exists i :: 0 <= i < |db.attempts| && db.attempts[i].campaign == c && after.attempts[i] != db.attempts[i]
  {
  }

  /** A campaign is created or described anew if and only if its threshold, its improvement run and the
      policy of its experiment are legal; a new one is open and has nothing, a known one keeps its policy,
      its status, its winner and everything that its attempts made of it. */
  lemma CreatesExactly(db: Db, n: NewCampaign, now: int)
    ensures var (after, r) := CreateCampaign(db, n, now);
      var run := Strip(n.improvementRun);
      && (r.Ok?
          <==> && (n.threshold.Some? ==> n.threshold.value >= 1)
               && |run| <= 128
               && (forall c :: c in run ==>
                     'A' <= c <= 'Z' || 'a' <= c <= 'z' || '0' <= c <= '9' || c == '.' || c == '_' || c == '-')
               && n.policy.Some?
               && var p := n.policy.value;
               && 1 <= p.budgetMin <= p.budget <= p.budgetMax <= 3600
               && p.maxAttempts >= 0 && p.patience >= 0 && p.maxFailures >= 0 && p.minDelta >= 0.0)
      && (r.Err? ==> after == db)
      && (r.Ok? ==>
            && after.attempts == db.attempts && after.analyses == db.analyses
            && after.campaigns.Keys == db.campaigns.Keys + {n.cid}
            && (forall k :: k in db.campaigns && k != n.cid ==> after.campaigns[k] == db.campaigns[k])
            && var c := after.campaigns[n.cid];
            && c.experiment == n.experiment && c.goal == Strip(n.goal) && c.updatedAt == now
            && c.name == (if Strip(n.name) == "" then n.experiment else Strip(n.name))
            && c.threshold == (if n.threshold.None? then 12000 else n.threshold.value)
            && if n.cid in db.campaigns then
                 && var b := db.campaigns[n.cid];
                 && c.improvementRun == (if run == "" then b.improvementRun else run)
                 && c == b.(name := c.name, experiment := c.experiment, goal := c.goal, updatedAt := now,
                            threshold := c.threshold, improvementRun := c.improvementRun)
               else
                 && c.improvementRun == run && c.policy == n.policy.value && c.status == Active && c.createdAt == now
                 && c.startedAt.None? && c.finishedAt.None? && c.best.None? && c.bestAttempt.None?
                 && c.current.None? && c.stopReason.None?)
  {
    hide Strip;
  }

  /** An unknown legacy workspace becomes an open campaign with one finished attempt for every row of its
      ledger, in order; a known one is left alone, and so is everything else. */
  lemma ImportsAs(db: Db, w: LegacyWorkspace)
    ensures var after := ImportWorkspace(db, w);
      if w.cid in db.campaigns then after == db
      else
        && after.analyses == db.analyses && |after.attempts| == |db.attempts| + |w.rows|
        && after.attempts[..|db.attempts|] == db.attempts
        && after.campaigns.Keys == db.campaigns.Keys + {w.cid}
        && (forall k :: k in db.campaigns ==> after.campaigns[k] == db.campaigns[k])
        && (forall i :: 0 <= i < |w.rows| ==>
              var a, row := after.attempts[|db.attempts| + i], w.rows[i];
              && a.campaign == w.cid && a.ordinal == i + 1 && a.commit == row.commit && a.score == row.score
              && a.memoryGb == row.memoryGb && a.hypothesis == a.description == row.description
              && a.status == (if row.status == "" then "unknown" else row.status)
              && a.decision in {Kept, Rejected} && a.proposal.None? && a.startedAt == w.stamp
              && a.finishedAt == Some(w.stamp) && a.budget == w.policy.budget)
        && var c := after.campaigns[w.cid];
        && c.name == w.name && c.experiment == w.experiment && c.policy == w.policy && c.status == Active
        && c.threshold == 12000 && c.current.None? && c.stopReason.None? && c.createdAt == c.updatedAt == w.stamp
  {
    hide WonAt, BestOf, LastWin;
  }
}
