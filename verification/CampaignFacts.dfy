/** What the invariants of the campaign store mean for its users. */
module CampaignFacts {
  import opened Prelude
  import opened Text
  import opened Scores
  import opened Campaigns
  import opened CampaignInvariants
  import opened CampaignRuns

  // ---- Leases are one-shot ----------------------------------------------------------------

  /** A consumed proposal is refused by every later start. */
  lemma ConsumedIsRefused(codec: Codec, db: Db, n: NewAttempt, now: int)
    requires Requested(n).Some?
    requires var id := Requested(n).value;
             0 <= id < |db.analyses| && db.analyses[id].consumedBy.Some?
    ensures StartAttempt(codec, db, n, now).1.Err?
    ensures StartAttempt(codec, db, n, now).0 == db
  {
    hide HistoryOf, BoundHypothesis;
  }

  /** Once consumed, a proposal stays consumed by the same attempt, whatever happens next. */
  lemma ConsumedStays(codec: Codec, db: Db, e: Event, p: nat)
    requires p < |db.analyses| && db.analyses[p].consumedBy.Some?
    ensures var after := Apply(codec, db, e);
            p < |after.analyses| && after.analyses[p].consumedBy == db.analyses[p].consumedBy
  {
    hide HistoryOf, BoundHypothesis, Strip, StopDecision, OutcomesOf, FindLease, ImportAll;
    match e
    case Restart(workspaces, now) => ImportKeepsAnalyses(db, workspaces);
    case _ =>
  }

  lemma {:induction false} ImportKeepsAnalyses(db: Db, ws: seq<LegacyWorkspace>)
    ensures ImportAll(db, ws).analyses == db.analyses
  {
    if ws != [] { ImportKeepsAnalyses(db, ws[..|ws| - 1]); }
  }

  lemma {:induction false} ConsumedForever(codec: Codec, events: seq<Event>, k: nat, p: nat)
    requires k <= |events| && p < |Run(codec, events[..k]).analyses|
    requires Run(codec, events[..k]).analyses[p].consumedBy.Some?
    ensures p < |Run(codec, events).analyses|
    ensures Run(codec, events).analyses[p].consumedBy == Run(codec, events[..k]).analyses[p].consumedBy
  {
    hide Apply;
    var n := |events| - 1;
    if k <= n {
      assert events[..n][..k] == events[..k];
      ConsumedForever(codec, events[..n], k, p);
      ConsumedStays(codec, Run(codec, events[..n]), events[n], p);
    } else {
      assert events[..k] == events;
    }
  }

  /** Over a whole run no two starts succeed with the same proposal. */
  lemma EachProposalStartsOnce(codec: Codec, events: seq<Event>, i: nat, j: nat)
    requires i < j < |events| && events[i].Start? && events[j].Start?
    requires var a, b := events[i].attempt, events[j].attempt;
             Requested(a).Some? && Requested(a) == Requested(b)
    requires StartAttempt(codec, Run(codec, events[..i]), events[i].attempt, events[i].now).1.Ok?
    ensures StartAttempt(codec, Run(codec, events[..j]), events[j].attempt, events[j].now).1.Err?
  {
    var a := events[i].attempt;
    var before := Run(codec, events[..i]);
    var p := Requested(a).value;
    StartConsumes(codec, before, a, events[i].now);
    assert events[..i + 1][..i] == events[..i];
    assert Run(codec, events[..i + 1]) == Apply(codec, before, events[i]);
    assert events[..j][..i + 1] == events[..i + 1];
    hide StartAttempt, Apply, Run;
    ConsumedForever(codec, events[..j], i + 1, p);
    ConsumedIsRefused(codec, Run(codec, events[..j]), events[j].attempt, events[j].now);
  }

  lemma StartConsumes(codec: Codec, db: Db, n: NewAttempt, now: int)
    requires StartAttempt(codec, db, n, now).1.Ok?
    ensures Requested(n).Some?
    ensures var p := Requested(n).value;
            var (after, id) := (StartAttempt(codec, db, n, now).0, StartAttempt(codec, db, n, now).1.value);
            && 0 <= p < |db.analyses| && db.analyses[p].consumedBy.None?
            && |after.analyses| == |db.analyses| && after.analyses[p].consumedBy == Some(id)
            && id < |after.attempts| && after.attempts[id].proposal == Some(p)
  {
    hide HistoryOf, BoundHypothesis;
  }

  // ---- Proposing is idempotent -----------------------------------------------------------------

  lemma {:induction false} FindLeaseIgnoresTime(analyses: seq<Analysis>, a: Analysis, b: Analysis)
    requires a.(createdAt := b.createdAt) == b
    ensures FindLease(analyses, a) == FindLease(analyses, b)
  {
    if analyses != [] { FindLeaseIgnoresTime(analyses[..|analyses| - 1], a, b); }
  }

  /** Making the same proposal again, at any later time, returns the same lease and changes nothing. */
  lemma ProposeIsIdempotent(codec: Codec, db: Db, p: NewProposal, now: int, later: int)
    requires CreateProposal(codec, db, p, now).1.Ok?
    ensures var (after, r) := CreateProposal(codec, db, p, now);
            CreateProposal(codec, after, p, later) == (after, r)
  {
    hide IsProposable, Strip, HistoryState, SameLease;
    var h := HistoryOf(codec, db, p.cid);
    var (after, r) := CreateProposal(codec, db, p, now);
    var row, again := LeaseRow(p, h, now), LeaseRow(p, h, later);
    FindLeaseIgnoresTime(db.analyses, row, again);
    if after != db {
      SameCanonical(codec, db, after, p.cid);
      SameRow(p, h, HistoryOf(codec, after, p.cid), later);
      NewestIsFound(db.analyses, row, again);
    }
  }

  lemma SameRow(p: NewProposal, h: History, k: History, now: int)
    requires h.count == k.count && h.digest == k.digest
    ensures LeaseRow(p, h, now) == LeaseRow(p, k, now)
  {
  }

  lemma NewestIsFound(analyses: seq<Analysis>, row: Analysis, again: Analysis)
    requires row.(createdAt := again.createdAt) == again
    ensures FindLease(analyses + [row], again) == Some(|analyses|)
  {
  }

  // ---- Compatibility analyses authorise nothing --------------------------------------------

  lemma KindStays(codec: Codec, db: Db, e: Event, p: nat)
    requires p < |db.analyses|
    ensures var after := Apply(codec, db, e);
            p < |after.analyses| && after.analyses[p].kind == db.analyses[p].kind
  {
    hide HistoryOf, BoundHypothesis, Strip, StopDecision, OutcomesOf, FindLease, ImportAll;
    match e
    case Restart(workspaces, now) => ImportKeepsAnalyses(db, workspaces);
    case _ =>
  }

  lemma {:induction false} KindForever(codec: Codec, events: seq<Event>, k: nat, p: nat)
    requires k <= |events| && p < |Run(codec, events[..k]).analyses|
    ensures p < |Run(codec, events).analyses|
    ensures Run(codec, events).analyses[p].kind == Run(codec, events[..k]).analyses[p].kind
  {
    hide Apply;
    var n := |events| - 1;
    if k <= n {
      assert events[..n][..k] == events[..k];
      KindForever(codec, events[..n], k, p);
      KindStays(codec, Run(codec, events[..n]), events[n], p);
    } else {
      assert events[..k] == events;
    }
  }

  lemma UnverifiedIsRefused(codec: Codec, db: Db, n: NewAttempt, now: int)
    requires Requested(n).Some? && 0 <= Requested(n).value < |db.analyses|
    requires db.analyses[Requested(n).value].kind == LegacyUnverified
    ensures StartAttempt(codec, db, n, now).1.Err? && StartAttempt(codec, db, n, now).0 == db
  {
    hide BoundHypothesis;
  }

  lemma AnalyzeAppends(codec: Codec, db: Db, cid: string, status: string, text: AnalysisText, now: int)
    requires RecordAnalysis(codec, db, cid, status, text, now).1.Ok?
    ensures var (after, id) := (RecordAnalysis(codec, db, cid, status, text, now).0,
                                RecordAnalysis(codec, db, cid, status, text, now).1.value);
      id < |after.analyses| && after.analyses[id].kind == LegacyUnverified
  {
    hide HistoryOf, Strip;
  }

  /** No later start succeeds with what `record_analysis` returned, whatever status and text it was
      given and whatever happens in between. */
  lemma AnalysisNeverAuthorises(codec: Codec, events: seq<Event>, i: nat, j: nat)
    requires i < j < |events| && events[i].Analyze? && events[j].Start?
    requires var e := events[i];
             var recorded := RecordAnalysis(codec, Run(codec, events[..i]), e.cid, e.status, e.text, e.now).1;
             recorded.Ok? && Requested(events[j].attempt) == Some(recorded.value)
    ensures StartAttempt(codec, Run(codec, events[..j]), events[j].attempt, events[j].now).1.Err?
  {
    var e, before := events[i], Run(codec, events[..i]);
    AnalyzeAppends(codec, before, e.cid, e.status, e.text, e.now);
    var p := RecordAnalysis(codec, before, e.cid, e.status, e.text, e.now).1.value;
    assert events[..i + 1][..i] == events[..i];
    assert Run(codec, events[..i + 1]) == Apply(codec, before, e);
    assert events[..j][..i + 1] == events[..i + 1];
    hide StartAttempt, Apply, Run, RecordAnalysis;
    KindForever(codec, events[..j], i + 1, p);
    UnverifiedIsRefused(codec, Run(codec, events[..j]), events[j].attempt, events[j].now);
  }

  // ---- The current proposal ----------------------------------------------------------------

  /** A proposal that a start could consume against this history. */
  ghost predicate Usable(row: Analysis, cid: string, h: History) {
    row.campaign == cid && row.after == h.count && row.digest == h.digest && IsValidProposal(row, h.required)
  }

  lemma {:induction false} CurrentIsNewest(analyses: seq<Analysis>, cid: string, h: History)
    ensures match CurrentProposal(analyses, cid, h.count, h.digest, h.required)
            case None => forall p :: 0 <= p < |analyses| ==> !Usable(analyses[p], cid, h)
            case Some(id) =>
              && id < |analyses| && Usable(analyses[id], cid, h)
              && forall p :: id < p < |analyses| ==> !Usable(analyses[p], cid, h)
  {
    hide IsValidProposal;
    if analyses != [] {
      var n := |analyses| - 1;
      CurrentIsNewest(analyses[..n], cid, h);
      assert forall p :: 0 <= p < n ==> analyses[..n][p] == analyses[p];
    }
  }

  /** An idle, open campaign can start an attempt if and only if its history names a current proposal. */
  lemma StartableExactly(codec: Codec, db: Db, cid: string, now: int)
    requires cid in db.campaigns && !AnyRunning(db.attempts) && !IsTerminal(db.campaigns[cid].status)
    ensures (exists n: NewAttempt :: n.cid == cid && StartAttempt(codec, db, n, now).1.Ok?)
      <==> HistoryOf(codec, db, cid).current.Some?
  {
    var h := HistoryOf(codec, db, cid);
    CurrentIsNewest(db.analyses, cid, h);
    if h.current.Some? {
      var n := NewAttempt(cid, if h.required == RlmVerified then "" else "h", Some(h.current.value), None, None, "");
      CurrentStarts(codec, db, n, now);
    }
    forall n: NewAttempt | n.cid == cid && StartAttempt(codec, db, n, now).1.Ok? ensures h.current.Some? {
      StartedWasUsable(codec, db, n, now);
    }
  }

  lemma CurrentStarts(codec: Codec, db: Db, n: NewAttempt, now: int)
    requires n.cid in db.campaigns && !AnyRunning(db.attempts) && !IsTerminal(db.campaigns[n.cid].status)
    requires n.proposal.Some? && n.analysis.None? && 0 <= n.proposal.value < |db.analyses|
    requires Usable(db.analyses[n.proposal.value], n.cid, HistoryOf(codec, db, n.cid))
    requires HistoryOf(codec, db, n.cid).required != LegacyUnverified
    requires n.hypothesis == if HistoryOf(codec, db, n.cid).required == RlmVerified then "" else "h"
    ensures StartAttempt(codec, db, n, now).1.Ok?
  {
    hide HistoryOf, IsValidProposal;
    assert Words("", "") == [] && Normalize("") == "";
    OneWord();
  }

  lemma OneWord()
    ensures Normalize("h") == "h"
  {
    assert !IsPySpace('h') && "" + ['h'] == "h" && "h"[1..] == "";
    assert Words("", "h") == Words("h", "") == ["h"];
  }

  lemma StartedWasUsable(codec: Codec, db: Db, n: NewAttempt, now: int)
    requires StartAttempt(codec, db, n, now).1.Ok?
    ensures n.cid in db.campaigns && Requested(n).Some? && 0 <= Requested(n).value < |db.analyses|
    ensures Usable(db.analyses[Requested(n).value], n.cid, HistoryOf(codec, db, n.cid))
  {
    hide HistoryOf, IsValidProposal, BoundHypothesis;
  }

  /** A started attempt's budget lies within its policy's bounds, and is the one asked for, or the
      policy's own when none is, if that lies within them. */
  lemma BudgetIsWithinBounds(codec: Codec, db: Db, n: NewAttempt, now: int)
    requires Core(db) && StartAttempt(codec, db, n, now).1.Ok?
    ensures n.cid in db.campaigns && |StartAttempt(codec, db, n, now).0.attempts| == |db.attempts| + 1
    ensures var p, b := db.campaigns[n.cid].policy, StartAttempt(codec, db, n, now).0.attempts[|db.attempts|].budget;
      && p.budgetMin <= b <= p.budgetMax
      && (n.budget.None? ==> b == p.budget)
      && (n.budget.Some? && p.budgetMin <= n.budget.value <= p.budgetMax ==> b == n.budget.value)
  {
    hide OneRuns, OrdinalInv, LeaseInv, WinnerOf, EarnedAt, HistoryOf, IsValidProposal, BoundHypothesis;
    assert ValidPolicy(db.campaigns[n.cid].policy);
  }

  // ---- Ordinals -------------------------------------------------------------------------

  lemma {:induction false} EntryAt(a: seq<Attempt>, cid: string, k: nat)
    requires k < |Entries(a, cid)|
    ensures var e := Entries(a, cid)[k];
            && e.id < |a| && e.attempt == a[e.id] && e.attempt.campaign == cid
            && |Entries(a[..e.id], cid)| == k
  {
    var n := |a| - 1;
    if k < |Entries(a[..n], cid)| {
      EntryAt(a[..n], cid, k);
      var e := Entries(a, cid)[k];
      assert a[..n][..e.id] == a[..e.id];
    }
  }

  /** A campaign's attempts are numbered 1, 2, ..., n in the order they were made. */
  lemma OrdinalsAreOneToN(db: Db, cid: string)
    requires Core(db)
    ensures forall k :: 0 <= k < |Entries(db.attempts, cid)| ==> Entries(db.attempts, cid)[k].attempt.ordinal == k + 1
  {
    hide OneRuns, StatusInv, LeaseInv, WinnerInv;
    forall k | 0 <= k < |Entries(db.attempts, cid)|
      ensures Entries(db.attempts, cid)[k].attempt.ordinal == k + 1
    {
      EntryAt(db.attempts, cid, k);
    }
  }

  // ---- The winner -----------------------------------------------------------------------

  lemma {:induction false} ScoreAt(a: seq<Attempt>, i: nat)
    requires i < |a|
    ensures var h, k := ScoresOf(a, a[i].campaign), |ScoresOf(a[..i], a[i].campaign)|;
            k < |h| && h[k] == OkScore(a[i]) && h[..k] == ScoresOf(a[..i], a[i].campaign)
  {
    var n := |a| - 1;
    var cid := a[i].campaign;
    hide OkScore;
    if i < n {
      ScoreAt(a[..n], i);
      assert a[..n][..i] == a[..i];
      var h := ScoresOf(a[..n], cid);
      assert ScoresOf(a, cid)[..|h|] == h;
    }
  }

  /** In every reachable store no successful attempt of a campaign beats its best score by more than
      the threshold, and the best attempt is the newest kept one and has that score. */
  lemma WinnerIsUnbeaten(db: Db, i: nat)
    requires Core(db) && i < |db.attempts| && OkScore(db.attempts[i]).Some?
    ensures var c := db.campaigns[db.attempts[i].campaign];
            && c.best.Some? && c.bestAttempt.Some?
            && (if c.policy.direction.Minimize?
                then db.attempts[i].score.value >= c.best.value - c.policy.minDelta - MARGIN
                else db.attempts[i].score.value <= c.best.value + c.policy.minDelta + MARGIN)
            && db.attempts[c.bestAttempt.value].score == c.best
            && forall j :: c.bestAttempt.value < j < |db.attempts| && db.attempts[j].campaign == db.attempts[i].campaign
                           ==> db.attempts[j].decision != Kept
  {
    hide OneRuns, StatusInv, OrdinalInv, LeaseInv, BestOf, ScoresOf, EarnedAt;
    var cid := db.attempts[i].campaign;
    assert cid in db.campaigns && WinnerOf(db, cid);
    ScoreAt(db.attempts, i);
    BestIsUnbeaten(ScoresOf(db.attempts, cid), db.campaigns[cid].policy, |ScoresOf(db.attempts[..i], cid)|);
  }

  /** Which attempts of a campaign were kept, oldest first. */
  function Decisions(attempts: seq<Attempt>, cid: string): seq<bool> {
    if attempts == [] then []
    else
      var n := |attempts| - 1;
      Decisions(attempts[..n], cid) + if attempts[n].campaign == cid then [attempts[n].decision == Kept] else []
  }

  /** The decisions a history of scores earns. */
  function Earned(history: seq<Option<real>>, p: Policy): (r: seq<bool>)
    ensures |r| == |history|
  {
    seq(|history|, i requires 0 <= i < |history| => WonAt(history, i, p))
  }

  lemma EarnedSnoc(h: seq<Option<real>>, x: Option<real>, p: Policy)
    ensures Earned(h + [x], p) == Earned(h, p) + [ScoreImproved(x, BestOf(h, p), p)]
  {
    hide BestOf, ScoreImproved;
    var full := h + [x];
    assert full[..|h|] == h;
    forall i | 0 <= i < |h| ensures Earned(full, p)[i] == Earned(h, p)[i] {
      assert full[..i] == h[..i] && full[i] == h[i];
    }
  }

  lemma {:induction false} DecisionsPrefix(db: Db, cid: string, n: nat)
    requires WinnerInv(db) && cid in db.campaigns && n <= |db.attempts|
    ensures Decisions(db.attempts[..n], cid) == Earned(ScoresOf(db.attempts[..n], cid), db.campaigns[cid].policy)
  {
    hide BestOf, ScoreImproved, OkScore, ValidPolicy, WinnerOf, WonAt;
    if n > 0 {
      DecisionsPrefix(db, cid, n - 1);
      var a := db.attempts[n - 1];
      assert db.attempts[..n][..n - 1] == db.attempts[..n - 1];
      assert EarnedAt(db, n - 1);
      if a.campaign == cid {
        EarnedSnoc(ScoresOf(db.attempts[..n - 1], cid), OkScore(a), db.campaigns[cid].policy);
      } else {
        var h, d := ScoresOf(db.attempts[..n - 1], cid), Decisions(db.attempts[..n - 1], cid);
        assert h + [] == h && d + [] == d;
      }
    }
  }

  /** Every decision in a reachable store, made live or by the legacy importer, is the one its
      campaign's scores earn; so the same scores always earn the same decisions and winner. */
  lemma DecisionsAreEarned(db: Db, cid: string)
    requires Core(db) && cid in db.campaigns
    ensures Decisions(db.attempts, cid) == Earned(ScoresOf(db.attempts, cid), db.campaigns[cid].policy)
    ensures db.campaigns[cid].best == BestOf(ScoresOf(db.attempts, cid), db.campaigns[cid].policy)
  {
    DecisionsPrefix(db, cid, |db.attempts|);
    assert db.attempts[..|db.attempts|] == db.attempts;
    assert WinnerOf(db, cid);
  }

  function CountKept(decisions: seq<bool>): nat {
    if decisions == [] then 0
    else CountKept(decisions[..|decisions| - 1]) + if decisions[|decisions| - 1] then 1 else 0
  }

  lemma {:induction false} EarnedCount(h: seq<Option<real>>, p: Policy)
    ensures CountKept(Earned(h, p)) == Wins(h, p)
  {
    hide BestOf, ScoreImproved, Earned;
    if h == [] {
      assert Earned(h, p) == [];
    } else {
      var n := |h| - 1;
      assert h == h[..n] + [h[n]];
      EarnedSnoc(h[..n], h[n], p);
      EarnedCount(h[..n], p);
      assert Earned(h, p)[..n] == Earned(h[..n], p);
    }
  }

  /** k > 1 kept attempts put a campaign's best score more than (k - 1) thresholds ahead of its first. */
  lemma KeptAttemptsImprove(db: Db, cid: string)
    requires Core(db) && cid in db.campaigns && CountKept(Decisions(db.attempts, cid)) > 1
    ensures var c, k, h := db.campaigns[cid], CountKept(Decisions(db.attempts, cid)), ScoresOf(db.attempts, cid);
      && c.best.Some? && Baseline(h).Some?
      && (if c.policy.direction.Minimize? then Baseline(h).value - c.best.value else c.best.value - Baseline(h).value)
         > (k - 1) as real * (c.policy.minDelta + MARGIN) > (k - 1) as real * c.policy.minDelta
  {
    hide Core, BestOf, Wins, Baseline, Earned, Decisions, CountKept, ScoresOf;
    var h, p := ScoresOf(db.attempts, cid), db.campaigns[cid].policy;
    DecisionsAreEarned(db, cid);
    PolicyIsValid(db, cid);
    EarnedCount(h, p);
    assert CountKept(Decisions(db.attempts, cid)) == Wins(h, p);
    WinnersImprove(h, p);
  }

  lemma PolicyIsValid(db: Db, cid: string)
    requires Core(db) && cid in db.campaigns
    ensures db.campaigns[cid].policy.minDelta >= 0.0
  {
    hide WinnerOf, EarnedAt;
    assert ValidPolicy(db.campaigns[cid].policy);
  }

  lemma {:induction false} SamePolicySameBest(h: seq<Option<real>>, p: Policy, q: Policy)
    requires p.direction == q.direction && p.minDelta == q.minDelta
    ensures BestOf(h, p) == BestOf(h, q)
  {
    if h != [] { SamePolicySameBest(h[..|h| - 1], p, q); }
  }

  /** The position of the last decision to keep. */
  function LastKept(decisions: seq<bool>): Option<nat> {
    if decisions == [] then None
    else
      var n := |decisions| - 1;
      if decisions[n] then Some(n) else LastKept(decisions[..n])
  }

  lemma {:induction false} LastKeptFrom(a: seq<Attempt>, cid: string, best: Option<nat>)
    requires best.Some? ==> best.value < |a| && a[best.value].campaign == cid && a[best.value].decision == Kept
    requires forall j :: 0 <= j < |a| && (best.Some? ==> best.value < j) && a[j].campaign == cid ==> a[j].decision != Kept
    ensures LastKept(Decisions(a, cid)) == if best.Some? then Some(|Entries(a[..best.value], cid)|) else None
  {
    if a != [] {
      var n := |a| - 1;
      var d := Decisions(a[..n], cid);
      DecisionsCount(a[..n], cid);
      assert Decisions(a, cid)[..|d|] == d;
      assert a[n].campaign != cid ==> Decisions(a, cid) == d;
      if best != Some(n) {
        LastKeptFrom(a[..n], cid, best);
        if best.Some? { assert a[..n][..best.value] == a[..best.value]; }
      }
    }
  }

  lemma {:induction false} DecisionsCount(a: seq<Attempt>, cid: string)
    ensures |Decisions(a, cid)| == |Entries(a, cid)|
  {
    if a != [] { DecisionsCount(a[..|a| - 1], cid); }
  }

  /** The best attempt is the last one kept: its number in the campaign is that decision's. */
  lemma BestIsLastDecision(db: Db, cid: string)
    requires Core(db) && cid in db.campaigns
    ensures match db.campaigns[cid].bestAttempt
            case None => LastKept(Decisions(db.attempts, cid)) == None
            case Some(b) =>
              && b < |db.attempts| && db.attempts[b].campaign == cid && db.attempts[b].ordinal > 0
              && LastKept(Decisions(db.attempts, cid)) == Some(db.attempts[b].ordinal - 1)
  {
    hide OneRuns, LeaseInv, EarnedAt, BestOf, ScoresOf, ValidPolicy, Decisions, LastKept;
    assert WinnerOf(db, cid);
    LastKeptFrom(db.attempts, cid, db.campaigns[cid].bestAttempt);
  }

  /** A campaign run live and a campaign imported from a ledger with the same outcomes agree. */
  lemma ImportMatchesLive(live: Db, imported: Db, c: string, d: string)
    requires Core(live) && Core(imported) && c in live.campaigns && d in imported.campaigns
    requires ScoresOf(live.attempts, c) == ScoresOf(imported.attempts, d)
    requires live.campaigns[c].policy.direction == imported.campaigns[d].policy.direction
    requires live.campaigns[c].policy.minDelta == imported.campaigns[d].policy.minDelta
    ensures Decisions(live.attempts, c) == Decisions(imported.attempts, d)
    ensures live.campaigns[c].best == imported.campaigns[d].best
    ensures match (live.campaigns[c].bestAttempt, imported.campaigns[d].bestAttempt)
            case (Some(a), Some(b)) =>
              && a < |live.attempts| && live.attempts[a].campaign == c
              && b < |imported.attempts| && imported.attempts[b].campaign == d
              && live.attempts[a].ordinal == imported.attempts[b].ordinal
            case (None, None) => true
            case _ => false
  {
    hide Core, BestOf, ScoresOf;
    BestIsLastDecision(live, c);
    BestIsLastDecision(imported, d);
    var h, p, q := ScoresOf(live.attempts, c), live.campaigns[c].policy, imported.campaigns[d].policy;
    DecisionsAreEarned(live, c);
    DecisionsAreEarned(imported, d);
    SamePolicySameBest(h, p, q);
    forall i | 0 <= i < |h| ensures WonAt(h, i, p) == WonAt(h, i, q) {
      SamePolicySameBest(h[..i], p, q);
    }
    assert Earned(h, p) == Earned(h, q);
  }

  // ---- The attempt limit ------------------------------------------------------------------

  /** The crash recoveries and manual reopens of a campaign in a run. */
  function Interventions(codec: Codec, events: seq<Event>, cid: string): nat {
    if events == [] then 0
    else
      var n := |events| - 1;
      var db := Run(codec, events[..n]);
      Interventions(codec, events[..n], cid)
      + if cid in db.campaigns && Intervenes(db.campaigns[cid], events[n], cid) then 1 else 0
  }

  predicate Intervenes(c: Campaign, e: Event, cid: string) {
    || (e.Restart? && c.status == Running)
    || (e.Restate? && e.cid == cid && e.to == Active && IsTerminal(c.status))
  }

  /** With x interventions so far a campaign has at most m + x attempts, and fewer while it is open. */
  ghost predicate WithinLimit(db: Db, cid: string, x: nat)
    requires cid in db.campaigns
  {
    var c, n := db.campaigns[cid], |Entries(db.attempts, cid)|;
    c.policy.maxAttempts > 0 ==>
      n <= c.policy.maxAttempts + x && (c.status == Active ==> n < c.policy.maxAttempts + x)
  }

  lemma {:induction false} OutcomesCount(a: seq<Attempt>, cid: string)
    ensures |OutcomesOf(a, cid)| == |Entries(a, cid)|
  {
    if a != [] { OutcomesCount(a[..|a| - 1], cid); }
  }

  lemma CreateWithin(db: Db, n: NewCampaign, now: int, cid: string, x: nat)
    requires OneRuns(db) && cid in CreateCampaign(db, n, now).0.campaigns
    requires cid in db.campaigns ==> WithinLimit(db, cid, x)
    ensures WithinLimit(CreateCampaign(db, n, now).0, cid, x)
  {
    if cid !in db.campaigns { NoneOf(db.attempts, cid); }
  }

  lemma StartWithin(codec: Codec, db: Db, n: NewAttempt, now: int, cid: string, x: nat)
    requires RunningIsReal(db) && cid in db.campaigns && WithinLimit(db, cid, x)
    ensures WithinLimit(StartAttempt(codec, db, n, now).0, cid, x)
  {
    hide HistoryOf, BoundHypothesis, ClampBudget, Entries;
    if StartAttempt(codec, db, n, now).1.Ok? {
      NoneIsRunning(db);
      hide RunningIsReal;
      var after := StartAttempt(codec, db, n, now).0;
      EntriesGrow(db.attempts, after.attempts[|db.attempts|], cid);
      assert after.attempts == db.attempts + [after.attempts[|db.attempts|]];
    }
  }

  lemma FinishWithin(db: Db, id: nat, r: Report, now: int, cid: string, x: nat)
    requires cid in db.campaigns && WithinLimit(db, cid, x)
    ensures WithinLimit(FinishAttempt(db, id, r, now).0, cid, x)
  {
    hide Entries, OutcomesOf, ScoreImproved, Trailing, TargetReached;
    var after := FinishAttempt(db, id, r, now).0;
    if after != db {
      EntriesSame(db.attempts, after.attempts, cid);
      OutcomesCount(after.attempts, cid);
    }
  }

  lemma DescribeWithin(db: Db, commit: string, description: string, now: int, cid: string, x: nat)
    requires cid in db.campaigns && WithinLimit(db, cid, x)
    ensures WithinLimit(Describe(db, commit, description, now), cid, x)
  {
    hide Entries, Strip, LacksDescription;
    EntriesSame(db.attempts, Describe(db, commit, description, now).attempts, cid);
  }

  lemma {:induction false} ImportLeavesAlone(db: Db, ws: seq<LegacyWorkspace>, cid: string)
    requires forall w :: w in ws ==> w.cid != cid
    ensures cid in ImportAll(db, ws).campaigns <==> cid in db.campaigns
    ensures cid in db.campaigns ==> ImportAll(db, ws).campaigns[cid] == db.campaigns[cid]
    ensures |Entries(ImportAll(db, ws).attempts, cid)| == |Entries(db.attempts, cid)|
  {
    hide Entries, BestOf, LastWin, LegacyScores, LegacyAttempt;
    if ws != [] {
      var last := ws[|ws| - 1];
      assert last in ws && forall w :: w in ws[..|ws| - 1] ==> w in ws;
      ImportLeavesAlone(db, ws[..|ws| - 1], cid);
      var before := ImportAll(db, ws[..|ws| - 1]);
      ImportedViews(before.attempts, last, |last.rows|, cid);
      if last.cid !in before.campaigns {
        assert ImportWorkspace(before, last).attempts == before.attempts + LegacyRows(last, |last.rows|);
      }
    }
  }

  lemma RestartWithin(db: Db, ws: seq<LegacyWorkspace>, now: int, cid: string, x: nat)
    requires forall w :: w in ws ==> w.cid != cid
    requires cid in Startup(db, ws, now).campaigns
    ensures cid in db.campaigns
    ensures WithinLimit(db, cid, x) ==>
      WithinLimit(Startup(db, ws, now), cid, x + if db.campaigns[cid].status == Running then 1 else 0)
  {
    hide Entries, ImportAll;
    ImportLeavesAlone(db, ws, cid);
    EntriesSame(ImportAll(db, ws).attempts, Startup(db, ws, now).attempts, cid);
  }

  lemma StepWithin(codec: Codec, db: Db, e: Event, cid: string, x: nat)
    requires OneRuns(db) && RunningIsReal(db) && cid in Apply(codec, db, e).campaigns
    requires e.Restart? ==> forall w :: w in e.workspaces ==> w.cid != cid
    requires cid in db.campaigns ==> WithinLimit(db, cid, x)
    ensures WithinLimit(Apply(codec, db, e), cid,
                        x + if cid in db.campaigns && Intervenes(db.campaigns[cid], e, cid) then 1 else 0)
  {
    hide OneRuns, StatusInv, OrdinalInv, LeaseInv, WinnerInv, HistoryOf, Strip, Entries;
    match e
    case Create(campaign, now) => CreateWithin(db, campaign, now, cid, x);
    case Start(attempt, now) =>
      hide Intervenes, StartAttempt;
      assert cid in db.campaigns by { StartKeys(codec, db, attempt, now); }
      StartWithin(codec, db, attempt, now, cid, x);
      assert !Intervenes(db.campaigns[cid], e, cid) by { OnlyTwoIntervene(db.campaigns[cid], e, cid); }
    case Finish(id, report, now) => FinishWithin(db, id, report, now, cid, x);
    case Annotate(commit, description, now) => DescribeWithin(db, commit, description, now, cid, x);
    case Restart(workspaces, now) => RestartWithin(db, workspaces, now, cid, x);
    case Restate(c, to, now) =>
      if db.campaigns[cid].current.None? { assert db.campaigns[cid].status != Running; }
    case _ =>
  }

  lemma InvIsReal(db: Db)
    requires Inv(db)
    ensures OneRuns(db) && RunningIsReal(db)
  {
    hide OrdinalInv, LeaseInv, WinnerInv;
  }

  lemma StartKeys(codec: Codec, db: Db, n: NewAttempt, now: int)
    ensures StartAttempt(codec, db, n, now).0.campaigns.Keys == db.campaigns.Keys
  {
    hide HistoryOf, BoundHypothesis;
  }

  lemma OnlyTwoIntervene(c: Campaign, e: Event, cid: string)
    requires !e.Restart? && !e.Restate?
    ensures !Intervenes(c, e, cid)
  {
  }

  /** The attempt limit bounds every run of a created campaign: at most `maxAttempts` attempts, plus
      one for every crash recovery and every manual reopen. */
  lemma {:induction false} AttemptsAreBounded(codec: Codec, events: seq<Event>, cid: string)
    requires forall e :: e in events ==>
      Proper(e) && (e.Restart? ==> forall w :: w in e.workspaces ==> w.cid != cid)
    requires cid in Run(codec, events).campaigns
    ensures WithinLimit(Run(codec, events), cid, Interventions(codec, events, cid))
  {
    hide Inv, OneRuns, RunningIsReal, WithinLimit, Proper, Apply, Intervenes;
    var n := |events| - 1;
    assert events[n] in events && forall e :: e in events[..n] ==> e in events;
    var before := Run(codec, events[..n]);
    ReachableInv(codec, events[..n]);
    InvIsReal(before);
    if cid in before.campaigns { AttemptsAreBounded(codec, events[..n], cid); }
    StepWithin(codec, before, events[n], cid, Interventions(codec, events[..n], cid));
  }
}
