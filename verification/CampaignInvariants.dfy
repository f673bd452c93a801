/** What every reachable campaign store satisfies. */
module CampaignInvariants {
  import opened Prelude
  import opened Text
  import opened Scores
  import opened Campaigns

  // ---- The invariants -------------------------------------------------------------------

  /** At most one attempt runs, it is its campaign's newest, and its campaign names it. */
  ghost predicate OneRuns(db: Db) {
    var A, C := db.attempts, db.campaigns;
    && (forall i :: 0 <= i < |A| ==> A[i].campaign in C)
    && (forall i :: 0 <= i < |A| ==> (A[i].decision == Pending <==> A[i].status == "running"))
    && (forall i, j :: 0 <= i < |A| && 0 <= j < |A| && A[i].status == "running" && A[j].status == "running" ==> i == j)
    && (forall i :: 0 <= i < |A| && A[i].status == "running" ==> C[A[i].campaign].current == Some(i))
    && (forall i, j :: 0 <= i < j < |A| && A[i].status == "running" ==> A[j].campaign != A[i].campaign)
  }

  /** A campaign is running exactly when it names an attempt, and that attempt is running. */
  ghost predicate StatusInv(db: Db) {
    var A, C := db.attempts, db.campaigns;
    && (forall c :: c in C ==> (C[c].status == Running <==> C[c].current.Some?))
    && (forall c :: c in C && C[c].current.Some? ==>
          var i := C[c].current.value; i < |A| && A[i].campaign == c && A[i].status == "running")
  }

  /** A campaign that is running names its running attempt. */
  ghost predicate RunningIsReal(db: Db) {
    forall c :: c in db.campaigns && db.campaigns[c].status == Running ==>
      && db.campaigns[c].current.Some?
      && var i := db.campaigns[c].current.value;
         i < |db.attempts| && db.attempts[i].campaign == c && db.attempts[i].status == "running"
  }

  /** A campaign's ordinals count its attempts. */
  ghost predicate OrdinalInv(db: Db) {
    forall i :: 0 <= i < |db.attempts| ==>
      db.attempts[i].ordinal == |Entries(db.attempts[..i], db.attempts[i].campaign)| + 1
  }

  /** What `create_proposal` stores. */
  ghost predicate IsLease(row: Analysis) {
    && row.kind != LegacyUnverified && row.status == "completed"
    && (row.kind == Freeform ==> Strip(row.text.recommendation) == "")
    && (row.kind == RlmVerified ==>
          Strip(row.contextId) != "" && Strip(row.runId) != "" && Strip(row.text.recommendation) != ""
          && row.text.citations != [] && row.recursions > 0)
  }

  /** Consumption pairs proposals and attempts one to one, and a proposal is consumed by the attempt
      that follows the history it was made for. */
  ghost predicate LeaseInv(db: Db) {
    var A, L := db.attempts, db.analyses;
    && (forall p :: 0 <= p < |L| ==> L[p].campaign in db.campaigns && L[p].after <= |Entries(A, L[p].campaign)|)
    && (forall p :: 0 <= p < |L| ==> L[p].kind == LegacyUnverified || IsLease(L[p]))
    && (forall i :: 0 <= i < |A| && A[i].proposal.Some? ==>
          var p := A[i].proposal.value;
          p < |L| && L[p].consumedBy == Some(i) && L[p].campaign == A[i].campaign && L[p].after + 1 == A[i].ordinal)
    && (forall p :: 0 <= p < |L| && L[p].consumedBy.Some? ==>
          var i := L[p].consumedBy.value; i < |A| && A[i].proposal == Some(p))
  }

  /** The decision on attempt i is the one its score earned against the attempts before it. */
  ghost predicate EarnedAt(db: Db, i: nat)
    requires i < |db.attempts| && db.attempts[i].campaign in db.campaigns
  {
    var a := db.attempts[i];
    var p := db.campaigns[a.campaign].policy;
    a.decision == Kept <==> ScoreImproved(OkScore(a), BestOf(ScoresOf(db.attempts[..i], a.campaign), p), p)
  }

  /** A campaign's winner is the fold of its scores, held by its newest kept attempt. */
  ghost predicate WinnerOf(db: Db, c: string)
    requires c in db.campaigns
  {
    var A, row := db.attempts, db.campaigns[c];
    && row.best == BestOf(ScoresOf(A, c), row.policy)
    && (row.best.Some? <==> row.bestAttempt.Some?)
    && (row.bestAttempt.Some? ==>
          var b := row.bestAttempt.value;
          && b < |A| && A[b].campaign == c && A[b].decision == Kept && A[b].score == row.best
          && forall i :: b < i < |A| && A[i].campaign == c ==> A[i].decision != Kept)
    && (row.bestAttempt.None? ==> forall i :: 0 <= i < |A| && A[i].campaign == c ==> A[i].decision != Kept)
  }

  ghost predicate WinnerInv(db: Db) {
    && (forall c :: c in db.campaigns ==> ValidPolicy(db.campaigns[c].policy))
    && (forall i :: 0 <= i < |db.attempts| ==> db.attempts[i].campaign in db.campaigns && EarnedAt(db, i))
    && (forall c :: c in db.campaigns ==> WinnerOf(db, c))
  }

  /** What no interleaving can break. */
  ghost predicate Core(db: Db) {
    OneRuns(db) && OrdinalInv(db) && LeaseInv(db) && WinnerInv(db)
  }

  ghost predicate Inv(db: Db) {
    Core(db) && StatusInv(db)
  }

  // ---- Frames: what the per-campaign views depend on --------------------------------------

  lemma {:induction false} EntriesSame(a: seq<Attempt>, b: seq<Attempt>, cid: string)
    requires |a| == |b| && forall i :: 0 <= i < |a| ==> a[i].campaign == b[i].campaign
    ensures |Entries(a, cid)| == |Entries(b, cid)|
  {
    if a != [] {
      EntriesSame(a[..|a| - 1], b[..|b| - 1], cid);
    }
  }

  lemma {:induction false} ScoresSame(a: seq<Attempt>, b: seq<Attempt>, cid: string)
    requires |a| == |b| && forall i :: 0 <= i < |a| ==> a[i].campaign == b[i].campaign
    requires forall i :: 0 <= i < |a| && a[i].campaign == cid ==> OkScore(a[i]) == OkScore(b[i])
    ensures ScoresOf(a, cid) == ScoresOf(b, cid)
  {
    if a != [] {
      ScoresSame(a[..|a| - 1], b[..|b| - 1], cid);
    }
  }

  /** The attempts of two stores agree on who they belong to and what they consumed. */
  ghost predicate SameShape(a: seq<Attempt>, b: seq<Attempt>) {
    && |a| == |b|
    && forall i :: 0 <= i < |a| ==>
         a[i].campaign == b[i].campaign && a[i].ordinal == b[i].ordinal && a[i].proposal == b[i].proposal
  }

  /** They agree on earned scores and winners too. */
  ghost predicate SameHistory(a: seq<Attempt>, b: seq<Attempt>) {
    && SameShape(a, b)
    && forall i :: 0 <= i < |a| ==>
         OkScore(a[i]) == OkScore(b[i]) && (a[i].decision == Kept <==> b[i].decision == Kept)
         && (b[i].decision == Kept ==> a[i].score == b[i].score)
  }

  /** The campaigns of two stores agree on their winners. */
  ghost predicate SameWinners(a: map<string, Campaign>, b: map<string, Campaign>) {
    && a.Keys == b.Keys
    && forall c :: c in a ==> a[c].policy == b[c].policy && a[c].best == b[c].best
                              && a[c].bestAttempt == b[c].bestAttempt
  }

  /** The stores agree on what is running. */
  ghost predicate SameRunning(a: Db, b: Db) {
    && |a.attempts| == |b.attempts|
    && (forall i :: 0 <= i < |a.attempts| ==>
          a.attempts[i].campaign == b.attempts[i].campaign
          && (a.attempts[i].status == "running" <==> b.attempts[i].status == "running")
          && (a.attempts[i].decision == Pending <==> b.attempts[i].decision == Pending))
    && a.campaigns.Keys <= b.campaigns.Keys
    && (forall c :: c in a.campaigns ==> b.campaigns[c].current == a.campaigns[c].current)
  }

  /** No campaign starts or stops running; new campaigns are idle. */
  ghost predicate SameStatus(a: Db, b: Db) {
    forall c :: c in b.campaigns ==>
      if c in a.campaigns then b.campaigns[c].status == Running <==> a.campaigns[c].status == Running
      else b.campaigns[c].current.None? && b.campaigns[c].status != Running
  }

  lemma RunningFrame(before: Db, after: Db)
    requires OneRuns(before) && SameRunning(before, after)
    ensures OneRuns(after)
  {
    var A, B := before.attempts, after.attempts;
    forall i, j | 0 <= i < |B| && 0 <= j < |B| && B[i].status == "running" && B[j].status == "running" ensures i == j {
      assert A[i].status == "running" && A[j].status == "running";
    }
    forall i, j | 0 <= i < j < |B| && B[i].status == "running" ensures B[j].campaign != B[i].campaign {
      assert A[i].status == "running";
    }
  }

  lemma StatusFrame(before: Db, after: Db)
    requires StatusInv(before) && SameRunning(before, after) && SameStatus(before, after)
    ensures StatusInv(after)
  {
    forall c | c in after.campaigns && after.campaigns[c].current.Some?
      ensures var i := after.campaigns[c].current.value;
        i < |after.attempts| && after.attempts[i].campaign == c && after.attempts[i].status == "running"
    {
      assert c in before.campaigns;
    }
  }

  lemma OrdinalFrame(before: Db, after: Db)
    requires OrdinalInv(before) && SameShape(before.attempts, after.attempts)
    ensures OrdinalInv(after)
  {
    forall i | 0 <= i < |after.attempts|
      ensures after.attempts[i].ordinal == |Entries(after.attempts[..i], after.attempts[i].campaign)| + 1
    {
      EntriesSame(before.attempts[..i], after.attempts[..i], after.attempts[i].campaign);
    }
  }

  lemma WinnerFrame(before: Db, after: Db)
    requires WinnerInv(before) && SameHistory(before.attempts, after.attempts)
    requires SameWinners(before.campaigns, after.campaigns)
    ensures WinnerInv(after)
  {
    hide BestOf, ScoreImproved, ScoresOf, OkScore, ValidPolicy;
    forall i | 0 <= i < |after.attempts| ensures after.attempts[i].campaign in after.campaigns && EarnedAt(after, i) {
      assert EarnedAt(before, i);
      ScoresSame(before.attempts[..i], after.attempts[..i], after.attempts[i].campaign);
    }
    forall c | c in after.campaigns ensures WinnerOf(after, c) {
      assert WinnerOf(before, c);
      ScoresSame(before.attempts, after.attempts, c);
    }
  }

  /** New analyses may be added, unconsumed and no younger than their campaign's history. */
  ghost predicate OnlyNewAnalyses(before: Db, after: Db) {
    && before.campaigns.Keys <= after.campaigns.Keys
    && |before.analyses| <= |after.analyses|
    && (forall p :: 0 <= p < |before.analyses| ==> after.analyses[p] == before.analyses[p])
    && forall p :: |before.analyses| <= p < |after.analyses| ==>
         var row := after.analyses[p];
         && row.campaign in after.campaigns && row.after <= |Entries(before.attempts, row.campaign)|
         && row.consumedBy.None? && (row.kind == LegacyUnverified || IsLease(row))
  }

  lemma LeaseFrame(before: Db, after: Db)
    requires LeaseInv(before) && SameShape(before.attempts, after.attempts) && OnlyNewAnalyses(before, after)
    ensures LeaseInv(after)
  {
    hide IsLease;
    forall p | 0 <= p < |after.analyses|
      ensures after.analyses[p].after <= |Entries(after.attempts, after.analyses[p].campaign)|
    {
      EntriesSame(before.attempts, after.attempts, after.analyses[p].campaign);
    }
  }

  lemma Frame(before: Db, after: Db)
    requires Core(before) && SameRunning(before, after) && SameHistory(before.attempts, after.attempts)
    requires SameWinners(before.campaigns, after.campaigns) && OnlyNewAnalyses(before, after)
    ensures Core(after)
    ensures StatusInv(before) && SameStatus(before, after) ==> StatusInv(after)
  {
    hide OneRuns, OrdinalInv, LeaseInv, WinnerInv, StatusInv, SameRunning, SameStatus, SameShape, SameWinners,
      OnlyNewAnalyses;
    RunningFrame(before, after);
    OrdinalFrame(before, after);
    LeaseFrame(before, after);
    WinnerFrame(before, after);
    if StatusInv(before) && SameStatus(before, after) { StatusFrame(before, after); }
  }

  // ---- Operations that leave the history alone ----------------------------------------------

  lemma CreatePreserves(db: Db, n: NewCampaign, now: int)
    requires Core(db)
    ensures Core(CreateCampaign(db, n, now).0)
    ensures StatusInv(db) ==> StatusInv(CreateCampaign(db, n, now).0)
  {
    hide OneRuns, StatusInv, OrdinalInv, LeaseInv, WinnerInv, Strip, IsRunId, ValidPolicy;
    var after := CreateCampaign(db, n, now).0;
    if after != db {
      if n.cid in db.campaigns {
        Frame(db, after);
      } else {
        RunningFrame(db, after);
        if StatusInv(db) { StatusFrame(db, after); }
        OrdinalFrame(db, after);
        LeaseFrame(db, after);
        FirstWinners(db, after, n.cid);
      }
    }
  }

  /** A campaign without attempts has no winner. */
  lemma FirstWinners(before: Db, after: Db, cid: string)
    requires OneRuns(before) && WinnerInv(before) && cid !in before.campaigns
    requires after.attempts == before.attempts && after.campaigns.Keys == before.campaigns.Keys + {cid}
    requires forall c :: c in before.campaigns ==> after.campaigns[c] == before.campaigns[c]
    requires after.campaigns[cid].best.None? && after.campaigns[cid].bestAttempt.None?
    requires ValidPolicy(after.campaigns[cid].policy)
    ensures WinnerInv(after)
  {
    hide ValidPolicy, EarnedAt, WinnerOf;
    NoneOf(before.attempts, cid);
    forall c | c in after.campaigns ensures WinnerOf(after, c) {
      if c == cid { NoWinner(after, c); } else { SameWinnerOf(before, after, c); }
    }
    forall i | 0 <= i < |after.attempts| ensures after.attempts[i].campaign in after.campaigns && EarnedAt(after, i) {
      SameEarnedAt(before, after, i);
    }
  }

  lemma NoWinner(db: Db, c: string)
    requires c in db.campaigns && db.campaigns[c].best.None? && db.campaigns[c].bestAttempt.None?
    requires forall i :: 0 <= i < |db.attempts| ==> db.attempts[i].campaign != c
    ensures WinnerOf(db, c)
  {
    NoneOf(db.attempts, c);
  }

  lemma SameWinnerOf(before: Db, after: Db, c: string)
    requires c in before.campaigns && c in after.campaigns && WinnerOf(before, c)
    requires after.attempts == before.attempts && after.campaigns[c] == before.campaigns[c]
    ensures WinnerOf(after, c)
  {
  }

  lemma SameEarnedAt(before: Db, after: Db, i: nat)
    requires i < |before.attempts| && before.attempts[i].campaign in before.campaigns
    requires after.attempts == before.attempts && before.attempts[i].campaign in after.campaigns
    requires before.campaigns[before.attempts[i].campaign] == after.campaigns[before.attempts[i].campaign]
    requires EarnedAt(before, i)
    ensures EarnedAt(after, i)
  {
  }

  lemma {:induction false} NoneOf(a: seq<Attempt>, cid: string)
    requires forall i :: 0 <= i < |a| ==> a[i].campaign != cid
    ensures ScoresOf(a, cid) == [] && Entries(a, cid) == []
  {
    if a != [] { NoneOf(a[..|a| - 1], cid); }
  }

  lemma ProposePreserves(codec: Codec, db: Db, p: NewProposal, now: int)
    requires Core(db)
    ensures Core(CreateProposal(codec, db, p, now).0)
    ensures StatusInv(db) ==> StatusInv(CreateProposal(codec, db, p, now).0)
  {
    hide OneRuns, StatusInv, OrdinalInv, LeaseInv, WinnerInv, Strip, HistoryOf, FindLease;
    var after := CreateProposal(codec, db, p, now).0;
    if after != db {
      StripTwice(p.text.recommendation);
      StripTwice(p.contextId);
      StripTwice(p.runId);
      Frame(db, after);
    }
  }

  lemma AnalyzePreserves(codec: Codec, db: Db, cid: string, status: string, text: AnalysisText, now: int)
    requires Core(db)
    ensures Core(RecordAnalysis(codec, db, cid, status, text, now).0)
    ensures StatusInv(db) ==> StatusInv(RecordAnalysis(codec, db, cid, status, text, now).0)
  {
    hide OneRuns, StatusInv, OrdinalInv, LeaseInv, WinnerInv, Strip, HistoryOf;
    var after := RecordAnalysis(codec, db, cid, status, text, now).0;
    if after != db { Frame(db, after); }
  }

  lemma IdleIsNotRunning(db: Db, c: string)
    requires StatusInv(db) && c in db.campaigns && db.campaigns[c].current.None?
    ensures db.campaigns[c].status != Running
  {
  }

  lemma RestatePreserves(db: Db, cid: string, to: CampaignStatus, now: int)
    requires Core(db)
    ensures Core(SetStatus(db, cid, to, now).0)
    ensures StatusInv(db) ==> StatusInv(SetStatus(db, cid, to, now).0)
  {
    hide OneRuns, StatusInv, OrdinalInv, LeaseInv, WinnerInv;
    var after := SetStatus(db, cid, to, now).0;
    if after != db {
      if StatusInv(db) { IdleIsNotRunning(db, cid); }
      Frame(db, after);
    }
  }

  lemma DescribePreserves(db: Db, commit: string, description: string, now: int)
    requires Core(db)
    ensures Core(Describe(db, commit, description, now))
    ensures StatusInv(db) ==> StatusInv(Describe(db, commit, description, now))
  {
    hide OneRuns, StatusInv, OrdinalInv, LeaseInv, WinnerInv, Strip, LacksDescription;
    var after := Describe(db, commit, description, now);
    assert after.campaigns.Keys == db.campaigns.Keys;
    Frame(db, after);
  }

  // ---- Starting an attempt ---------------------------------------------------------------

  lemma NothingRuns(db: Db)
    requires StatusInv(db) && !AnyRunning(db.attempts)
    ensures forall c :: c in db.campaigns ==> db.campaigns[c].current.None? && db.campaigns[c].status != Running
  {
  }

  lemma NoneIsRunning(db: Db)
    requires RunningIsReal(db) && !AnyRunning(db.attempts)
    ensures forall c :: c in db.campaigns ==> db.campaigns[c].status != Running
  {
  }

  lemma EntriesGrow(a: seq<Attempt>, row: Attempt, cid: string)
    ensures |Entries(a + [row], cid)| == |Entries(a, cid)| + if row.campaign == cid then 1 else 0
    ensures ScoresOf(a + [row], cid) == ScoresOf(a, cid) + if row.campaign == cid then [OkScore(row)] else []
  {
    assert (a + [row])[..|a|] == a;
  }

  /** A new running attempt at the end of the table. */
  ghost predicate Started(before: Db, after: Db, cid: string, proposal: nat) {
    var n, A, L := |before.attempts|, before.attempts, before.analyses;
    && cid in before.campaigns && proposal < |L|
    && |after.attempts| == n + 1 && after.attempts[..n] == A
    && var row := after.attempts[n];
    && row.campaign == cid && row.status == "running" && row.decision == Pending
    && row.ordinal == |Entries(A, cid)| + 1 && row.proposal == Some(proposal)
    && L[proposal].campaign == cid && L[proposal].after == |Entries(A, cid)| && L[proposal].consumedBy.None?
    && after.analyses == L[proposal := L[proposal].(consumedBy := Some(n))]
    && after.campaigns.Keys == before.campaigns.Keys
    && (forall c :: c in before.campaigns && c != cid ==> after.campaigns[c] == before.campaigns[c])
    && after.campaigns[cid].status == Running && after.campaigns[cid].current == Some(n)
    && after.campaigns[cid].policy == before.campaigns[cid].policy
    && after.campaigns[cid].best == before.campaigns[cid].best
    && after.campaigns[cid].bestAttempt == before.campaigns[cid].bestAttempt
  }

  lemma StartedRunning(before: Db, after: Db, cid: string, proposal: nat)
    requires OneRuns(before) && !AnyRunning(before.attempts) && Started(before, after, cid, proposal)
    ensures OneRuns(after)
  {
    var n := |before.attempts|;
    forall i | 0 <= i < n ensures after.attempts[i] == before.attempts[i] && after.attempts[i].status != "running" {
      assert after.attempts[..n][i] == after.attempts[i];
    }
  }

  lemma StartedStatus(before: Db, after: Db, cid: string, proposal: nat)
    requires StatusInv(before) && !AnyRunning(before.attempts) && Started(before, after, cid, proposal)
    ensures StatusInv(after)
  {
    NothingRuns(before);
  }

  lemma StartedOrdinals(before: Db, after: Db, cid: string, proposal: nat)
    requires OrdinalInv(before) && Started(before, after, cid, proposal)
    ensures OrdinalInv(after)
  {
    var n := |before.attempts|;
    forall i | 0 <= i < |after.attempts|
      ensures after.attempts[i].ordinal == |Entries(after.attempts[..i], after.attempts[i].campaign)| + 1
    {
      if i < n {
        assert after.attempts[i] == after.attempts[..n][i];
        assert after.attempts[..i] == before.attempts[..i];
      }
    }
  }

  lemma StartedLeases(before: Db, after: Db, cid: string, proposal: nat)
    requires LeaseInv(before) && Started(before, after, cid, proposal)
    ensures LeaseInv(after)
  {
    hide Started, IsLease, Entries;
    forall p | 0 <= p < |after.analyses|
      ensures after.analyses[p].campaign in after.campaigns
      ensures after.analyses[p].after <= |Entries(after.attempts, after.analyses[p].campaign)|
      ensures after.analyses[p].kind == LegacyUnverified || IsLease(after.analyses[p])
    {
      StartedLease(before, after, cid, proposal, p);
    }
    forall i | 0 <= i < |after.attempts| && after.attempts[i].proposal.Some? { StartedPair(before, after, cid, proposal, i); }
    forall p | 0 <= p < |after.analyses| && after.analyses[p].consumedBy.Some? {
      StartedConsumer(before, after, cid, proposal, p);
    }
  }

  lemma StartedPair(before: Db, after: Db, cid: string, proposal: nat, i: nat)
    requires LeaseInv(before) && Started(before, after, cid, proposal)
    requires i < |after.attempts| && after.attempts[i].proposal.Some?
    ensures var p, L := after.attempts[i].proposal.value, after.analyses;
      && p < |L| && L[p].consumedBy == Some(i) && L[p].campaign == after.attempts[i].campaign
      && L[p].after + 1 == after.attempts[i].ordinal
  {
    hide IsLease, Entries;
    var n := |before.attempts|;
    if i < n { assert after.attempts[i] == after.attempts[..n][i] == before.attempts[i]; }
  }

  lemma StartedConsumer(before: Db, after: Db, cid: string, proposal: nat, p: nat)
    requires LeaseInv(before) && Started(before, after, cid, proposal)
    requires p < |after.analyses| && after.analyses[p].consumedBy.Some?
    ensures var i := after.analyses[p].consumedBy.value;
      i < |after.attempts| && after.attempts[i].proposal == Some(p)
  {
    hide IsLease, Entries;
    var n := |before.attempts|;
    if p != proposal {
      var i := before.analyses[p].consumedBy.value;
      assert after.attempts[i] == after.attempts[..n][i] == before.attempts[i];
    }
  }

  lemma StartedLease(before: Db, after: Db, cid: string, proposal: nat, p: nat)
    requires LeaseInv(before) && Started(before, after, cid, proposal) && p < |after.analyses|
    ensures after.analyses[p].campaign in after.campaigns
    ensures after.analyses[p].after <= |Entries(after.attempts, after.analyses[p].campaign)|
    ensures after.analyses[p].kind == LegacyUnverified || IsLease(after.analyses[p])
  {
    hide IsLease, Entries;
    var row := after.attempts[|before.attempts|];
    assert after.attempts == before.attempts + [row];
    EntriesGrow(before.attempts, row, after.analyses[p].campaign);
    SameLeaseText(before.analyses[p], after.analyses[p]);
  }

  lemma SameLeaseText(a: Analysis, b: Analysis)
    requires a.(consumedBy := None) == b.(consumedBy := None)
    ensures IsLease(a) <==> IsLease(b)
  {
  }

  /** A new row that earned nothing leaves every winner in place. */
  lemma WinnerOfGrows(before: Db, after: Db, row: Attempt, c: string)
    requires c in before.campaigns && c in after.campaigns && WinnerOf(before, c)
    requires after.attempts == before.attempts + [row] && row.decision != Kept
    requires row.campaign == c ==> OkScore(row).None?
    requires after.campaigns[c].policy == before.campaigns[c].policy
    requires after.campaigns[c].best == before.campaigns[c].best
    requires after.campaigns[c].bestAttempt == before.campaigns[c].bestAttempt
    ensures WinnerOf(after, c)
  {
    hide BestOf, ScoresOf, OkScore;
    EntriesGrow(before.attempts, row, c);
    MissingKeepsBest(ScoresOf(before.attempts, c), after.campaigns[c].policy);
    assert ScoresOf(before.attempts, c) + [] == ScoresOf(before.attempts, c);
  }

  lemma EarnedAtGrows(before: Db, after: Db, i: nat)
    requires i < |before.attempts| <= |after.attempts| && after.attempts[..|before.attempts|] == before.attempts
    requires before.attempts[i].campaign in before.campaigns && before.attempts[i].campaign in after.campaigns
    requires after.campaigns[before.attempts[i].campaign].policy == before.campaigns[before.attempts[i].campaign].policy
    requires EarnedAt(before, i)
    ensures after.attempts[i] == before.attempts[i] && EarnedAt(after, i)
  {
    hide BestOf, ScoresOf, OkScore, ScoreImproved;
    assert after.attempts[i] == after.attempts[..|before.attempts|][i];
    assert after.attempts[..i] == before.attempts[..i];
  }

  lemma StartedWinners(before: Db, after: Db, cid: string, proposal: nat)
    requires WinnerInv(before) && Started(before, after, cid, proposal)
    ensures WinnerInv(after)
  {
    hide ScoreImproved, ValidPolicy, Entries, EarnedAt, WinnerOf;
    var n := |before.attempts|;
    var row := after.attempts[n];
    assert after.attempts == before.attempts + [row];
    forall i | 0 <= i < |after.attempts| ensures after.attempts[i].campaign in after.campaigns && EarnedAt(after, i) {
      if i < n { EarnedAtGrows(before, after, i); } else { NotEarned(after, i); }
    }
    forall c | c in after.campaigns ensures WinnerOf(after, c) {
      WinnerOfGrows(before, after, row, c);
    }
  }

  lemma NotEarned(db: Db, i: nat)
    requires i < |db.attempts| && db.attempts[i].campaign in db.campaigns
    requires db.attempts[i].decision != Kept && OkScore(db.attempts[i]).None?
    ensures EarnedAt(db, i)
  {
  }

  lemma MissingKeepsBest(history: seq<Option<real>>, p: Policy)
    ensures BestOf(history + [None], p) == BestOf(history, p)
  {
    assert (history + [None])[..|history|] == history;
  }

  lemma StartPreserves(codec: Codec, db: Db, n: NewAttempt, now: int)
    requires Core(db)
    ensures Core(StartAttempt(codec, db, n, now).0)
    ensures StatusInv(db) ==> StatusInv(StartAttempt(codec, db, n, now).0)
  {
    hide OneRuns, StatusInv, OrdinalInv, LeaseInv, WinnerInv, HistoryOf, BoundHypothesis, ClampBudget;
    var after := StartAttempt(codec, db, n, now).0;
    if StartAttempt(codec, db, n, now).1.Ok? {
      var proposal := AdmitAttempt(codec, db, n).value.0;
      assert Started(db, after, n.cid, proposal);
      hide StartAttempt, AdmitAttempt, Started;
      StartedRunning(db, after, n.cid, proposal);
      if StatusInv(db) { StartedStatus(db, after, n.cid, proposal); }
      StartedOrdinals(db, after, n.cid, proposal);
      StartedLeases(db, after, n.cid, proposal);
      StartedWinners(db, after, n.cid, proposal);
    }
  }
}
