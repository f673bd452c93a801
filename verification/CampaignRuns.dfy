/** The invariants over finishing, startup and whole runs of the campaign store, and what follows. */
module CampaignRuns {
  import opened Prelude
  import opened Text
  import opened Scores
  import opened Campaigns
  import opened CampaignInvariants

  // ---- Finishing an attempt ----------------------------------------------------------------

  lemma {:induction false} ScoresEndAt(a: seq<Attempt>, id: nat, cid: string)
    requires id < |a| && forall j :: id < j < |a| ==> a[j].campaign != cid
    ensures ScoresOf(a, cid) == ScoresOf(a[..id + 1], cid)
  {
    if id + 1 < |a| {
      var n := |a| - 1;
      ScoresEndAt(a[..n], id, cid);
      assert a[..n][..id + 1] == a[..id + 1];
      assert ScoresOf(a[..n], cid) + [] == ScoresOf(a[..n], cid);
    } else {
      assert a[..id + 1] == a;
    }
  }

  lemma ScoresSplit(a: seq<Attempt>, id: nat, cid: string)
    requires id < |a| && a[id].campaign == cid
    requires forall j :: id < j < |a| ==> a[j].campaign != cid
    ensures ScoresOf(a, cid) == ScoresOf(a[..id], cid) + [OkScore(a[id])]
  {
    ScoresEndAt(a, id, cid);
    assert a[..id + 1] == a[..id] + [a[id]];
    EntriesGrow(a[..id], a[id], cid);
  }

  /** A running attempt replaced by its final row, and its campaign by what finishing makes of it. */
  ghost predicate Finished(before: Db, after: Db, id: nat, improved: bool) {
    && id < |before.attempts| && before.attempts[id].status == "running"
    && before.attempts[id].campaign in before.campaigns
    && |after.attempts| == |before.attempts|
    && (forall i :: 0 <= i < |before.attempts| && i != id ==> after.attempts[i] == before.attempts[i])
    && after.analyses == before.analyses && after.campaigns.Keys == before.campaigns.Keys
    && var prior, row, cid := before.attempts[id], after.attempts[id], before.attempts[id].campaign;
    && row.campaign == cid && row.ordinal == prior.ordinal && row.proposal == prior.proposal
    && row.decision == (if improved then Kept else Rejected)
    && (forall c :: c in before.campaigns && c != cid ==> after.campaigns[c] == before.campaigns[c])
    && var c, c' := before.campaigns[cid], after.campaigns[cid];
    && c'.current.None? && c'.status != Running && c'.policy == c.policy
    && (improved <==> ScoreImproved(OkScore(row), c.best, c.policy))
    && (improved ==> c'.best == row.score && row.score.Some? && row.status == "ok" && c'.bestAttempt == Some(id))
    && (!improved ==> c'.best == c.best && c'.bestAttempt == c.bestAttempt)
  }

  lemma FinishedRunning(before: Db, after: Db, id: nat, improved: bool)
    requires OneRuns(before) && Finished(before, after, id, improved) && after.attempts[id].status != "running"
    ensures OneRuns(after)
    ensures StatusInv(before) ==> StatusInv(after)
  {
    hide ScoreImproved, OkScore;
    var B := after.attempts;
    forall i | 0 <= i < |B| ensures B[i].status != "running" && B[i].decision != Pending {
      if i != id { assert before.attempts[i].status != "running"; }
    }
  }

  lemma BestSnoc(h: seq<Option<real>>, x: Option<real>, p: Policy)
    ensures BestOf(h + [x], p) == if ScoreImproved(x, BestOf(h, p), p) then x else BestOf(h, p)
  {
    assert (h + [x])[..|h|] == h;
  }

  /** Before its running attempt finishes, a campaign's winner is that of the attempts before it. */
  lemma IncumbentIs(db: Db, id: nat)
    requires OneRuns(db) && WinnerInv(db) && id < |db.attempts| && db.attempts[id].status == "running"
    ensures var cid := db.attempts[id].campaign;
            && cid in db.campaigns
            && (forall j :: id < j < |db.attempts| ==> db.attempts[j].campaign != cid)
            && db.attempts[id].decision != Kept
            && db.campaigns[cid].best == BestOf(ScoresOf(db.attempts[..id], cid), db.campaigns[cid].policy)
  {
    hide ValidPolicy, BestOf, ScoresOf, EarnedAt;
    var cid := db.attempts[id].campaign;
    assert WinnerOf(db, cid);
    ScoresSplit(db.attempts, id, cid);
    BestSnoc(ScoresOf(db.attempts[..id], cid), None, db.campaigns[cid].policy);
  }

  lemma FinishedEarned(before: Db, after: Db, id: nat, improved: bool, i: nat)
    requires OneRuns(before) && WinnerInv(before) && Finished(before, after, id, improved)
    requires i < |after.attempts|
    ensures after.attempts[i].campaign in after.campaigns && EarnedAt(after, i)
  {
    hide OneRuns, StatusInv, ValidPolicy, ScoreImproved, Entries, BestOf, ScoresOf, OkScore, WinnerOf;
    var A, B := before.attempts, after.attempts;
    IncumbentIs(before, id);
    assert EarnedAt(before, i);
    if i <= id {
      assert A[..i] == B[..i];
    } else {
      ScoresSame(A[..i], B[..i], A[i].campaign);
    }
  }

  lemma FinishedWinner(before: Db, after: Db, id: nat, improved: bool)
    requires OneRuns(before) && WinnerInv(before) && Finished(before, after, id, improved)
    ensures WinnerOf(after, before.attempts[id].campaign)
  {
    hide OneRuns, StatusInv, ValidPolicy, ScoreImproved, Entries, BestOf, ScoresOf, EarnedAt;
    var A, B := before.attempts, after.attempts;
    var cid := A[id].campaign;
    IncumbentIs(before, id);
    assert WinnerOf(before, cid);
    hide WinnerInv;
    ScoresSplit(B, id, cid);
    assert A[..id] == B[..id];
    BestSnoc(ScoresOf(A[..id], cid), OkScore(B[id]), before.campaigns[cid].policy);
  }

  lemma FinishedOthers(before: Db, after: Db, id: nat, improved: bool, c: string)
    requires WinnerInv(before) && Finished(before, after, id, improved)
    requires c in before.campaigns && c != before.attempts[id].campaign
    ensures WinnerOf(after, c)
  {
    hide ValidPolicy, Entries, ScoreImproved, BestOf, ScoresOf, EarnedAt;
    assert WinnerOf(before, c);
    ScoresSame(before.attempts, after.attempts, c);
  }

  lemma FinishedWinners(before: Db, after: Db, id: nat, improved: bool)
    requires OneRuns(before) && WinnerInv(before) && Finished(before, after, id, improved)
    ensures WinnerInv(after)
  {
    hide EarnedAt, WinnerOf, ValidPolicy, OneRuns, StatusInv;
    var cid := before.attempts[id].campaign;
    forall i | 0 <= i < |after.attempts| ensures after.attempts[i].campaign in after.campaigns && EarnedAt(after, i) {
      FinishedEarned(before, after, id, improved, i);
    }
    forall c | c in after.campaigns ensures WinnerOf(after, c) {
      if c == cid { FinishedWinner(before, after, id, improved); }
      else { FinishedOthers(before, after, id, improved, c); }
    }
    forall c | c in after.campaigns ensures ValidPolicy(after.campaigns[c].policy) {
      if c != cid { assert after.campaigns[c] == before.campaigns[c]; }
    }
  }

  lemma FinishIsFinished(db: Db, id: nat, r: Report, now: int)
    requires FinishAttempt(db, id, r, now).1.Ok?
    ensures Finished(db, FinishAttempt(db, id, r, now).0, id, Improves(db.campaigns[db.attempts[id].campaign], r))
    ensures FinishAttempt(db, id, r, now).0.attempts[id].status == r.status
  {
    hide StopDecision, OutcomesOf;
  }

  lemma FinishPreserves(db: Db, id: nat, r: Report, now: int)
    requires Core(db) && r.status != "running"
    ensures Core(FinishAttempt(db, id, r, now).0)
    ensures StatusInv(db) ==> StatusInv(FinishAttempt(db, id, r, now).0)
  {
    hide OneRuns, StatusInv, OrdinalInv, LeaseInv, WinnerInv;
    if FinishAttempt(db, id, r, now).1.Ok? {
      FinishIsFinished(db, id, r, now);
      var after := FinishAttempt(db, id, r, now).0;
      var improved := Improves(db.campaigns[db.attempts[id].campaign], r);
      hide FinishAttempt, Improves;
      assert SameShape(db.attempts, after.attempts);
      assert OnlyNewAnalyses(db, after);
      hide Finished, SameShape, OnlyNewAnalyses;
      FinishedRunning(db, after, id, improved);
      OrdinalFrame(db, after);
      LeaseFrame(db, after);
      FinishedWinners(db, after, id, improved);
    }
  }

  /** A report may carry any status but "running": with that one, and only with it, finishing would
      break the store. */
  lemma FinishPreservesExactly(db: Db, id: nat, r: Report, now: int)
    requires Inv(db) && FinishAttempt(db, id, r, now).1.Ok?
    ensures Inv(FinishAttempt(db, id, r, now).0) <==> r.status != "running"
  {
    if r.status != "running" {
      FinishPreserves(db, id, r, now);
    } else {
      FinishIsFinished(db, id, r, now);
      var row := FinishAttempt(db, id, r, now).0.attempts[id];
      assert row.status == "running" && row.decision != Pending;
    }
  }

  // ---- Startup -----------------------------------------------------------------------------

  /** What the import and the recovery need of the running invariant. */
  ghost predicate DormantInv(db: Db) {
    && (forall i :: 0 <= i < |db.attempts| ==> db.attempts[i].campaign in db.campaigns)
    && (forall i :: 0 <= i < |db.attempts| && db.attempts[i].decision == Pending ==> db.attempts[i].status == "running")
  }

  /** A campaign is running exactly when it names an attempt. */
  ghost predicate Named(db: Db) {
    forall c :: c in db.campaigns ==> (db.campaigns[c].status == Running <==> db.campaigns[c].current.Some?)
  }

  lemma RecoverEstablishes(db: Db, now: int)
    requires DormantInv(db) && OrdinalInv(db) && LeaseInv(db) && WinnerInv(db)
    ensures Core(Recover(db, now)) && !AnyRunning(Recover(db, now).attempts)
    ensures Named(db) ==> StatusInv(Recover(db, now))
  {
    var after := Recover(db, now);
    RecoverShape(db, now);
    RecoverIdle(db, now);
    hide Recover, OrdinalInv, LeaseInv, WinnerInv, DormantInv, OneRuns, StatusInv, Named;
    OrdinalFrame(db, after);
    LeaseFrame(db, after);
    WinnerFrame(db, after);
  }

  lemma RecoverShape(db: Db, now: int)
    requires WinnerInv(db)
    ensures SameHistory(db.attempts, Recover(db, now).attempts)
    ensures SameWinners(db.campaigns, Recover(db, now).campaigns)
    ensures OnlyNewAnalyses(db, Recover(db, now))
  {
    hide BestOf, ScoresOf, ValidPolicy, WinnerOf;
    var after := Recover(db, now);
    assert after.campaigns.Keys == db.campaigns.Keys;
    forall i | 0 <= i < |db.attempts|
      ensures after.attempts[i].decision == Kept <==> db.attempts[i].decision == Kept
    {
      assert EarnedAt(db, i);
    }
  }

  lemma RecoverIdle(db: Db, now: int)
    requires DormantInv(db)
    ensures OneRuns(Recover(db, now)) && !AnyRunning(Recover(db, now).attempts)
    ensures Named(db) ==> StatusInv(Recover(db, now))
  {
  }

  function LegacyRows(w: LegacyWorkspace, k: nat): (rows: seq<Attempt>)
    requires k <= |w.rows|
    ensures |rows| == k
  {
    seq(k, i requires 0 <= i < k => LegacyAttempt(w, i))
  }

  lemma {:induction false} ImportedViews(a: seq<Attempt>, w: LegacyWorkspace, k: nat, cid: string)
    requires k <= |w.rows|
    ensures cid != w.cid ==> |Entries(a + LegacyRows(w, k), cid)| == |Entries(a, cid)|
    ensures cid != w.cid ==> ScoresOf(a + LegacyRows(w, k), cid) == ScoresOf(a, cid)
    ensures cid == w.cid ==> |Entries(a + LegacyRows(w, k), cid)| == |Entries(a, cid)| + k
    ensures cid == w.cid ==> ScoresOf(a + LegacyRows(w, k), cid) == ScoresOf(a, cid) + LegacyScores(w.rows)[..k]
  {
    hide LegacyAttempt, LegacyScores, Entries, ScoresOf, OkScore;
    var scores := LegacyScores(w.rows);
    if k == 0 {
      assert a + LegacyRows(w, 0) == a;
      assert ScoresOf(a, cid) + scores[..0] == ScoresOf(a, cid);
    } else {
      ImportedViews(a, w, k - 1, cid);
      var row := LegacyAttempt(w, k - 1);
      LegacyRowIs(w, k - 1);
      assert a + LegacyRows(w, k) == (a + LegacyRows(w, k - 1)) + [row];
      EntriesGrow(a + LegacyRows(w, k - 1), row, cid);
      if cid == w.cid {
        assert (ScoresOf(a, cid) + scores[..k - 1]) + [scores[k - 1]] == ScoresOf(a, cid) + scores[..k];
      } else {
        assert ScoresOf(a, cid) + [] == ScoresOf(a, cid);
      }
    }
  }

  lemma LegacyRowIs(w: LegacyWorkspace, i: nat)
    requires i < |w.rows|
    ensures var row := LegacyAttempt(w, i);
            && row.campaign == w.cid && row.ordinal == i + 1 && row.proposal.None? && row.decision != Pending
            && OkScore(row) == LegacyScores(w.rows)[i]
            && (row.decision == Kept <==> WonAt(LegacyScores(w.rows), i, w.policy))
            && (row.decision == Kept ==> row.score == LegacyScores(w.rows)[i])
  {
    hide BestOf;
  }

  lemma {:induction false} LastWinIs(h: seq<Option<real>>, p: Policy, n: nat)
    requires n <= |h|
    ensures var last := LastWin(h, p, n);
            && (last.Some? ==> last.value < n && WonAt(h, last.value, p))
            && forall i :: (if last.Some? then last.value + 1 else 0) <= i < n ==> !WonAt(h, i, p)
  {
    hide WonAt;
    if n > 0 && !WonAt(h, n - 1, p) { LastWinIs(h, p, n - 1); }
  }

  /** A history is led by its last winning entry, and by nothing when nothing won. */
  lemma LastWinLeads(h: seq<Option<real>>, p: Policy)
    ensures var last := LastWin(h, p, |h|);
            BestOf(h, p) == (if last.Some? then h[last.value] else None)
  {
    LastWinIs(h, p, |h|);
    var last := LastWin(h, p, |h|);
    if last.Some? {
      BestIsLastWin(h, p, last.value);
    } else {
      NoWinNoBest(h, p);
    }
  }

  lemma {:induction false} NoWinNoBest(h: seq<Option<real>>, p: Policy)
    requires forall i :: 0 <= i < |h| ==> !WonAt(h, i, p)
    ensures BestOf(h, p).None?
  {
    if h != [] {
      var init := h[..|h| - 1];
      forall i | 0 <= i < |init| ensures !WonAt(init, i, p) {
        assert !WonAt(h, i, p);
        assert init[..i] == h[..i];
      }
      NoWinNoBest(init, p);
      assert !WonAt(h, |h| - 1, p);
    }
  }

  /** What an import adds, in the terms of the invariants. */
  ghost predicate Imported(before: Db, after: Db, w: LegacyWorkspace) {
    && w.cid !in before.campaigns
    && after.attempts == before.attempts + LegacyRows(w, |w.rows|)
    && after.analyses == before.analyses
    && after.campaigns.Keys == before.campaigns.Keys + {w.cid}
    && (forall c :: c in before.campaigns ==> after.campaigns[c] == before.campaigns[c])
    && var row, scores := after.campaigns[w.cid], LegacyScores(w.rows);
    && var last := LastWin(scores, w.policy, |scores|);
    && row.policy == w.policy && row.status == Active && row.current.None?
    && row.best == BestOf(scores, w.policy)
    && row.bestAttempt == if last.Some? then Some(|before.attempts| + last.value) else None
  }

  lemma ImportedDormant(before: Db, after: Db, w: LegacyWorkspace)
    requires DormantInv(before) && Imported(before, after, w)
    ensures DormantInv(after)
  {
    hide LegacyAttempt, BestOf, LastWin, LegacyScores;
    forall i | |before.attempts| <= i < |after.attempts|
      ensures after.attempts[i] == LegacyAttempt(w, i - |before.attempts|)
      ensures after.attempts[i].campaign == w.cid && after.attempts[i].decision != Pending
    {
      LegacyRowIs(w, i - |before.attempts|);
    }
  }

  lemma ImportedOrdinal(before: Db, after: Db, w: LegacyWorkspace, k: nat)
    requires w.cid !in before.campaigns && DormantInv(before) && k < |w.rows|
    requires after.attempts == before.attempts + LegacyRows(w, |w.rows|)
    ensures var i := |before.attempts| + k;
            && after.attempts[i].campaign == w.cid
            && after.attempts[i].ordinal == |Entries(after.attempts[..i], w.cid)| + 1
  {
    hide LegacyAttempt, LegacyScores, WonAt, Entries;
    var i := |before.attempts| + k;
    assert after.attempts[i] == LegacyAttempt(w, k);
    LegacyRowIs(w, k);
    assert after.attempts[..i] == before.attempts + LegacyRows(w, k);
    ImportedViews(before.attempts, w, k, w.cid);
    NoneOf(before.attempts, w.cid);
  }

  lemma ImportedOrdinals(before: Db, after: Db, w: LegacyWorkspace)
    requires DormantInv(before) && OrdinalInv(before) && Imported(before, after, w)
    ensures OrdinalInv(after)
  {
    hide DormantInv, LegacyAttempt, BestOf, LastWin, LegacyScores, Entries;
    var n := |before.attempts|;
    forall i | 0 <= i < |after.attempts|
      ensures after.attempts[i].ordinal == |Entries(after.attempts[..i], after.attempts[i].campaign)| + 1
    {
      if i < n {
        assert after.attempts[..i] == before.attempts[..i];
      } else {
        ImportedOrdinal(before, after, w, i - n);
      }
    }
  }

  lemma ImportedLeases(before: Db, after: Db, w: LegacyWorkspace)
    requires LeaseInv(before) && Imported(before, after, w)
    ensures LeaseInv(after)
  {
    hide LegacyAttempt, BestOf, LastWin, LegacyScores, IsLease, Entries;
    var n := |before.attempts|;
    forall p | 0 <= p < |after.analyses|
      ensures after.analyses[p].after <= |Entries(after.attempts, after.analyses[p].campaign)|
    {
      ImportedViews(before.attempts, w, |w.rows|, after.analyses[p].campaign);
    }
    forall i | n <= i < |after.attempts| ensures after.attempts[i].proposal.None? {
      LegacyRowIs(w, i - n);
    }
  }

  lemma ImportedEarned(before: Db, after: Db, w: LegacyWorkspace, i: nat)
    requires DormantInv(before) && WinnerInv(before) && Imported(before, after, w) && i < |after.attempts|
    ensures after.attempts[i].campaign in after.campaigns && EarnedAt(after, i)
  {
    hide LegacyAttempt, BestOf, LastWin, LegacyScores, ScoreImproved, Entries, ScoresOf, OkScore, WinnerOf, ValidPolicy;
    var n := |before.attempts|;
    if i < n {
      assert EarnedAt(before, i);
      EarnedAtGrows(before, after, i);
    } else {
      assert after.attempts[i] == LegacyAttempt(w, i - n);
      LegacyRowIs(w, i - n);
      assert after.attempts[..i] == before.attempts + LegacyRows(w, i - n);
      ImportedViews(before.attempts, w, i - n, w.cid);
      NoneOf(before.attempts, w.cid);
      assert [] + LegacyScores(w.rows)[..i - n] == LegacyScores(w.rows)[..i - n];
    }
  }

  lemma ImportedWinner(before: Db, after: Db, w: LegacyWorkspace)
    requires DormantInv(before) && Imported(before, after, w)
    ensures WinnerOf(after, w.cid)
  {
    hide LegacyAttempt, BestOf, LastWin, LegacyScores, ScoreImproved, Entries, ScoresOf, OkScore, WonAt;
    var n, h := |before.attempts|, LegacyScores(w.rows);
    ImportedViews(before.attempts, w, |w.rows|, w.cid);
    NoneOf(before.attempts, w.cid);
    assert [] + h[..|w.rows|] == h;
    LastWinIs(h, w.policy, |h|);
    LastWinLeads(h, w.policy);
    forall i | n <= i < |after.attempts|
      ensures after.attempts[i].decision == Kept <==> WonAt(h, i - n, w.policy)
      ensures after.attempts[i].campaign == w.cid
      ensures after.attempts[i].decision == Kept ==> after.attempts[i].score == h[i - n]
    {
      assert after.attempts[i] == LegacyAttempt(w, i - n);
      LegacyRowIs(w, i - n);
    }
    WinnersHaveScores(h, w.policy);
  }

  lemma WinnersHaveScores(h: seq<Option<real>>, p: Policy)
    ensures forall i :: 0 <= i < |h| && WonAt(h, i, p) ==> h[i].Some?
  {
  }

  lemma ImportedWinners(before: Db, after: Db, w: LegacyWorkspace)
    requires DormantInv(before) && WinnerInv(before) && Imported(before, after, w) && ValidPolicy(w.policy)
    ensures WinnerInv(after)
  {
    hide LegacyAttempt, BestOf, LastWin, LegacyScores, EarnedAt, ValidPolicy;
    forall i | 0 <= i < |after.attempts| ensures after.attempts[i].campaign in after.campaigns && EarnedAt(after, i) {
      ImportedEarned(before, after, w, i);
    }
    forall c | c in after.campaigns ensures WinnerOf(after, c) {
      if c == w.cid {
        ImportedWinner(before, after, w);
      } else {
        assert WinnerOf(before, c);
        ImportedOthers(before, after, w, c);
      }
    }
  }

  lemma ImportedOthers(before: Db, after: Db, w: LegacyWorkspace, c: string)
    requires c in before.campaigns && WinnerOf(before, c) && Imported(before, after, w)
    ensures WinnerOf(after, c)
  {
    hide LegacyAttempt, BestOf, LastWin, LegacyScores, ScoresOf, Entries;
    ImportedViews(before.attempts, w, |w.rows|, c);
    forall i | |before.attempts| <= i < |after.attempts| ensures after.attempts[i].campaign == w.cid {
      LegacyRowIs(w, i - |before.attempts|);
    }
  }

  lemma ImportKeeps(db: Db, w: LegacyWorkspace)
    requires DormantInv(db) && OrdinalInv(db) && LeaseInv(db) && WinnerInv(db) && ValidPolicy(w.policy)
    ensures var after := ImportWorkspace(db, w);
            DormantInv(after) && OrdinalInv(after) && LeaseInv(after) && WinnerInv(after)
  {
    hide DormantInv, OrdinalInv, LeaseInv, WinnerInv, LegacyAttempt, BestOf, LastWin, LegacyScores, ValidPolicy;
    var after := ImportWorkspace(db, w);
    if after != db {
      assert after.attempts == db.attempts + LegacyRows(w, |w.rows|);
      assert Imported(db, after, w);
      hide ImportWorkspace, Imported;
      ImportedDormant(db, after, w);
      ImportedOrdinals(db, after, w);
      ImportedLeases(db, after, w);
      ImportedWinners(db, after, w);
    }
  }

  lemma {:induction false} ImportAllKeeps(db: Db, ws: seq<LegacyWorkspace>)
    requires DormantInv(db) && OrdinalInv(db) && LeaseInv(db) && WinnerInv(db)
    requires forall w :: w in ws ==> ValidPolicy(w.policy)
    ensures var after := ImportAll(db, ws);
            DormantInv(after) && OrdinalInv(after) && LeaseInv(after) && WinnerInv(after)
  {
    hide DormantInv, OrdinalInv, LeaseInv, WinnerInv, ImportWorkspace, ValidPolicy;
    if ws != [] {
      var last := ws[|ws| - 1];
      assert last in ws && forall w :: w in ws[..|ws| - 1] ==> w in ws;
      ImportAllKeeps(db, ws[..|ws| - 1]);
      ImportKeeps(ImportAll(db, ws[..|ws| - 1]), last);
    }
  }

  /** A restart, after a crash or not, leaves a sound store with nothing running. */
  lemma StartupPreserves(db: Db, ws: seq<LegacyWorkspace>, now: int)
    requires Core(db) && forall w :: w in ws ==> ValidPolicy(w.policy)
    ensures Core(Startup(db, ws, now)) && !AnyRunning(Startup(db, ws, now).attempts)
    ensures StatusInv(db) ==> StatusInv(Startup(db, ws, now))
  {
    CoreIsDormant(db);
    if StatusInv(db) { ImportAllNames(db, ws); }
    hide OneRuns, StatusInv, DormantInv, Named, OrdinalInv, LeaseInv, WinnerInv, ImportAll, Recover, ValidPolicy, AnyRunning;
    ImportAllKeeps(db, ws);
    RecoverEstablishes(ImportAll(db, ws), now);
  }

  lemma CoreIsDormant(db: Db)
    requires Core(db)
    ensures DormantInv(db)
  {
  }

  lemma {:induction false} ImportAllNames(db: Db, ws: seq<LegacyWorkspace>)
    requires Named(db)
    ensures Named(ImportAll(db, ws))
  {
    hide BestOf, LastWin, LegacyScores, LegacyAttempt;
    if ws != [] { ImportAllNames(db, ws[..|ws| - 1]); }
  }

  // ---- Whole runs ----------------------------------------------------------------------------

  /** What callers respect: final reports do not say "running", and legacy policies come from valid
      experiment configurations. */
  ghost predicate Proper(e: Event) {
    && (e.Finish? ==> e.report.status != "running")
    && (e.Restart? ==> forall w :: w in e.workspaces ==> ValidPolicy(w.policy))
  }

  lemma StepPreserves(codec: Codec, db: Db, e: Event)
    requires Core(db) && Proper(e)
    ensures Core(Apply(codec, db, e))
    ensures StatusInv(db) ==> StatusInv(Apply(codec, db, e))
  {
    hide OneRuns, StatusInv, OrdinalInv, LeaseInv, WinnerInv, ValidPolicy;
    match e
    case Create(campaign, now) => CreatePreserves(db, campaign, now);
    case Propose(proposal, now) => ProposePreserves(codec, db, proposal, now);
    case Analyze(cid, status, text, now) => AnalyzePreserves(codec, db, cid, status, text, now);
    case Start(attempt, now) => StartPreserves(codec, db, attempt, now);
    case Finish(id, report, now) => FinishPreserves(db, id, report, now);
    case Restate(cid, to, now) => RestatePreserves(db, cid, to, now);
    case Annotate(commit, description, now) => DescribePreserves(db, commit, description, now);
    case Restart(workspaces, now) => StartupPreserves(db, workspaces, now);
  }

  /** Every reachable store satisfies the invariants. */
  lemma {:induction false} ReachableInv(codec: Codec, events: seq<Event>)
    requires forall e :: e in events ==> Proper(e)
    ensures Inv(Run(codec, events))
  {
    hide OneRuns, StatusInv, OrdinalInv, LeaseInv, WinnerInv, Proper, Apply;
    if events == [] {
      EmptyInv();
    } else {
      var n := |events| - 1;
      assert events[n] in events && forall e :: e in events[..n] ==> e in events;
      ReachableInv(codec, events[..n]);
      StepPreserves(codec, Run(codec, events[..n]), events[n]);
    }
  }

  lemma EmptyInv()
    ensures Inv(EMPTY)
  {
  }

  // ---- Consequences ---------------------------------------------------------------------------

  /** A proposal that is returned, new or already stored, has not been consumed. */
  lemma ProposalIsFresh(codec: Codec, db: Db, p: NewProposal, now: int)
    requires Core(db) && CreateProposal(codec, db, p, now).1.Ok?
    ensures var (after, id) := (CreateProposal(codec, db, p, now).0, CreateProposal(codec, db, p, now).1.value);
            && id < |after.analyses| && after.analyses[id].consumedBy.None?
            && after.analyses[id].campaign == p.cid && after.analyses[id].kind == p.kind
  {
    hide OneRuns, StatusInv, OrdinalInv, WinnerInv, HistoryOf, IsLease, Strip;
    var h := HistoryOf(codec, db, p.cid);
    var found := FindLease(db.analyses, LeaseRow(p, h, now));
    if found.Some? && db.analyses[found.value].consumedBy.Some? {
      ConsumedIsOld(db, found.value);
    }
  }

  /** A consumed proposal was made for a shorter history than its campaign's. */
  lemma ConsumedIsOld(db: Db, p: nat)
    requires Core(db) && p < |db.analyses| && db.analyses[p].consumedBy.Some?
    ensures db.analyses[p].after < |Entries(db.attempts, db.analyses[p].campaign)|
  {
    var i := db.analyses[p].consumedBy.value;
    var cid := db.attempts[i].campaign;
    assert db.attempts[i].ordinal == |Entries(db.attempts[..i], cid)| + 1;
    hide OneRuns, StatusInv, WinnerInv, LeaseInv;
    EntriesMonotone(db.attempts, i, cid);
  }

  lemma {:induction false} EntriesMonotone(a: seq<Attempt>, i: nat, cid: string)
    requires i < |a| && a[i].campaign == cid
    ensures |Entries(a[..i], cid)| < |Entries(a, cid)|
  {
    var n := |a| - 1;
    if i < n {
      EntriesMonotone(a[..n], i, cid);
      assert a[..n][..i] == a[..i];
    }
  }

  /** A fresh proposal of the required kind is accepted when the store is idle and its campaign
      open, whatever the hypothesis says in the verified case and whenever there is one in the other. */
  lemma FreshProposalStarts(codec: Codec, db: Db, p: NewProposal, n: NewAttempt, now: int, later: int)
    requires Core(db) && CreateProposal(codec, db, p, now).1.Ok?
    requires n.cid == p.cid && !AnyRunning(db.attempts) && !IsTerminal(db.campaigns[p.cid].status)
    requires p.kind == HistoryOf(codec, db, p.cid).required
    requires n.proposal == Some(CreateProposal(codec, db, p, now).1.value) && n.analysis.None?
    requires p.kind == Freeform ==> Normalize(n.hypothesis) != ""
    requires p.kind == RlmVerified ==>
      Normalize(n.hypothesis) == "" || Normalize(n.hypothesis) == Normalize(Strip(p.text.recommendation))
    ensures StartAttempt(codec, CreateProposal(codec, db, p, now).0, n, later).1.Ok?
  {
    hide OneRuns, StatusInv, OrdinalInv, LeaseInv, WinnerInv, Strip, Normalize;
    ProposePreserves(codec, db, p, now);
    ProposalIsFresh(codec, db, p, now);
    var after := CreateProposal(codec, db, p, now).0;
    var id := CreateProposal(codec, db, p, now).1.value;
    LeaseIsWellFormed(after, id);
    SameCanonical(codec, db, after, p.cid);
    ProposalRow(codec, db, p, now);
  }

  lemma LeaseIsWellFormed(db: Db, p: nat)
    requires Core(db) && p < |db.analyses|
    ensures db.analyses[p].kind == LegacyUnverified || IsLease(db.analyses[p])
  {
  }

  lemma ProposalRow(codec: Codec, db: Db, p: NewProposal, now: int)
    requires CreateProposal(codec, db, p, now).1.Ok?
    ensures var after, id := CreateProposal(codec, db, p, now).0, CreateProposal(codec, db, p, now).1.value;
            && id < |after.analyses|
            && SameLease(after.analyses[id], LeaseRow(p, HistoryOf(codec, db, p.cid), now))
  {
    hide HistoryOf;
  }

  /** Proposals are not part of the history they are made for. */
  lemma SameCanonical(codec: Codec, before: Db, after: Db, cid: string)
    requires cid in before.campaigns && cid in after.campaigns && before.attempts == after.attempts
    requires after.campaigns[cid] == before.campaigns[cid].(updatedAt := after.campaigns[cid].updatedAt)
    ensures HistoryOf(codec, after, cid).count == HistoryOf(codec, before, cid).count
    ensures HistoryOf(codec, after, cid).digest == HistoryOf(codec, before, cid).digest
    ensures HistoryOf(codec, after, cid).required == HistoryOf(codec, before, cid).required
  {
    var entries := Entries(before.attempts, cid);
    assert Canonical(before.campaigns[cid], entries) == Canonical(after.campaigns[cid], entries);
  }
}
