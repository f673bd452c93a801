/** A run that reaches each failure of the campaign store: none of them is a matter of unreachable
    states. */
module CampaignWitness {
  import opened Prelude
  import opened Text
  import opened Scores
  import opened Campaigns
  import opened CampaignInvariants
  import opened CampaignRuns
  import opened StatusRace
  import opened Documents

  /** A digest is not empty and has no space at either end; SHA-256's are hexadecimal. */
  ghost predicate HexDigests(codec: Codec) {
    forall text :: codec.sha256(text) != "" && Strip(codec.sha256(text)) == codec.sha256(text)
  }

  const POLICY := Policy(Minimize, 300, 1, 3600, 0, 0, 0.0, 0, None)

  const CAMPAIGN := NewCampaign("w", "e", "", "", None, "", Some(POLICY))

  /** A proposal of the kind that the campaign's history asks for. */
  function Proposal(codec: Codec, db: Db): NewProposal {
    if "w" !in db.campaigns then NewProposal("w", "", Freeform, AnalysisText("", "", "", "", "", []), "", "", 0)
    else
      var h := HistoryOf(codec, db, "w");
      var recommendation := if h.required == RlmVerified then "h" else "";
      NewProposal("w", h.digest, h.required, AnalysisText("", "", "", "", recommendation, ["e"]), "e", "e", 1)
  }

  /** The lease that proposing returns. */
  function LeaseIn(codec: Codec, db: Db, now: int): int {
    match CreateProposal(codec, db, Proposal(codec, db), now).1
    case Ok(id) => id
    case Err(_) => -1
  }

  /** The attempt that consumes it. */
  function Attempting(codec: Codec, db: Db, tree: string, now: int): NewAttempt {
    NewAttempt("w", "h", Some(LeaseIn(codec, db, now)), None, None, tree)
  }

  lemma StripsToItself()
    ensures Strip("") == "" && Strip("h") == "h" && Strip("e") == "e" && Normalize("h") == "h"
  {
    assert Strip("") == "";
    assert !IsPySpace('h') && LStrip("h") == "h" && RStrip("h") == "h";
    assert !IsPySpace('e') && LStrip("e") == "e" && RStrip("e") == "e";
    assert "" + ['h'] == "h" && "h"[1..] == "";
    assert Words("", "h") == Words("h", "") == ["h"];
  }

  lemma CampaignIsCreated()
    ensures var db := CreateCampaign(EMPTY, CAMPAIGN, 1).0;
      && CreateCampaign(EMPTY, CAMPAIGN, 1).1.Ok? && Inv(db) && db.attempts == [] && db.analyses == []
      && "w" in db.campaigns && db.campaigns["w"].status == Active && db.campaigns["w"].threshold > 0
      && db.campaigns["w"].policy == POLICY && db.campaigns["w"].best.None? && db.campaigns["w"].current.None?
  {
    hide Core, StatusInv;
    StripsToItself();
    EmptyInv();
    CreatePreserves(EMPTY, CAMPAIGN, 1);
  }

  /** An idle, open campaign takes the proposal and then the attempt. */
  lemma AttemptStarts(codec: Codec, db: Db, tree: string, now: int, later: int)
    requires HexDigests(codec) && Core(db) && "w" in db.campaigns
    requires !AnyRunning(db.attempts) && !IsTerminal(db.campaigns["w"].status)
    ensures var p := Proposal(codec, db);
      var (after, r) := CreateProposal(codec, db, p, now);
      && r.Ok? && Core(after) && after.attempts == db.attempts
      && "w" in after.campaigns && after.campaigns["w"] == db.campaigns["w"].(updatedAt := after.campaigns["w"].updatedAt)
      && StartAttempt(codec, after, Attempting(codec, db, tree, now), later).1.Ok?
  {
    hide Core, StatusInv, StartAttempt;
    var p := Proposal(codec, db);
    ProposalIsTaken(codec, db, now);
    ProposePreserves(codec, db, p, now);
    FreshProposalStarts(codec, db, p, Attempting(codec, db, tree, now), now, later) by { StripsToItself(); }
  }

  lemma ProposalIsTaken(codec: Codec, db: Db, now: int)
    requires HexDigests(codec) && "w" in db.campaigns
    ensures var p := Proposal(codec, db);
      var (after, r) := CreateProposal(codec, db, p, now);
      && p.cid == "w" && p.kind == HistoryOf(codec, db, "w").required && p.kind != LegacyUnverified
      && p.text.recommendation == (if p.kind == RlmVerified then "h" else "")
      && r.Ok? && after.attempts == db.attempts
      && "w" in after.campaigns && after.campaigns["w"] == db.campaigns["w"].(updatedAt := after.campaigns["w"].updatedAt)
  {
    StripsToItself();
    hide FindLease, Strip, Entries, CurrentProposal, Normalize;
  }

  lemma RacySnoc(codec: Codec, events: seq<RacyEvent>, e: RacyEvent)
    ensures RunRacy(codec, events + [e]) == ApplyRacy(codec, RunRacy(codec, events), e)
  {
    hide ApplyRacy;
    assert (events + [e])[..|events|] == events;
  }

  function Created(): Db { CreateCampaign(EMPTY, CAMPAIGN, 1).0 }

  function Proposed(codec: Codec): Db { CreateProposal(codec, Created(), Proposal(codec, Created()), 2).0 }

  function Started(codec: Codec): Db { StartAttempt(codec, Proposed(codec), Attempting(codec, Created(), "t", 2), 3).0 }

  /** The campaign is created, and the attempt is about to start or has started. */
  lemma StartedIsSound(codec: Codec)
    requires HexDigests(codec)
    ensures Inv(Proposed(codec)) && "w" in Proposed(codec).campaigns && Proposed(codec).campaigns["w"].current.None?
    ensures Inv(Started(codec)) && "w" in Started(codec).campaigns && Started(codec).campaigns["w"].current.Some?
  {
    hide Core, StatusInv, StartAttempt, CreateProposal, CreateCampaign;
    CampaignIsCreated();
    AttemptStarts(codec, Created(), "t", 2, 3);
    ProposePreserves(codec, Created(), Proposal(codec, Created()), 2);
    StartPreserves(codec, Proposed(codec), Attempting(codec, Created(), "t", 2), 3);
    StartNames(codec, Proposed(codec), Attempting(codec, Created(), "t", 2), 3);
  }

  /** Two transactions, one started attempt, one late update and one restart. */
  lemma FiveSteps(codec: Codec, a: Event, b: Event, c: Event, d: RacyEvent, e: Event)
    ensures var events := [Whole(a), Whole(b), Whole(c), d, Whole(e)];
      && RunRacy(codec, events[..2]) == Apply(codec, Apply(codec, EMPTY, a), b)
      && RunRacy(codec, [Whole(a), Whole(b), Whole(c), d])
         == ApplyRacy(codec, Apply(codec, Apply(codec, Apply(codec, EMPTY, a), b), c), d)
      && RunRacy(codec, events)
         == Apply(codec, ApplyRacy(codec, Apply(codec, Apply(codec, Apply(codec, EMPTY, a), b), c), d), e)
  {
    hide Apply;
    var events := [Whole(a), Whole(b), Whole(c), d, Whole(e)];
    assert [] + [Whole(a)] == [Whole(a)] && [Whole(a)] + [Whole(b)] == [Whole(a), Whole(b)];
    assert [Whole(a), Whole(b)] + [Whole(c)] == [Whole(a), Whole(b), Whole(c)];
    assert [Whole(a), Whole(b), Whole(c)] + [d] == [Whole(a), Whole(b), Whole(c), d];
    assert [Whole(a), Whole(b), Whole(c), d] + [Whole(e)] == events && events[..2] == [Whole(a), Whole(b)];
    RacySnoc(codec, [], Whole(a));
    RacySnoc(codec, [Whole(a)], Whole(b));
    RacySnoc(codec, [Whole(a), Whole(b)], Whole(c));
    RacySnoc(codec, [Whole(a), Whole(b), Whole(c)], d);
    RacySnoc(codec, [Whole(a), Whole(b), Whole(c), d], Whole(e));
  }

  /** Create, propose, check that the campaign may be completed, start, complete, crash: the campaign is
      stuck. */
  lemma StuckIsReachable(codec: Codec) returns (events: seq<RacyEvent>)
    requires HexDigests(codec)
    ensures forall e :: e in events && e.Whole? ==> Proper(e.event)
    ensures Stuck(RunRacy(codec, events), "w")
    ensures |events| > 2 && SetStatus(RunRacy(codec, events[..2]), "w", Completed, 4).1.Ok?
  {
    hide Core, StatusInv, StartAttempt, CreateProposal, CreateCampaign, LateRestate, Recover, Stuck, RunRacy;
    var a, b := Create(CAMPAIGN, 1), Propose(Proposal(codec, Created()), 2);
    var c := Start(Attempting(codec, Created(), "t", 2), 3);
    events := [Whole(a), Whole(b), Whole(c), Late("w", Completed, 4), Whole(Restart([], 5))];
    FiveSteps(codec, a, b, c, Late("w", Completed, 4), Restart([], 5));
    StartedIsSound(codec);
    CrashSticksExactly(Started(codec), "w", Completed, 4, 5);
    assert ImportAll(LateRestate(Started(codec), "w", Completed, 4), []) == LateRestate(Started(codec), "w", Completed, 4);
  }

  /** The same run from the document's side: the late status is stamped, and the restart then changes the
      document without a stamp and leaves nothing for the next restart to report. */
  lemma UnstampedIsReachable(codec: Codec) returns (before: seq<RacyEvent>, restart: Event)
    requires HexDigests(codec)
    ensures forall e :: e in before && e.Whole? ==> Proper(e.event)
    ensures restart.Restart? && restart.workspaces == []
    ensures var db := RunRacy(codec, before);
      var after := RunRacy(codec, before + [Whole(restart)]);
      && "w" in db.campaigns && "w" in after.campaigns
      && DocumentOf(after, "w") != DocumentOf(db, "w")
      && after.campaigns["w"].updatedAt == db.campaigns["w"].updatedAt < restart.now
      && !ReportedStale(after, "w")
  {
    hide Core, StatusInv, StartAttempt, CreateProposal, CreateCampaign, LateRestate, Startup, RunRacy, DocumentOf,
      ReportedStale;
    var a, b := Create(CAMPAIGN, 1), Propose(Proposal(codec, Created()), 2);
    var c, late := Start(Attempting(codec, Created(), "t", 2), 3), Late("w", Completed, 4);
    restart := Restart([], 5);
    before := [Whole(a), Whole(b), Whole(c), late];
    FiveSteps(codec, a, b, c, late, restart);
    StartedIsSound(codec);
    LateShows(Started(codec), "w", 4);
    StaleRestartStampsExactly(LateRestate(Started(codec), "w", Completed, 4), [], 5, "w");
    assert before + [Whole(restart)] == [Whole(a), Whole(b), Whole(c), late, Whole(restart)];
  }

  /** A late terminal status hides an attempt that goes on running. */
  lemma LateShows(db: Db, cid: string, now: int)
    requires Inv(db) && cid in db.campaigns && db.campaigns[cid].current.Some?
    ensures var after := LateRestate(db, cid, Completed, now);
      && cid in after.campaigns && after.campaigns[cid].status == Completed && after.campaigns[cid].updatedAt == now
      && ReportedStale(after, cid)
  {
    hide OneRuns, OrdinalInv, LeaseInv, WinnerInv;
    var i := db.campaigns[cid].current.value;
    assert LateRestate(db, cid, Completed, now).attempts[i].status == "running";
  }

  lemma StartNames(codec: Codec, db: Db, n: NewAttempt, now: int)
    requires StartAttempt(codec, db, n, now).1.Ok?
    ensures var after := StartAttempt(codec, db, n, now).0;
      n.cid in after.campaigns && after.campaigns[n.cid].current == Some(|db.attempts|)
  {
    hide HistoryOf, BoundHypothesis, IsValidProposal;
  }
}
