/** The optimistic lock of the history writers: the history state is read before the write lock is
    taken, over several SELECTs, and computed again under the lock only if another connection
    committed in between (`campaigns.py`, `_begin_with_history`). */
module HistoryLock {
  import opened Prelude
  import opened Text
  import opened Scores
  import opened Campaigns
  import opened CampaignLaws

  // ---- The writers ----------------------------------------------------------------------------

  datatype Request =
    | Propose(proposal: NewProposal)
    | Analyze(cid: string, status: string, text: AnalysisText)
    | Start(attempt: NewAttempt)

  function Target(r: Request): string {
    match r
    case Propose(p) => p.cid
    case Analyze(cid, _, _) => cid
    case Start(n) => n.cid
  }

  /** What is refused before any connection is opened. */
  function Refusal(r: Request): Option<StoreError> {
    match r
    case Propose(p) => if IsProposable(p) then None else Some(BadValue)
    case Analyze(_, _, _) => None
    case Start(n) =>
      if n.proposal.Some? && n.analysis.Some? && n.proposal != n.analysis then Some(BadValue)
      else if Requested(n).None? then Some(ReasoningRequired)
      else None
  }

  /** The start under the write lock, against a history state. */
  function StartWith(db: Db, n: NewAttempt, h: History, now: int): (Db, Result<nat, StoreError>)
    requires Requested(n).Some?
  {
    match AdmitWith(db, n, h)
    case Err(error) => (db, Err(error))
    case Ok((proposal, hypothesis)) =>
      (BeginAttempt(db, n, proposal, hypothesis, h.count + 1, now), Ok(|db.attempts|))
  }

  /** The writer's transaction, given the history state it believes in. */
  function Write(db: Db, r: Request, h: History, now: int): (Db, Result<nat, StoreError>)
    requires Refusal(r).None?
  {
    if Target(r) !in db.campaigns then (db, Err(NotFound))
    else
      match r
      case Propose(p) => ProposeWith(db, p, h, now)
      case Analyze(cid, status, text) => RecordWith(db, cid, status, text, h, now)
      case Start(n) => StartWith(db, n, h, now)
  }

  /** The same operation as one indivisible step. */
  function Atomic(codec: Codec, db: Db, r: Request, now: int): (Db, Result<nat, StoreError>) {
    match r
    case Propose(p) => CreateProposal(codec, db, p, now)
    case Analyze(cid, status, text) => RecordAnalysis(codec, db, cid, status, text, now)
    case Start(n) => StartAttempt(codec, db, n, now)
  }

  /** A transaction that believes in the current history state is the indivisible operation. */
  lemma CurrentIsAtomic(codec: Codec, db: Db, r: Request, now: int)
    requires Refusal(r).None? && Target(r) in db.campaigns
    ensures Write(db, r, HistoryOf(codec, db, Target(r)), now) == Atomic(codec, db, r, now)
  {
    hide IsValidProposal, BoundHypothesis, AnyRunning, FindLease, Strip, ClampBudget;
    if r.Start? {
      assert AdmitAttempt(codec, db, r.attempt) == AdmitWith(db, r.attempt, HistoryOf(codec, db, r.attempt.cid));
      hide AdmitAttempt, AdmitWith;
    }
  }

  // ---- The interleaved protocol -----------------------------------------------------------------

  /** Where the writer is; `version` is the PRAGMA data_version it read first. */
  datatype Phase =
    | Arriving
    | Versioned(version: nat)
    | ReadCampaign(version: nat, row: Campaign)
    | ReadAttempts(version: nat, row: Campaign, entries: seq<Entry>)
    | Computed(version: nat, history: History)
    | Locked(version: nat, history: History)
    | Ready(history: History)
    | Done(before: Db, after: Db, result: Result<nat, StoreError>)

  /** The shared database, the commits other connections made, and the writer. */
  datatype World = World(db: Db, commits: nat, phase: Phase)

  /** The writer moves, or another connection commits anything at all. */
  datatype Move = Advance | Commit(db: Db)

  predicate HoldsLock(p: Phase) { p.Locked? || p.Ready? }

  function Advanced(codec: Codec, r: Request, now: int, w: World): World {
    var cid := Target(r);
    match w.phase
    case Arriving =>
      if Refusal(r).Some? then w.(phase := Done(w.db, w.db, Err(Refusal(r).value)))
      else w.(phase := Versioned(w.commits))
    case Versioned(version) =>
      if cid !in w.db.campaigns then w.(phase := Done(w.db, w.db, Err(NotFound)))
      else w.(phase := ReadCampaign(version, w.db.campaigns[cid]))
    case ReadCampaign(version, row) => w.(phase := ReadAttempts(version, row, Entries(w.db.attempts, cid)))
    case ReadAttempts(version, row, entries) =>
      w.(phase := Computed(version, HistoryState(codec, cid, row, entries, w.db.analyses)))
    case Computed(version, history) => w.(phase := Locked(version, history))
    case Locked(version, history) =>
      if w.commits == version then w.(phase := Ready(history))
      else if cid !in w.db.campaigns then w.(phase := Done(w.db, w.db, Err(NotFound)))
      else w.(phase := Ready(HistoryOf(codec, w.db, cid)))
    case Ready(history) =>
      if Refusal(r).Some? then w
      else
        var (after, result) := Write(w.db, r, history, now);
        World(after, w.commits, Done(w.db, after, result))
    case Done(_, _, _) => w
  }

  function Moved(codec: Codec, r: Request, now: int, w: World, m: Move): World {
    match m
    case Advance => Advanced(codec, r, now, w)
    case Commit(db) => if HoldsLock(w.phase) then w else w.(db := db, commits := w.commits + 1)
  }

  function Play(codec: Codec, r: Request, now: int, start: Db, moves: seq<Move>): World {
    if moves == [] then World(start, 0, Arriving)
    else Moved(codec, r, now, Play(codec, r, now, start, moves[..|moves| - 1]), moves[|moves| - 1])
  }

  // ---- Every interleaving is atomic ---------------------------------------------------------------

  /** While no other connection has committed, what was read is what is there; whatever was read, the
      state believed in under the lock is that of the locked database. */
  ghost predicate LockInv(codec: Codec, r: Request, now: int, w: World) {
    var cid := Target(r);
    var C := w.db.campaigns;
    match w.phase
    case Arriving => true
    case Versioned(version) => Refusal(r).None? && version <= w.commits
    case ReadCampaign(version, row) =>
      Refusal(r).None? && version <= w.commits && (version == w.commits ==> cid in C && row == C[cid])
    case ReadAttempts(version, row, entries) =>
      && Refusal(r).None? && version <= w.commits
      && (version == w.commits ==> cid in C && row == C[cid] && entries == Entries(w.db.attempts, cid))
    case Computed(version, history) =>
      && Refusal(r).None? && version <= w.commits
      && (version == w.commits ==> cid in C && history == HistoryOf(codec, w.db, cid))
    case Locked(version, history) =>
      && Refusal(r).None? && version <= w.commits
      && (version == w.commits ==> cid in C && history == HistoryOf(codec, w.db, cid))
    case Ready(history) => Refusal(r).None? && cid in C && history == HistoryOf(codec, w.db, cid)
    case Done(before, after, result) => (after, result) == Atomic(codec, before, r, now)
  }

  lemma MoveKeepsLockInv(codec: Codec, r: Request, now: int, w: World, m: Move)
    requires LockInv(codec, r, now, w)
    ensures LockInv(codec, r, now, Moved(codec, r, now, w, m))
  {
    hide Entries, Write, ProposeWith, RecordWith, AdmitWith, IsProposable;
    if m.Advance? && w.phase.Ready? { CurrentIsAtomic(codec, w.db, r, now); }
  }

  lemma {:induction false} PlayKeepsLockInv(codec: Codec, r: Request, now: int, start: Db, moves: seq<Move>)
    ensures LockInv(codec, r, now, Play(codec, r, now, start, moves))
  {
    if moves != [] {
      var n := |moves| - 1;
      hide LockInv, Moved;
      PlayKeepsLockInv(codec, r, now, start, moves[..n]);
      MoveKeepsLockInv(codec, r, now, Play(codec, r, now, start, moves[..n]), moves[n]);
    } else {
      assert Play(codec, r, now, start, moves).phase == Arriving;
    }
  }

  /** Under the write lock the history state is that of the locked database, in every interleaving and
      however torn the unlocked reads were. */
  lemma LockedStateIsCurrent(codec: Codec, r: Request, now: int, start: Db, moves: seq<Move>)
    requires Play(codec, r, now, start, moves).phase.Ready?
    ensures var w := Play(codec, r, now, start, moves);
      Target(r) in w.db.campaigns && w.phase.history == HistoryOf(codec, w.db, Target(r))
  {
    hide Play, HistoryState, Entries;
    PlayKeepsLockInv(codec, r, now, start, moves);
  }

  /** Every move of the writer either leaves the database alone or is the whole indivisible operation
      on the database of that moment, with its result. */
  lemma WriterIsAtomic(codec: Codec, r: Request, now: int, start: Db, moves: seq<Move>)
    ensures var w := Play(codec, r, now, start, moves);
      var next := Advanced(codec, r, now, w);
      && (next.phase.Done? && !w.phase.Done? ==> (next.db, next.phase.result) == Atomic(codec, w.db, r, now))
      && (!next.phase.Done? || w.phase.Done? ==> next.db == w.db)
  {
    PlayKeepsLockInv(codec, r, now, start, moves);
    hide Play;
    WriterMove(codec, r, now, Play(codec, r, now, start, moves));
  }

  lemma WriterMove(codec: Codec, r: Request, now: int, w: World)
    requires LockInv(codec, r, now, w)
    ensures var next := Advanced(codec, r, now, w);
      && (next.phase.Done? && !w.phase.Done? ==> (next.db, next.phase.result) == Atomic(codec, w.db, r, now))
      && (!next.phase.Done? || w.phase.Done? ==> next.db == w.db)
  {
    hide Entries, HistoryState, Write, ProposeWith, RecordWith, AdmitWith, IsProposable;
    if w.phase.Ready? { CurrentIsAtomic(codec, w.db, r, now); }
  }

  /** A lease is created or consumed only against the digest the campaign has at that moment. */
  lemma LeaseMatchesDigest(codec: Codec, r: Request, now: int, start: Db, moves: seq<Move>)
    requires r.Propose? || r.Start?
    requires Play(codec, r, now, start, moves).phase.Done? && Play(codec, r, now, start, moves).phase.result.Ok?
    ensures var done := Play(codec, r, now, start, moves).phase;
      && Target(r) in done.before.campaigns && (r.Start? ==> Requested(r.attempt).Some?)
      && var lease := if r.Propose? then done.result.value else Requested(r.attempt).value;
      && 0 <= lease < |done.after.analyses|
      && done.after.analyses[lease].campaign == Target(r)
      && done.after.analyses[lease].digest == HistoryOf(codec, done.before, Target(r)).digest
      && done.after.analyses[lease].after == HistoryOf(codec, done.before, Target(r)).count
  {
    PlayKeepsLockInv(codec, r, now, start, moves);
    hide Play, HistoryState, Entries, IsValidProposal, IsProposable, ClampBudget, BoundHypothesis, Strip;
  }

  /** Whatever other connections commit while a proposal or a start is on its way, it is accepted only if
      the digest that its proposal was made with, as the proposer supplied it, is the digest that the
      campaign has at the moment of the transaction. */
  lemma AcceptedDigestIsCurrent(codec: Codec, r: Request, now: int, start: Db, moves: seq<Move>)
    requires r.Propose? || r.Start?
    requires Play(codec, r, now, start, moves).phase.Done? && Play(codec, r, now, start, moves).phase.result.Ok?
    ensures var before := Play(codec, r, now, start, moves).phase.before;
      && Target(r) in before.campaigns
      && var digest := codec.sha256(HistoryText(codec, before, Target(r)));
      && (r.Propose? ==> Strip(r.proposal.digest) == digest)
      && (r.Start? ==>
            var id := if r.attempt.proposal.Some? then r.attempt.proposal else r.attempt.analysis;
            id.Some? && 0 <= id.value < |before.analyses| && before.analyses[id.value].digest == digest)
  {
    PlayKeepsLockInv(codec, r, now, start, moves);
    var before := Play(codec, r, now, start, moves).phase.before;
    match r {
      case Propose(p) => ProposesExactly(codec, before, p, now);
      case Start(n) => StartsExactly(codec, before, n, now);
      case _ =>
    }
    hide Play, HistoryText, CreateProposal, StartAttempt, Strip, Normalize;
  }

  /** The other connections are real: what they commit lands, and is seen as a new version, exactly while the
      writer does not hold the write lock. */
  lemma CommitsLandExactly(codec: Codec, r: Request, now: int, w: World, db: Db)
    ensures var next := Moved(codec, r, now, w, Commit(db));
      && next.phase == w.phase
      && (if w.phase.Locked? || w.phase.Ready? then next == w else next.db == db && next.commits > w.commits)
  {
  }
}
