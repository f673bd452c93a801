/** Scores, winners and the early-stop policy of a campaign (`experiments.py`). */
module Scores {
  import opened Prelude

  datatype Direction = Minimize | Maximize

  /** The numerical margin added to the improvement threshold. */
  const MARGIN: real := 0.000000000001

  datatype Policy = Policy(
    direction: Direction, budget: int, budgetMin: int, budgetMax: int,
    maxAttempts: int, patience: int, minDelta: real, maxFailures: int, target: Option<real>)

  /** What `ExperimentConfig` accepts. */
  predicate ValidPolicy(p: Policy) {
    && 1 <= p.budgetMin <= p.budget <= p.budgetMax <= 3600
    && p.maxAttempts >= 0 && p.patience >= 0 && p.maxFailures >= 0
    && p.minDelta >= 0.0
  }

  /** How much better `candidate` is than `incumbent`. */
  function Gain(direction: Direction, candidate: real, incumbent: real): real {
    if direction.Minimize? then incumbent - candidate else candidate - incumbent
  }

  /** `score_improved`; a missing score stands for one that was absent or not finite. */
  predicate ScoreImproved(candidate: Option<real>, incumbent: Option<real>, p: Policy) {
    && candidate.Some?
    && (incumbent.Some? ==> Gain(p.direction, candidate.value, incumbent.value) > p.minDelta + MARGIN)
  }

  predicate TargetReached(score: Option<real>, p: Policy) {
    && score.Some? && p.target.Some?
    && (if p.direction.Minimize? then score.value <= p.target.value else score.value >= p.target.value)
  }

  // ---- The winner of a history of scores ---------------------------------------------

  /** The score left standing after every attempt challenged it in turn. */
  function BestOf(history: seq<Option<real>>, p: Policy): Option<real> {
    if history == [] then None
    else
      var incumbent := BestOf(history[..|history| - 1], p);
      var last := history[|history| - 1];
      if ScoreImproved(last, incumbent, p) then last else incumbent
  }

  /** Attempt i was a winner when it finished. */
  predicate WonAt(history: seq<Option<real>>, i: nat, p: Policy)
    requires i < |history|
  {
    ScoreImproved(history[i], BestOf(history[..i], p), p)
  }

  function Wins(history: seq<Option<real>>, p: Policy): nat {
    if history == [] then 0
    else Wins(history[..|history| - 1], p) + if WonAt(history, |history| - 1, p) then 1 else 0
  }

  /** The first score of a history. */
  function Baseline(history: seq<Option<real>>): Option<real> {
    if history == [] then None
    else if history[0].Some? then history[0]
    else Baseline(history[1..])
  }

  lemma {:induction false} BestExists(history: seq<Option<real>>, p: Policy)
    ensures BestOf(history, p).None? <==> forall i :: 0 <= i < |history| ==> history[i].None?
  {
    if history != [] {
      var init := history[..|history| - 1];
      BestExists(init, p);
      assert history == init + [history[|history| - 1]];
    }
  }

  /** Nothing in the history beats the winner by more than the threshold. */
  lemma {:induction false} BestIsUnbeaten(history: seq<Option<real>>, p: Policy, i: nat)
    requires p.minDelta >= 0.0 && i < |history| && history[i].Some?
    ensures BestOf(history, p).Some?
    ensures var x, best := history[i].value, BestOf(history, p).value;
      if p.direction.Minimize? then x >= best - p.minDelta - MARGIN else x <= best + p.minDelta + MARGIN
  {
    var n := |history| - 1;
    if i < n {
      BestIsUnbeaten(history[..n], p, i);
    }
  }

  /** The winner is the score of the last winning attempt. */
  lemma {:induction false} BestIsLastWin(history: seq<Option<real>>, p: Policy, i: nat)
    requires i < |history| && WonAt(history, i, p)
    requires forall j :: i < j < |history| ==> !WonAt(history, j, p)
    ensures BestOf(history, p) == history[i]
  {
    var n := |history| - 1;
    if i < n {
      var init := history[..n];
      assert !WonAt(history, n, p);
      forall j | i < j < n ensures !WonAt(init, j, p) {
        assert init[..j] == history[..j];
        assert !WonAt(history, j, p);
      }
      assert init[..i] == history[..i];
      BestIsLastWin(init, p, i);
    }
  }

  lemma {:induction false} BaselineSnoc(init: seq<Option<real>>, last: Option<real>)
    ensures Baseline(init + [last]) == if Baseline(init).Some? then Baseline(init) else last
  {
    if init != [] {
      assert (init + [last])[1..] == init[1..] + [last];
      BaselineSnoc(init[1..], last);
    }
  }

  lemma Gains(d: Direction, a: real, b: real, c: real)
    ensures Gain(d, a, c) == Gain(d, a, b) + Gain(d, b, c) && Gain(d, a, a) == 0.0
  {
  }

  lemma OneMore(k: int, step: real)
    ensures (k + 1) as real * step == k as real * step + step
  {
  }

  lemma {:induction false} GainsAddUp(history: seq<Option<real>>, p: Policy)
    requires p.minDelta >= 0.0
    ensures Wins(history, p) == 0 <==> BestOf(history, p).None?
    ensures BestOf(history, p).Some? <==> Baseline(history).Some?
    ensures BestOf(history, p).Some? ==>
      Gain(p.direction, BestOf(history, p).value, Baseline(history).value)
        >= (Wins(history, p) - 1) as real * (p.minDelta + MARGIN)
    ensures Wins(history, p) > 1 ==>
      Gain(p.direction, BestOf(history, p).value, Baseline(history).value)
        > (Wins(history, p) - 1) as real * (p.minDelta + MARGIN)
  {
    hide Gain;
    if history != [] {
      var n := |history| - 1;
      var init := history[..n];
      GainsAddUp(init, p);
      BaselineSnoc(init, history[n]);
      assert history == init + [history[n]];
      if WonAt(history, n, p) {
        var score := history[n].value;
        OneMore(Wins(init, p) - 1, p.minDelta + MARGIN);
        if BestOf(init, p).Some? {
          Gains(p.direction, score, BestOf(init, p).value, Baseline(init).value);
        } else {
          Gains(p.direction, score, score, score);
        }
      }
    }
  }

  /** k winning attempts put the winner at least k - 1 thresholds ahead of the first score: below it when
      the metric is minimized, above it otherwise. */
  lemma WinsAddUp(history: seq<Option<real>>, p: Policy)
    requires p.minDelta >= 0.0
    ensures Wins(history, p) == 0 <==> BestOf(history, p).None?
    ensures BestOf(history, p).Some? <==> Baseline(history).Some?
    ensures BestOf(history, p).Some? ==>
      var best, first, k := BestOf(history, p).value, Baseline(history).value, Wins(history, p);
      && var ahead := if p.direction.Minimize? then first - best else best - first;
      && ahead >= (k - 1) as real * (p.minDelta + MARGIN)
      && (k > 1 ==> ahead > (k - 1) as real * (p.minDelta + MARGIN))
  {
    hide BestOf, Wins, Baseline;
    GainsAddUp(history, p);
  }

  /** k > 1 winning attempts put the winner more than (k - 1) thresholds ahead of the first score. */
  lemma WinnersImprove(history: seq<Option<real>>, p: Policy)
    requires p.minDelta >= 0.0 && Wins(history, p) > 1
    ensures BestOf(history, p).Some? && Baseline(history).Some?
    ensures var best, first, k := BestOf(history, p).value, Baseline(history).value, Wins(history, p);
      (if p.direction.Minimize? then first - best else best - first)
      > (k - 1) as real * (p.minDelta + MARGIN) > (k - 1) as real * p.minDelta
  {
    hide BestOf, Wins, Baseline;
    WinsAddUp(history, p);
    var m := (Wins(history, p) - 1) as real;
    assert m * (p.minDelta + MARGIN) == m * p.minDelta + m * MARGIN;
    assert m * MARGIN > 0.0;
  }

  // ---- The stop policy -----------------------------------------------------------------

  datatype Decision = Pending | Kept | Rejected

  datatype Outcome = Outcome(status: string, decision: Decision)

  datatype Terminal = Finished | Exhausted

  /** `StopEvaluation`: go on, or stop with a reason as completed or failed. */
  datatype StopEvaluation = GoOn | Stop(reason: string, terminal: Terminal)

  /** The number of outcomes at the end that all lack the wanted mark. */
  ghost predicate IsTrailing(outcomes: seq<Outcome>, marked: Outcome -> bool, k: nat) {
    && k <= |outcomes|
    && (forall i :: |outcomes| - k <= i < |outcomes| ==> !marked(outcomes[i]))
    && (k < |outcomes| ==> marked(outcomes[|outcomes| - k - 1]))
  }

  function Trailing(outcomes: seq<Outcome>, marked: Outcome -> bool): (k: nat)
    ensures IsTrailing(outcomes, marked, k)
  {
    if outcomes == [] || marked(outcomes[|outcomes| - 1]) then 0
    else 1 + Trailing(outcomes[..|outcomes| - 1], marked)
  }

  lemma TrailingIsUnique(outcomes: seq<Outcome>, marked: Outcome -> bool, k: nat)
    requires IsTrailing(outcomes, marked, k)
    ensures k == Trailing(outcomes, marked)
  {
    var t := Trailing(outcomes, marked);
    if t < |outcomes| { assert marked(outcomes[|outcomes| - t - 1]); }
    if k < |outcomes| { assert marked(outcomes[|outcomes| - k - 1]); }
  }

  function IsOk(): Outcome -> bool { (o: Outcome) => o.status == "ok" }

  function IsKept(): Outcome -> bool { (o: Outcome) => o.decision == Kept }

  /** The policy: target first, then failures, then the attempt limit, then patience. */
  function StopDecision(outcomes: seq<Outcome>, best: Option<real>, p: Policy): StopEvaluation {
    if TargetReached(best, p) then Stop("target_reached", Finished)
    else if p.maxFailures > 0 && Trailing(outcomes, IsOk()) >= p.maxFailures then Stop("max_failures", Exhausted)
    else if p.maxAttempts > 0 && |outcomes| >= p.maxAttempts then Stop("max_attempts", Finished)
    else if p.patience > 0 && Trailing(outcomes, IsKept()) >= p.patience then Stop("patience_exhausted", Finished)
    else GoOn
  }

  /** `evaluate_stop`. */
  method EvaluateStop(outcomes: seq<Outcome>, best: Option<real>, p: Policy) returns (r: StopEvaluation)
    ensures r == StopDecision(outcomes, best, p)
  {
    if TargetReached(best, p) {
      return Stop("target_reached", Finished);
    }
    var failures := 0;
    while failures < |outcomes| && outcomes[|outcomes| - 1 - failures].status != "ok"
      invariant failures <= |outcomes|
      invariant forall i :: |outcomes| - failures <= i < |outcomes| ==> !IsOk()(outcomes[i])
    {
      failures := failures + 1;
    }
    TrailingIsUnique(outcomes, IsOk(), failures);
    if p.maxFailures > 0 && failures >= p.maxFailures {
      return Stop("max_failures", Exhausted);
    }
    if p.maxAttempts > 0 && |outcomes| >= p.maxAttempts {
      return Stop("max_attempts", Finished);
    }
    var withoutWinner := 0;
    while withoutWinner < |outcomes| && outcomes[|outcomes| - 1 - withoutWinner].decision != Kept
      invariant withoutWinner <= |outcomes|
      invariant forall i :: |outcomes| - withoutWinner <= i < |outcomes| ==> !IsKept()(outcomes[i])
    {
      withoutWinner := withoutWinner + 1;
    }
    TrailingIsUnique(outcomes, IsKept(), withoutWinner);
    if p.patience > 0 && withoutWinner >= p.patience {
      return Stop("patience_exhausted", Finished);
    }
    return GoOn;
  }
}
