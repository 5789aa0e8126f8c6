/** The autonomous goal loops: the ACP loop (internal/acp/goal.go), the headless
    loop (cmd/spettro/headless_goal.go) and the verdict they share
    (internal/agent/goal.go).  An agent run is an adversary that either fails or
    ends with a workspace signature and possibly a goal-complete call. */
module GoalLoop {
  import opened Wrappers

  /** A workspace fingerprint; only equality matters. */
  type Signature = int

  /** What one agent run did. */
  datatype Outcome = Failed | Finished(goalComplete: bool, signature: Signature)

  datatype Decision = Continue | Complete | Stalled | MaxIterations

  /** `maxIterations == 0` means unlimited. */
  datatype Config = Config(maxIterations: nat, noProgressLimit: nat)

  const MAX_GOAL_RETRIES := 2

  /** The fields of the loop that survive an agent run. */
  datatype Goal = Goal(iteration: int, noProgress: nat, lastSignature: Signature, strikes: nat)

  datatype Loop = Running(goal: Goal) | Stopped(why: Decision)

  // ---------------------------------------------------------------------
  // The shared verdict

  /** The verdict on a finished run, and the state it leaves. */
  function Judge(cfg: Config, g: Goal, goalComplete: bool, signature: Signature): (Decision, Goal) {
    if goalComplete then (Complete, g)
    else if cfg.maxIterations > 0 && g.iteration >= cfg.maxIterations then (MaxIterations, g)
    else
      var n := if signature == g.lastSignature then g.noProgress + 1 else 0;
      var g' := g.(noProgress := n, lastSignature := signature);
      (if n >= cfg.noProgressLimit then Stalled else Continue, g')
  }

  class GoalState {
    var iteration: int
    var noProgress: nat
    var lastSignature: Signature
    const cfg: Config

    constructor (cfg: Config, signature: Signature)
      ensures this.cfg == cfg && iteration == 0 && noProgress == 0 && lastSignature == signature
    {
      this.cfg := cfg;
      iteration, noProgress, lastSignature := 0, 0, signature;
    }

    /** The fields as a value; `strikes` is the loop's own failure counter. */
    function View(strikes: nat): Goal reads this {
      Goal(iteration, noProgress, lastSignature, strikes)
    }

    method ShouldContinueGoal(goalComplete: bool, signature: Signature) returns (d: Decision)
      modifies this`noProgress, this`lastSignature
      ensures forall s: nat :: Judge(cfg, old(View(s)), goalComplete, signature) == (d, View(s))
    {
      if goalComplete { return Complete; }
      if cfg.maxIterations > 0 && iteration >= cfg.maxIterations { return MaxIterations; }
      if signature == lastSignature {
        noProgress := noProgress + 1;
      } else {
        noProgress := 0;
      }
      lastSignature := signature;
      if noProgress >= cfg.noProgressLimit { return Stalled; }
      return Continue;
    }
  }

  // ---------------------------------------------------------------------
  // One agent run of each loop, as a step

  function AfterVerdict(cfg: Config, g: Goal, o: Outcome): Loop
    requires o.Finished?
  {
    var (d, g') := Judge(cfg, g, o.goalComplete, o.signature);
    if d == Continue then Running(g') else Stopped(d)
  }

  /** ACP: a failed run is retried twice within its iteration, the third failure
      is a no-progress strike; `strikes` is the retry counter. */
  function AcpStep(cfg: Config, g: Goal, o: Outcome): Loop {
    match o
    case Failed =>
      if g.strikes + 1 <= MAX_GOAL_RETRIES then
        Running(g.(strikes := g.strikes + 1))
      else
        var g' := g.(iteration := g.iteration + 1, strikes := 0, noProgress := g.noProgress + 1);
        if g'.noProgress >= cfg.noProgressLimit then Stopped(Stalled) else Running(g')
    case Finished(_, _) =>
      AfterVerdict(cfg, g.(iteration := g.iteration + 1, strikes := 0), o)
  }

  /** Headless: every failed run is an iteration of its own; `strikes` counts
      consecutive failures apart from the no-progress counter. */
  function HeadlessStep(cfg: Config, g: Goal, o: Outcome): Loop {
    var g1 := g.(iteration := g.iteration + 1);
    match o
    case Failed =>
      var g' := g1.(strikes := g.strikes + 1);
      if g'.strikes >= cfg.noProgressLimit then Stopped(Stalled) else Running(g')
    case Finished(_, _) => AfterVerdict(cfg, g1.(strikes := 0), o)
  }

  /** The loop after its first `n` agent runs. */
  function AcpAfter(cfg: Config, first: Signature, outcomes: nat -> Outcome, n: nat): Loop {
    if n == 0 then Running(Goal(0, 0, first, 0))
    else match AcpAfter(cfg, first, outcomes, n - 1)
      case Running(g) => AcpStep(cfg, g, outcomes(n - 1))
      case Stopped(d) => Stopped(d)
  }

  function HeadlessAfter(cfg: Config, first: Signature, outcomes: nat -> Outcome, n: nat): Loop {
    if n == 0 then Running(Goal(0, 0, first, 0))
    else match HeadlessAfter(cfg, first, outcomes, n - 1)
      case Running(g) => HeadlessStep(cfg, g, outcomes(n - 1))
      case Stopped(d) => Stopped(d)
  }

  // ---------------------------------------------------------------------
  // The bounds

  function AcpBound(cfg: Config): int { 3 * (cfg.maxIterations + cfg.noProgressLimit - 1) }

  function HeadlessBound(cfg: Config): int { cfg.maxIterations + cfg.noProgressLimit - 1 }

  /** Retries roll the iteration counter back, yet every agent run uses up part
      of the bound: an iteration past the cap is always a strike. */
  lemma {:induction false} AcpProgress(cfg: Config, first: Signature, outcomes: nat -> Outcome, n: nat)
    requires cfg.maxIterations > 0 && cfg.noProgressLimit > 0
    ensures var l := AcpAfter(cfg, first, outcomes, n);
            l.Running? ==>
              && l.goal.strikes <= MAX_GOAL_RETRIES
              && l.goal.noProgress < cfg.noProgressLimit
              && l.goal.iteration <= cfg.maxIterations - 1 + l.goal.noProgress
              && n <= 3 * l.goal.iteration + l.goal.strikes
  {
    if n > 0 { AcpProgress(cfg, first, outcomes, n - 1); }
  }

  lemma {:induction false} HeadlessProgress(cfg: Config, first: Signature, outcomes: nat -> Outcome, n: nat)
    requires cfg.maxIterations > 0 && cfg.noProgressLimit > 0
    ensures var l := HeadlessAfter(cfg, first, outcomes, n);
            l.Running? ==>
              && l.goal.strikes < cfg.noProgressLimit
              && l.goal.iteration <= cfg.maxIterations - 1 + l.goal.strikes
              && n == l.goal.iteration
  {
    if n > 0 { HeadlessProgress(cfg, first, outcomes, n - 1); }
  }

  /** No pattern of failures and progress keeps the ACP loop going past the bound,
      which is at most M(3L+1). */
  lemma AcpBounded(cfg: Config, first: Signature, outcomes: nat -> Outcome)
    requires cfg.maxIterations > 0 && cfg.noProgressLimit > 0
    ensures AcpBound(cfg) >= 0 && AcpAfter(cfg, first, outcomes, AcpBound(cfg)).Stopped?
    ensures AcpBound(cfg) <= cfg.maxIterations * (3 * cfg.noProgressLimit + 1)
  {
    AcpProgress(cfg, first, outcomes, AcpBound(cfg));
    BoundBelowProduct(cfg.maxIterations, cfg.noProgressLimit);
  }

  lemma {:induction false} BoundBelowProduct(m: nat, l: nat)
    requires m > 0 && l > 0
    ensures 3 * (m + l - 1) <= m * (3 * l + 1)
  {
    if m > 1 {
      BoundBelowProduct(m - 1, l);
      assert m * (3 * l + 1) == (m - 1) * (3 * l + 1) + (3 * l + 1);
    }
  }

  lemma HeadlessBounded(cfg: Config, first: Signature, outcomes: nat -> Outcome)
    requires cfg.maxIterations > 0 && cfg.noProgressLimit > 0
    ensures HeadlessAfter(cfg, first, outcomes, HeadlessBound(cfg)).Stopped?
  {
    HeadlessProgress(cfg, first, outcomes, HeadlessBound(cfg));
  }

  /** The adversary that reaches the bounds: progress at the last allowed attempt
      of every iteration below the cap, failures from there on. */
  function Worst(first: Signature, m: nat, tries: nat): nat -> Outcome
    requires m > 0 && tries > 0
  {
    k => if k < tries * (m - 1) && k % tries == tries - 1 then Finished(false, first + 1 + k) else Failed
  }

  lemma {:induction false} AcpWorstState(cfg: Config, first: Signature, n: nat)
    requires cfg.maxIterations > 0 && cfg.noProgressLimit > 0 && n < AcpBound(cfg)
    ensures var l := AcpAfter(cfg, first, Worst(first, cfg.maxIterations, 3), n);
            && l.Running?
            && l.goal.iteration == n / 3
            && l.goal.strikes == n % 3
            && l.goal.noProgress == (if n / 3 < cfg.maxIterations then 0 else n / 3 - (cfg.maxIterations - 1))
            && l.goal.lastSignature < first + 1 + n
  {
    if n > 0 { AcpWorstState(cfg, first, n - 1); }
  }

  lemma {:induction false} HeadlessWorstState(cfg: Config, first: Signature, n: nat)
    requires cfg.maxIterations > 0 && cfg.noProgressLimit > 0 && n < HeadlessBound(cfg)
    ensures var l := HeadlessAfter(cfg, first, Worst(first, cfg.maxIterations, 1), n);
            && l.Running?
            && l.goal.iteration == n
            && l.goal.strikes == (if n < cfg.maxIterations then 0 else n - (cfg.maxIterations - 1))
            && l.goal.noProgress == 0
            && l.goal.lastSignature < first + 1 + n
  {
    if n > 0 { HeadlessWorstState(cfg, first, n - 1); }
  }

  /** Both bounds are attained, so neither can be lowered. */
  lemma BoundsAttained(cfg: Config, first: Signature)
    requires cfg.maxIterations > 0 && cfg.noProgressLimit > 0
    ensures AcpAfter(cfg, first, Worst(first, cfg.maxIterations, 3), AcpBound(cfg) - 1).Running?
    ensures HeadlessAfter(cfg, first, Worst(first, cfg.maxIterations, 1), HeadlessBound(cfg) - 1).Running?
  {
    AcpWorstState(cfg, first, AcpBound(cfg) - 1);
    HeadlessWorstState(cfg, first, HeadlessBound(cfg) - 1);
  }

  /** With no iteration cap, an agent that changes the workspace every time is
      never stopped by either loop: the cap is what bounds them. */
  lemma {:induction false} UnlimitedNeverStops(cfg: Config, first: Signature, n: nat)
    requires cfg.maxIterations == 0 && cfg.noProgressLimit > 0
    ensures var progress := (k: nat) => Finished(false, first + 1 + k);
            && AcpAfter(cfg, first, progress, n) == Running(Goal(n, 0, first + n, 0))
            && HeadlessAfter(cfg, first, progress, n) == Running(Goal(n, 0, first + n, 0))
  {
    if n > 0 { UnlimitedNeverStops(cfg, first, n - 1); }
  }

  // ---------------------------------------------------------------------
  // When a loop stops, and why, said of what the agent runs did

  /** How many of the first `n` runs, counted from the last one back, failed in a row. */
  function FailedLast(outcomes: nat -> Outcome, n: nat): (k: nat)
    ensures k <= n
  {
    if n > 0 && outcomes(n - 1).Failed? then FailedLast(outcomes, n - 1) + 1 else 0
  }

  /** The workspace before the first run and after every finished one; with `givesUp`
      also after each third failure in a row, which leaves it as it was. */
  function Workspaces(first: Signature, outcomes: nat -> Outcome, n: nat, givesUp: bool): (ws: seq<Signature>)
    ensures |ws| > 0
  {
    if n == 0 then [first] else
      var was := Workspaces(first, outcomes, n - 1, givesUp);
      match outcomes(n - 1)
      case Finished(_, signature) => was + [signature]
      case Failed => if givesUp && FailedLast(outcomes, n) % 3 == 0 then was + [was[|was| - 1]] else was
  }

  /** The last `k` steps changed nothing. */
  predicate Unchanged(ws: seq<Signature>, k: nat) {
    k < |ws| && forall i :: |ws| - 1 - k <= i < |ws| ==> ws[i] == ws[|ws| - 1]
  }

  predicate CallsComplete(o: Outcome) { o.Finished? && o.goalComplete }

  /** ACP, after `n` runs: a goal-complete call completes the goal; otherwise an iteration
      at the cap ends it, but only a finished one; otherwise the goal stalls once the last
      `noProgressLimit` iterations, finished or given up, changed nothing. */
  function AcpVerdict(cfg: Config, first: Signature, outcomes: nat -> Outcome, n: nat): Decision
    requires n > 0
  {
    var ws := Workspaces(first, outcomes, n, true);
    if CallsComplete(outcomes(n - 1)) then Complete
    else if outcomes(n - 1).Finished? && 0 < cfg.maxIterations < |ws| then MaxIterations
    else if FailedLast(outcomes, n) % 3 == 0 && Unchanged(ws, cfg.noProgressLimit) then Stalled
    else Continue
  }

  /** Headless: every run is an iteration, and the goal stalls once the last
      `noProgressLimit` runs failed or as many finished ones changed nothing. */
  function HeadlessVerdict(cfg: Config, first: Signature, outcomes: nat -> Outcome, n: nat): Decision
    requires n > 0
  {
    if CallsComplete(outcomes(n - 1)) then Complete
    else if outcomes(n - 1).Finished? && 0 < cfg.maxIterations <= n then MaxIterations
    else if outcomes(n - 1).Failed? then
      if FailedLast(outcomes, n) >= cfg.noProgressLimit then Stalled else Continue
    else if Unchanged(Workspaces(first, outcomes, n, false), cfg.noProgressLimit) then Stalled
    else Continue
  }

  /** `noProgress` is how long the workspace has not changed. */
  ghost predicate Counts(noProgress: nat, ws: seq<Signature>) {
    forall k: nat :: Unchanged(ws, k) <==> k <= noProgress
  }

  lemma CountsMore(n: nat, ws: seq<Signature>, signature: Signature)
    requires |ws| > 0 && Counts(n, ws)
    ensures Counts(if signature == ws[|ws| - 1] then n + 1 else 0, ws + [signature])
  {
    var more := ws + [signature];
    forall k: nat
      ensures Unchanged(more, k) <==> k <= if signature == ws[|ws| - 1] then n + 1 else 0
    {
      if k > 0 {
        assert more[|more| - 2] == ws[|ws| - 1];
        if signature == ws[|ws| - 1] {
          assert Unchanged(ws, k - 1) <==> k - 1 <= n;
          assert Unchanged(more, k) ==> Unchanged(ws, k - 1) by {
            assert forall i :: 0 <= i < |ws| ==> ws[i] == more[i];
          }
        }
      }
    }
  }

  /** While the ACP loop runs, its counters are what the runs so far say. */
  lemma {:induction false} AcpCounters(cfg: Config, first: Signature, outcomes: nat -> Outcome, n: nat)
    requires AcpAfter(cfg, first, outcomes, n).Running?
    ensures var g, ws := AcpAfter(cfg, first, outcomes, n).goal, Workspaces(first, outcomes, n, true);
            && g.iteration == |ws| - 1 && g.strikes == FailedLast(outcomes, n) % 3
            && g.lastSignature == ws[|ws| - 1] && Counts(g.noProgress, ws)
  {
    hide Counts;
    if n == 0 {
      CountsNone(first);
    } else {
      AcpCounters(cfg, first, outcomes, n - 1);
      var g, ws := AcpAfter(cfg, first, outcomes, n - 1).goal, Workspaces(first, outcomes, n - 1, true);
      CountsMore(g.noProgress, ws, g.lastSignature);
      if outcomes(n - 1).Finished? { CountsMore(g.noProgress, ws, outcomes(n - 1).signature); }
    }
  }

  lemma CountsNone(first: Signature)
    ensures Counts(0, [first])
  {
  }

  lemma {:induction false} HeadlessCounters(cfg: Config, first: Signature, outcomes: nat -> Outcome, n: nat)
    requires HeadlessAfter(cfg, first, outcomes, n).Running?
    ensures var g, ws := HeadlessAfter(cfg, first, outcomes, n).goal, Workspaces(first, outcomes, n, false);
            && g.iteration == n && g.strikes == FailedLast(outcomes, n)
            && g.lastSignature == ws[|ws| - 1] && Counts(g.noProgress, ws)
  {
    hide Counts;
    if n == 0 {
      CountsNone(first);
    } else {
      HeadlessCounters(cfg, first, outcomes, n - 1);
      var g, ws := HeadlessAfter(cfg, first, outcomes, n - 1).goal, Workspaces(first, outcomes, n - 1, false);
      if outcomes(n - 1).Finished? { CountsMore(g.noProgress, ws, outcomes(n - 1).signature); }
    }
  }

  /** What a loop shows after a run: the verdict, unless it is to go on. */
  predicate Shows(l: Loop, d: Decision) { if d == Continue then l.Running? else l == Stopped(d) }

  /** A running ACP loop stops after the next run exactly when the runs say so, and why. */
  lemma AcpStopsWhen(cfg: Config, first: Signature, outcomes: nat -> Outcome, n: nat)
    requires n > 0 && AcpAfter(cfg, first, outcomes, n - 1).Running?
    ensures Shows(AcpAfter(cfg, first, outcomes, n), AcpVerdict(cfg, first, outcomes, n))
  {
    hide Unchanged;
    AcpCounters(cfg, first, outcomes, n - 1);
    var g, ws := AcpAfter(cfg, first, outcomes, n - 1).goal, Workspaces(first, outcomes, n - 1, true);
    CountsMore(g.noProgress, ws, g.lastSignature);
    if outcomes(n - 1).Finished? { CountsMore(g.noProgress, ws, outcomes(n - 1).signature); }
  }

  /** So does the headless loop. */
  lemma HeadlessStopsWhen(cfg: Config, first: Signature, outcomes: nat -> Outcome, n: nat)
    requires n > 0 && HeadlessAfter(cfg, first, outcomes, n - 1).Running?
    ensures Shows(HeadlessAfter(cfg, first, outcomes, n), HeadlessVerdict(cfg, first, outcomes, n))
  {
    hide Unchanged;
    HeadlessCounters(cfg, first, outcomes, n - 1);
    var g, ws := HeadlessAfter(cfg, first, outcomes, n - 1).goal, Workspaces(first, outcomes, n - 1, false);
    if outcomes(n - 1).Finished? { CountsMore(g.noProgress, ws, outcomes(n - 1).signature); }
  }

  lemma CompleteWhenCalled(cfg: Config, first: Signature, outcomes: nat -> Outcome, n: nat)
    requires n > 0
    ensures AcpVerdict(cfg, first, outcomes, n) == Complete <==> CallsComplete(outcomes(n - 1))
    ensures HeadlessVerdict(cfg, first, outcomes, n) == Complete <==> CallsComplete(outcomes(n - 1))
  {
  }

  /** The outcomes of a list of agent runs, as a function; what lies beyond is not used. */
  function At(outcomes: seq<Outcome>): nat -> Outcome {
    (k: nat) => if k < |outcomes| then outcomes[k] else Failed
  }

  lemma {:induction false} AcpRunningBefore(cfg: Config, first: Signature, outcomes: nat -> Outcome, k: nat, n: nat)
    requires k <= n && AcpAfter(cfg, first, outcomes, n).Running?
    ensures AcpAfter(cfg, first, outcomes, k).Running?
    decreases n
  {
    if k < n { AcpRunningBefore(cfg, first, outcomes, k, n - 1); }
  }

  /** Where the loop ends its runs, and why, is what the runs themselves say. */
  lemma AcpDecides(cfg: Config, first: Signature, outcomes: seq<Outcome>, runs: nat, why: Option<Decision>)
    requires runs <= |outcomes| && (why.None? ==> runs == |outcomes|)
    requires if why.None? then AcpAfter(cfg, first, At(outcomes), runs).Running?
             else runs > 0 && AcpAfter(cfg, first, At(outcomes), runs - 1).Running? &&
                  AcpAfter(cfg, first, At(outcomes), runs) == Stopped(why.value)
    ensures why.Some? ==> why.value == AcpVerdict(cfg, first, At(outcomes), runs) != Continue
    ensures forall k :: 0 < k < runs ==> AcpVerdict(cfg, first, At(outcomes), k) == Continue
    ensures why.None? && runs > 0 ==> AcpVerdict(cfg, first, At(outcomes), runs) == Continue
    ensures why == Some(Complete) <==> runs > 0 && CallsComplete(outcomes[runs - 1])
    ensures cfg.maxIterations > 0 && cfg.noProgressLimit > 0 ==>
              runs <= AcpBound(cfg) && (why.None? ==> runs < AcpBound(cfg))
  {
    hide AcpVerdict, CallsComplete;
    forall k | 0 < k <= runs
      ensures Shows(AcpAfter(cfg, first, At(outcomes), k), AcpVerdict(cfg, first, At(outcomes), k))
      ensures k < runs || why.None? ==> AcpAfter(cfg, first, At(outcomes), k).Running?
    {
      if why.None? { AcpRunningBefore(cfg, first, At(outcomes), k, runs); }
      AcpRunningBefore(cfg, first, At(outcomes), k - 1, if why.None? then runs else runs - 1);
      AcpStopsWhen(cfg, first, At(outcomes), k);
      if k < runs { AcpRunningBefore(cfg, first, At(outcomes), k, if why.None? then runs else runs - 1); }
    }
    if runs > 0 { CompleteWhenCalled(cfg, first, At(outcomes), runs); }
    if cfg.maxIterations > 0 && cfg.noProgressLimit > 0 {
      AcpProgress(cfg, first, At(outcomes), if why.None? then runs else runs - 1);
    }
  }

  lemma {:induction false} HeadlessRunningBefore(cfg: Config, first: Signature, outcomes: nat -> Outcome, k: nat, n: nat)
    requires k <= n && HeadlessAfter(cfg, first, outcomes, n).Running?
    ensures HeadlessAfter(cfg, first, outcomes, k).Running?
    decreases n
  {
    if k < n { HeadlessRunningBefore(cfg, first, outcomes, k, n - 1); }
  }

  /** Where the loop ends its runs, and why, is what the runs themselves say. */
  lemma HeadlessDecides(cfg: Config, first: Signature, outcomes: seq<Outcome>, runs: nat, why: Option<Decision>)
    requires runs <= |outcomes| && (why.None? ==> runs == |outcomes|)
    requires if why.None? then HeadlessAfter(cfg, first, At(outcomes), runs).Running?
             else runs > 0 && HeadlessAfter(cfg, first, At(outcomes), runs - 1).Running? &&
                  HeadlessAfter(cfg, first, At(outcomes), runs) == Stopped(why.value)
    ensures why.Some? ==> why.value == HeadlessVerdict(cfg, first, At(outcomes), runs) != Continue
    ensures forall k :: 0 < k < runs ==> HeadlessVerdict(cfg, first, At(outcomes), k) == Continue
    ensures why.None? && runs > 0 ==> HeadlessVerdict(cfg, first, At(outcomes), runs) == Continue
    ensures why == Some(Complete) <==> runs > 0 && CallsComplete(outcomes[runs - 1])
    ensures cfg.maxIterations > 0 && cfg.noProgressLimit > 0 ==>
              runs <= HeadlessBound(cfg) && (why.None? ==> runs < HeadlessBound(cfg))
  {
    hide HeadlessVerdict, CallsComplete;
    forall k | 0 < k <= runs
      ensures Shows(HeadlessAfter(cfg, first, At(outcomes), k), HeadlessVerdict(cfg, first, At(outcomes), k))
      ensures k < runs || why.None? ==> HeadlessAfter(cfg, first, At(outcomes), k).Running?
    {
      if why.None? { HeadlessRunningBefore(cfg, first, At(outcomes), k, runs); }
      HeadlessRunningBefore(cfg, first, At(outcomes), k - 1, if why.None? then runs else runs - 1);
      HeadlessStopsWhen(cfg, first, At(outcomes), k);
      if k < runs { HeadlessRunningBefore(cfg, first, At(outcomes), k, if why.None? then runs else runs - 1); }
    }
    if runs > 0 { CompleteWhenCalled(cfg, first, At(outcomes), runs); }
    if cfg.maxIterations > 0 && cfg.noProgressLimit > 0 {
      HeadlessProgress(cfg, first, At(outcomes), if why.None? then runs else runs - 1);
    }
  }

  // ---------------------------------------------------------------------
  // The loops themselves

  /** `/goal` over ACP, until it stops or the agent runs do: exactly as the step relation
      says, with the verdict of its last run, and within the bound if there is a cap. */
  method RunGoalCommand(cfg: Config, first: Signature, outcomes: seq<Outcome>) returns (runs: nat, why: Option<Decision>)
    ensures runs <= |outcomes|
    ensures why.Some? ==> runs > 0 && AcpAfter(cfg, first, At(outcomes), runs) == Stopped(why.value)
    ensures why.Some? ==> AcpAfter(cfg, first, At(outcomes), runs - 1).Running?
    ensures why.None? ==> runs == |outcomes| && AcpAfter(cfg, first, At(outcomes), runs).Running?
    ensures why.Some? ==> why.value == AcpVerdict(cfg, first, At(outcomes), runs) != Continue
    ensures forall k :: 0 < k < runs ==> AcpVerdict(cfg, first, At(outcomes), k) == Continue
    ensures why.None? && runs > 0 ==> AcpVerdict(cfg, first, At(outcomes), runs) == Continue
    ensures why == Some(Complete) <==> runs > 0 && CallsComplete(outcomes[runs - 1])
    ensures cfg.maxIterations > 0 && cfg.noProgressLimit > 0 ==> runs <= AcpBound(cfg) && (why.None? ==> runs < AcpBound(cfg))
  {
    hide AcpVerdict, CallsComplete;
    var state := new GoalState(cfg, first);
    var retries: nat := 0;
    runs := 0;
    while runs < |outcomes|
      invariant runs <= |outcomes| && fresh(state) && state.cfg == cfg
      invariant AcpAfter(cfg, first, At(outcomes), runs) == Running(state.View(retries))
    {
      state.iteration := state.iteration + 1;
      var result := outcomes[runs];
      runs := runs + 1;
      if result.Failed? {
        retries := retries + 1;
        if retries > MAX_GOAL_RETRIES {
          retries := 0;
          state.noProgress := state.noProgress + 1;
          if state.noProgress >= cfg.noProgressLimit {
            AcpDecides(cfg, first, outcomes, runs, Some(Stalled));
            return runs, Some(Stalled);
          }
        } else {
          state.iteration := state.iteration - 1;
        }
      } else {
        retries := 0;
        ghost var g := state.View(0);
        var d := state.ShouldContinueGoal(result.goalComplete, result.signature);
        assert Judge(cfg, g, result.goalComplete, result.signature) == (d, state.View(0));
        if d != Continue {
          AcpDecides(cfg, first, outcomes, runs, Some(d));
          return runs, Some(d);
        }
      }
    }
    AcpDecides(cfg, first, outcomes, runs, None);
    return runs, None;
  }

  /** The headless loop. */
  method RunHeadlessGoal(cfg: Config, first: Signature, outcomes: seq<Outcome>) returns (runs: nat, why: Option<Decision>)
    ensures runs <= |outcomes|
    ensures why.Some? ==> runs > 0 && HeadlessAfter(cfg, first, At(outcomes), runs) == Stopped(why.value)
    ensures why.Some? ==> HeadlessAfter(cfg, first, At(outcomes), runs - 1).Running?
    ensures why.None? ==> runs == |outcomes| && HeadlessAfter(cfg, first, At(outcomes), runs).Running?
    ensures why.Some? ==> why.value == HeadlessVerdict(cfg, first, At(outcomes), runs) != Continue
    ensures forall k :: 0 < k < runs ==> HeadlessVerdict(cfg, first, At(outcomes), k) == Continue
    ensures why.None? && runs > 0 ==> HeadlessVerdict(cfg, first, At(outcomes), runs) == Continue
    ensures why == Some(Complete) <==> runs > 0 && CallsComplete(outcomes[runs - 1])
    ensures cfg.maxIterations > 0 && cfg.noProgressLimit > 0 ==>
              runs <= HeadlessBound(cfg) && (why.None? ==> runs < HeadlessBound(cfg))
  {
    hide HeadlessVerdict, CallsComplete;
    var state := new GoalState(cfg, first);
    var errorStrikes: nat := 0;
    runs := 0;
    while runs < |outcomes|
      invariant runs <= |outcomes| && fresh(state) && state.cfg == cfg
      invariant HeadlessAfter(cfg, first, At(outcomes), runs) == Running(state.View(errorStrikes))
    {
      state.iteration := state.iteration + 1;
      var result := outcomes[runs];
      runs := runs + 1;
      if result.Failed? {
        errorStrikes := errorStrikes + 1;
        if errorStrikes >= cfg.noProgressLimit {
          HeadlessDecides(cfg, first, outcomes, runs, Some(Stalled));
          return runs, Some(Stalled);
        }
      } else {
        errorStrikes := 0;
        ghost var g := state.View(0);
        var d := state.ShouldContinueGoal(result.goalComplete, result.signature);
        assert Judge(cfg, g, result.goalComplete, result.signature) == (d, state.View(0));
        if d != Continue {
          HeadlessDecides(cfg, first, outcomes, runs, Some(d));
          return runs, Some(d);
        }
      }
    }
    HeadlessDecides(cfg, first, outcomes, runs, None);
    return runs, None;
  }
}
