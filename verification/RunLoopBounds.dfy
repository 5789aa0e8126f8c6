/** How long the main loop can go on (internal/agent/llm_runtime.go, runToolLoop): a
    lexicographic measure over steps, untried fallback models, retries, overflow flags
    and the budget flag, added up into explicit bounds. */
module RunLoopBounds {
  import opened Wrappers
  import opened Text
  import opened RunLoop

  function ChainModels(cfg: Config): set<Model> { set m | m in cfg.chain }

  /** The fallback models still open: not tried, and not the active one. */
  function Open(cfg: Config, s: State): set<Model> {
    ChainModels(cfg) - s.tried - (if s.chosen.Some? then {s.chosen.value} else {})
  }

  function One(b: bool): nat { if b then 1 else 0 }

  predicate CountersOk(s: State) {
    s.sendFailures < TRANSIENT_ATTEMPTS && s.emptyReplies < MAX_EMPTY_REPLIES && |s.pieces| <= MAX_CONTINUATIONS
  }

  /** Turns left before the next successful call: at most one budget compaction each,
      six requests a model, and two requests again after an overflow. */
  function Tries(cfg: Config, s: State): nat
    requires CountersOk(s)
  {
    12 * |Open(cfg, s)| +
    2 * (TRANSIENT_ATTEMPTS - 1 - s.sendFailures + One(!s.overflowCompacted) + One(!s.overflowResent)) +
    One(!s.budgetCompacted)
  }

  /** Successful calls left before the next tool call: two empty replies before each of
      three continued pieces and one announcement, and one lost call. */
  function Texts(s: State): nat
    requires CountersOk(s)
  {
    3 * (MAX_CONTINUATIONS - |s.pieces| + One(!s.announceNudged)) + One(!s.droppedNudged) +
    MAX_EMPTY_REPLIES - 1 - s.emptyReplies
  }

  /** A text reply without tool calls that finds a required read pending. */
  predicate FindsRead(t: Turn) {
    t.outcome.Replied? && t.outcome.reply.calls == [] && t.outcome.reply.main != "" && t.outcome.reply.pending.Some?
  }

  /** A reply that calls tools, or that finds a required read pending. */
  predicate Works(t: Turn) { FindsRead(t) || (t.outcome.Replied? && t.outcome.reply.calls != []) }

  /** At the cap the run goes on after exactly these replies. */
  lemma AtCapGoesOnIff(cfg: Config, s: State, r: Reply, tools: bool)
    requires AtCap(cfg, s.steps) && |r.outputs| == |r.calls|
    ensures OnReply(cfg, s, r, tools).Continue? <==> r.calls == [] && r.main != "" && r.pending.Some?
  {
    hide Results, Closed, DropNudges, WithoutContinueNudge, Concat, TrimSpace, TrimCutset, RequiredReadText;
  }

  // ---------------------------------------------------------------------
  // Fallback models

  lemma {:induction false} NextIsOpen(chain: seq<Model>, failed: Model, tried: set<Model>, known: set<Model>)
    ensures var m := NextInChain(chain, failed, tried, known); m != "" ==> m in chain && m !in tried && m != failed
  {
    if chain != [] { NextIsOpen(chain[1..], failed, tried, known); }
  }

  /** A switch closes a model for good: the next one is open, and is not after. */
  lemma SwitchCloses(cfg: Config, s: State, t: Turn)
    requires CountersOk(s) && t.outcome.Failed? && !Retries(t.outcome, s.sendFailures + 1) && OnFailure(cfg, s, t).Continue?
    ensures |Open(cfg, OnFailure(cfg, s, t).state)| < |Open(cfg, s)|
  {
    hide Retries;
    var failed := if s.chosen.Some? then s.chosen.value else t.live;
    var next := NextInChain(cfg.chain, failed, s.tried + {failed}, t.known);
    NextIsOpen(cfg.chain, failed, s.tried + {failed}, t.known);
    var s' := OnFailure(cfg, s, t).state;
    assert next in Open(cfg, s) && next !in Open(cfg, s');
    assert Open(cfg, s') <= Open(cfg, s) - {next};
    Smaller(Open(cfg, s'), Open(cfg, s), next);
  }

  lemma Smaller(a: set<Model>, b: set<Model>, m: Model)
    requires a <= b - {m} && m in b
    ensures |a| < |b|
  {
    Subset(a, b - {m});
  }

  lemma {:induction false} Subset(a: set<Model>, b: set<Model>)
    requires a <= b
    ensures |a| <= |b|
    decreases |a|
  {
    if a != {} {
      var m :| m in a;
      Subset(a - {m}, b - {m});
    }
  }

  // ---------------------------------------------------------------------
  // One turn

  /** What a turn after which the run goes on does to the counters. */
  ghost predicate Progress(cfg: Config, s: State, t: Turn, s': State)
    requires CountersOk(s)
  {
    && CountersOk(s')
    && (s'.steps == s.steps ==> Tries(cfg, s') < Tries(cfg, s) && Texts(s') == Texts(s))
    && (s'.steps != s.steps ==>
          s'.steps == s.steps + 1 && Tries(cfg, s') <= Tries(cfg, s) + 15
          && Texts(s') < Texts(s) + (if Works(t) then 12 else 0)
          && (AtCap(cfg, s'.steps) ==> FindsRead(t)))
  }

  lemma OpenSame(cfg: Config, s: State, s': State)
    requires s'.tried == s.tried && s'.chosen == s.chosen
    ensures Open(cfg, s') == Open(cfg, s)
  {
  }

  /** After a success the tries are as many as at first, but no model opens again. */
  lemma AnsweredTries(cfg: Config, s: State, s': State)
    requires CountersOk(s) && CountersOk(s') && s'.tried == s.tried && s'.chosen == s.chosen
    ensures Tries(cfg, s') <= Tries(cfg, s) + 15
  {
    OpenSame(cfg, s, s');
    hide Open;
  }

  /** What a reply after which the run goes on does to the text counters, seen from the
      state `s` that already counts its step. */
  ghost predicate Answer(cfg: Config, s: State, t: Turn, s': State)
    requires CountersOk(s)
  {
    && CountersOk(s') && s'.tried == s.tried && s'.chosen == s.chosen && s'.steps == s.steps
    && Texts(s') < Texts(s) + (if Works(t) then 12 else 0)
    && (AtCap(cfg, s.steps) ==> FindsRead(t))
  }

  lemma ToolsAnswer(cfg: Config, s: State, t: Turn, r: Reply, s': State)
    requires CountersOk(s) && t.outcome == Replied(r) && r.calls != [] && |r.outputs| == |r.calls|
    requires OnTools(cfg, s.(emptyReplies := 0), r) == Continue(s')
    ensures Answer(cfg, s, t, s')
  {
    hide Results, Closed;
  }

  /** A piece, a pending read or an announcement. */
  lemma TextAnswer(cfg: Config, s: State, t: Turn, r: Reply, s': State)
    requires CountersOk(s) && t.outcome == Replied(r) && r.calls == [] && r.main != ""
    requires OnText(cfg, s.(emptyReplies := 0), r, t.tools) == Continue(s')
    ensures Answer(cfg, s, t, s')
  {
    hide Answer, TrimCutset, Concat, TrimSpace, RequiredReadText, Works, AtCap;
    var conv := s'.conv;
    if |s'.pieces| > |s.pieces| {
      PieceAnswer(cfg, s, t, s'.pieces, conv);
    } else if r.pending.Some? {
      ReadAnswer(cfg, s, t, conv);
    } else {
      AnnounceAnswer(cfg, s, t, conv);
    }
  }

  lemma PieceAnswer(cfg: Config, s: State, t: Turn, pieces: seq<string>, conv: Conversation)
    requires CountersOk(s) && |pieces| == |s.pieces| + 1 <= MAX_CONTINUATIONS && !AtCap(cfg, s.steps)
    ensures Answer(cfg, s, t, s.(emptyReplies := 0, pieces := pieces, conv := conv))
  {
    hide Works, FindsRead;
  }

  lemma ReadAnswer(cfg: Config, s: State, t: Turn, conv: Conversation)
    requires CountersOk(s) && FindsRead(t)
    ensures Answer(cfg, s, t, s.(emptyReplies := 0, conv := conv))
  {
  }

  lemma AnnounceAnswer(cfg: Config, s: State, t: Turn, conv: Conversation)
    requires CountersOk(s) && !s.announceNudged && !AtCap(cfg, s.steps)
    ensures Answer(cfg, s, t, s.(emptyReplies := 0, announceNudged := true, conv := conv))
  {
    hide Works, FindsRead;
  }

  lemma EmptyAnswer(cfg: Config, s: State, t: Turn, r: Reply, s': State)
    requires CountersOk(s) && t.outcome == Replied(r) && OnEmpty(cfg, s, r) == Continue(s')
    ensures Answer(cfg, s, t, s')
  {
    hide DropNudges, WithoutContinueNudge, Concat, TrimSpace;
  }

  lemma DroppedAnswer(cfg: Config, s: State, t: Turn, r: Reply, s': State)
    requires CountersOk(s) && t.outcome == Replied(r) && OnDroppedCall(s, r) == Continue(s')
    requires !s.droppedNudged && !AtCap(cfg, s.steps)
    ensures Answer(cfg, s, t, s')
  {
  }

  lemma ReplyAnswer(cfg: Config, s: State, t: Turn, r: Reply, s': State)
    requires CountersOk(s) && t.outcome == Replied(r) && |r.outputs| == |r.calls|
    requires OnReply(cfg, s, r, t.tools) == Continue(s')
    ensures Answer(cfg, s, t, s')
  {
    hide OnTools, OnText, OnEmpty, OnDroppedCall, Answer;
    if OnReply(cfg, s, r, t.tools) == OnDroppedCall(s, r) && !s.droppedNudged && !AtCap(cfg, s.steps) {
      DroppedAnswer(cfg, s, t, r, s');
    } else if r.calls != [] {
      ToolsAnswer(cfg, s, t, r, s');
    } else if r.main == "" {
      EmptyAnswer(cfg, s, t, r, s');
    } else {
      TextAnswer(cfg, s, t, r, s');
    }
  }

  lemma ReplyProgress(cfg: Config, s: State, t: Turn, s': State)
    requires CountersOk(s) && Possible(t) && t.outcome.Replied?
    requires OnReply(cfg, Answered(s.(budgetCompacted := false)), t.outcome.reply, t.tools) == Continue(s')
    ensures Progress(cfg, s, t, s')
  {
    hide OnReply, Tries, Valid, Works, FindsRead;
    ReplyAnswer(cfg, Answered(s.(budgetCompacted := false)), t, t.outcome.reply, s');
    AnsweredTries(cfg, s, s');
  }

  /** A failed call that is sent again, or an overflow that is, keeps the rest. */
  lemma AgainProgress(cfg: Config, s: State, t: Turn, s': State)
    requires CountersOk(s) && CountersOk(s') && s'.steps == s.steps && Texts(s') == Texts(s)
    requires s'.tried == s.tried && s'.chosen == s.chosen
    requires s'.sendFailures >= s.sendFailures
    requires One(!s'.overflowCompacted) <= One(!s.overflowCompacted) && One(!s'.overflowResent) <= One(!s.overflowResent)
    requires s'.sendFailures + One(s'.overflowCompacted) + One(s'.overflowResent) >
             s.sendFailures + One(s.overflowCompacted) + One(s.overflowResent)
    ensures Progress(cfg, s, t, s')
  {
    hide Works, FindsRead, Texts;
    OpenSame(cfg, s, s');
    hide Open;
  }

  lemma SwitchProgress(cfg: Config, s: State, t: Turn, s': State)
    requires CountersOk(s) && s'.sendFailures == 0 && s'.steps == s.steps && |Open(cfg, s')| < |Open(cfg, s)|
    requires s'.overflowCompacted == s.overflowCompacted && s'.overflowResent == s.overflowResent
    requires s'.emptyReplies == s.emptyReplies && s'.pieces == s.pieces
    requires s'.announceNudged == s.announceNudged && s'.droppedNudged == s.droppedNudged
    ensures Progress(cfg, s, t, s')
  {
    hide Open, Works, FindsRead;
  }

  lemma RetryProgress(cfg: Config, s: State, t: Turn, s': State)
    requires CountersOk(s) && s.sendFailures + 1 < TRANSIENT_ATTEMPTS
    requires s' == s.(budgetCompacted := false, sendFailures := s.sendFailures + 1)
    ensures Progress(cfg, s, t, s')
  {
    hide Progress;
    AgainProgress(cfg, s, t, s');
  }

  lemma RetryCase(cfg: Config, s: State, t: Turn, s': State)
    requires t.outcome.Failed? && Retries(t.outcome, s.sendFailures + 1) && OnFailure(cfg, s, t) == Continue(s')
    ensures s' == s.(sendFailures := s.sendFailures + 1) && s.sendFailures + 1 < TRANSIENT_ATTEMPTS
  {
    hide Fallback;
  }

  lemma SwitchCase(cfg: Config, s: State, t: Turn, s': State)
    requires t.outcome.Failed? && !Retries(t.outcome, s.sendFailures + 1) && OnFailure(cfg, s, t) == Continue(s')
    ensures s' == s.(sendFailures := 0, chosen := s'.chosen, tried := s'.tried)
  {
    hide Fallback, Retries;
  }

  lemma FailureProgress(cfg: Config, s: State, t: Turn, s': State)
    requires CountersOk(s) && t.outcome.Failed? && OnFailure(cfg, s.(budgetCompacted := false), t) == Continue(s')
    ensures Progress(cfg, s, t, s')
  {
    hide OnFailure, Open, Progress, CountersOk, Retries;
    var s0 := s.(budgetCompacted := false);
    OpenSame(cfg, s0, s);
    CountersSame(s, s0);
    if Retries(t.outcome, s.sendFailures + 1) {
      RetryCase(cfg, s0, t, s');
      RetryProgress(cfg, s, t, s');
    } else {
      SwitchCase(cfg, s0, t, s');
      SwitchCloses(cfg, s0, t);
      SwitchProgress(cfg, s, t, s');
    }
  }

  lemma CountersSame(s: State, s0: State)
    requires CountersOk(s) && s0 == s.(budgetCompacted := false)
    ensures CountersOk(s0)
  {
  }

  lemma OverflowProgress(cfg: Config, s: State, t: Turn, s': State)
    requires CountersOk(s) && t.outcome.Overflow? && OnOverflow(cfg, s.(budgetCompacted := false), t) == Continue(s')
    ensures Progress(cfg, s, t, s')
  {
    hide Window, Progress;
    AgainProgress(cfg, s, t, s');
  }

  lemma SendProgress(cfg: Config, s: State, t: Turn, s': State)
    requires CountersOk(s) && Possible(t) && Send(cfg, s.(budgetCompacted := false), t) == Continue(s')
    ensures Progress(cfg, s, t, s')
  {
    hide OnReply, OnFailure, OnOverflow, Progress, Valid;
    match t.outcome {
      case Overflow(_, _) => OverflowProgress(cfg, s, t, s');
      case Failed(_, _, _, _, _) => FailureProgress(cfg, s, t, s');
      case Replied(_) => ReplyProgress(cfg, s, t, s');
      case Cancelled =>
    }
  }

  lemma SameTries(cfg: Config, s: State, conv: Conversation)
    requires CountersOk(s)
    ensures CountersOk(s.(conv := conv)) && Tries(cfg, s.(conv := conv)) == Tries(cfg, s) && Texts(s.(conv := conv)) == Texts(s)
  {
    OpenSame(cfg, s, s.(conv := conv));
    hide Open;
  }

  lemma SameCounters(cfg: Config, s: State, conv: Conversation, t: Turn, s': State)
    requires CountersOk(s) && CountersOk(s.(conv := conv)) && Progress(cfg, s.(conv := conv), t, s')
    ensures Progress(cfg, s, t, s')
  {
    SameTries(cfg, s, conv);
    hide CountersOk, Tries, Texts, Works, FindsRead;
  }

  lemma BudgetProgress(cfg: Config, s: State, conv: Conversation, t: Turn)
    requires CountersOk(s) && !s.budgetCompacted
    ensures Progress(cfg, s, t, s.(conv := conv, budgetCompacted := true))
  {
    OpenSame(cfg, s, s.(conv := conv, budgetCompacted := true));
    hide Open, Works, FindsRead;
  }

  lemma StepProgress(cfg: Config, s: State, t: Turn, s': State)
    requires CountersOk(s) && GoesOn(cfg, s, t, s')
    ensures Progress(cfg, s, t, s')
  {
    hide Send, Steer, Valid, Progress;
    var s1 := Opened(s, t);
    if t.overBudget {
      BudgetProgress(cfg, s, t.forced.value, t);
    } else {
      SameTries(cfg, s, s1.conv);
      SendProgress(cfg, s1, t, s');
      SameCounters(cfg, s, s1.conv, t, s');
    }
  }

  // ---------------------------------------------------------------------
  // Whole runs

  function Count(turns: seq<Turn>, p: Turn -> bool): nat {
    if turns == [] then 0 else Count(turns[..|turns| - 1], p) + One(p(turns[|turns| - 1]))
  }

  /** The totals after the first `i` turns of a run. */
  ghost predicate Totals(cfg: Config, trace: seq<State>, turns: seq<Turn>, i: nat)
    requires i < |trace| && |trace| == |turns| + 1
  {
    var s := trace[i];
    && CountersOk(s)
    && i + Tries(cfg, s) <= 12 * |ChainModels(cfg)| + 15 + 16 * s.steps
    && s.steps + Texts(s) <= 15 + 12 * Count(turns[..i], Works)
    && (cfg.maxSteps > 0 ==> s.steps <= cfg.maxSteps - 1 + Count(turns[..i], FindsRead))
  }

  /** One turn keeps the totals. */
  lemma TotalsStep(cfg: Config, trace: seq<State>, turns: seq<Turn>, i: nat)
    requires |trace| == |turns| + 1 && i < |turns| && Totals(cfg, trace, turns, i)
    requires Progress(cfg, trace[i], turns[i], trace[i + 1])
    ensures Totals(cfg, trace, turns, i + 1)
  {
    hide Tries, Texts, Works, FindsRead, CountersOk;
    assert turns[..i + 1][..i] == turns[..i] && turns[..i + 1][i] == turns[i];
  }

  lemma {:induction false} RunTotals(cfg: Config, trace: seq<State>, turns: seq<Turn>, i: nat)
    requires Run(cfg, trace, turns) && trace[0] == Initial(trace[0].conv) && i < |trace|
    ensures Totals(cfg, trace, turns, i)
  {
    hide GoesOn;
    if i == 0 {
      assert Open(cfg, trace[0]) == ChainModels(cfg);
    } else {
      hide Progress, Tries, Texts;
      RunTotals(cfg, trace, turns, i - 1);
      assert GoesOn(cfg, trace[i - 1], turns[i - 1], trace[i]);
      StepProgress(cfg, trace[i - 1], turns[i - 1], trace[i]);
      TotalsStep(cfg, trace, turns, i - 1);
    }
  }

  lemma {:induction false} CountNone(turns: seq<Turn>, p: Turn -> bool)
    requires forall i :: 0 <= i < |turns| ==> !p(turns[i])
    ensures Count(turns, p) == 0
  {
    if turns != [] { CountNone(turns[..|turns| - 1], p); }
  }

  /** With a cap of M steps and no required read pending, against every provider, model,
      user and compactor: at most M successful calls, and at most 12C + 16M turns for a
      chain of C models, the turn that ends the run included. */
  lemma CappedRunsEnd(cfg: Config, trace: seq<State>, turns: seq<Turn>)
    requires Run(cfg, trace, turns) && trace[0] == Initial(trace[0].conv)
    requires cfg.maxSteps > 0 && forall i :: 0 <= i < |turns| ==> !FindsRead(turns[i])
    ensures trace[|turns|].steps < cfg.maxSteps
    ensures |turns| + 1 <= 12 * |ChainModels(cfg)| + 16 * cfg.maxSteps
  {
    RunTotals(cfg, trace, turns, |turns|);
    assert turns[..|turns|] == turns;
    CountNone(turns, FindsRead);
  }

  /** A reply that goes past the cap: at it, and finding a required read pending. */
  predicate GoesPast(cfg: Config, s: State, t: Turn) { FindsRead(t) && !t.overBudget && AtCap(cfg, s.steps + 1) }

  /** How many of the first `i` turns go past the cap. */
  function Past(cfg: Config, trace: seq<State>, turns: seq<Turn>, i: nat): nat
    requires i <= |turns| < |trace|
  {
    if i == 0 then 0 else Past(cfg, trace, turns, i - 1) + One(GoesPast(cfg, trace[i - 1], turns[i - 1]))
  }

  lemma StepsBy(cfg: Config, s: State, t: Turn, s': State)
    requires GoesOn(cfg, s, t, s')
    ensures s'.steps == s.steps + One(t.outcome.Replied? && !t.overBudget)
    ensures GoesPast(cfg, s, t) <==> s'.steps > s.steps && AtCap(cfg, s'.steps)
  {
    hide OnReply, OnOverflow, OnFailure, Steer, Valid;
    var s1 := Opened(s, t);
    if !t.overBudget {
      match t.outcome {
        case Replied(r) =>
          ReplyKeepsSteps(cfg, Answered(s1.(budgetCompacted := false)), r, t.tools);
          if AtCap(cfg, s.steps + 1) { AtCapGoesOnIff(cfg, Answered(s1.(budgetCompacted := false)), r, t.tools); }
        case Overflow(_, _) => OverflowKeepsSteps(cfg, s1.(budgetCompacted := false), t);
        case Failed(_, _, _, _, _) => FailureKeepsSteps(cfg, s1.(budgetCompacted := false), t);
        case Cancelled =>
      }
    }
  }

  lemma ReplyKeepsSteps(cfg: Config, s: State, r: Reply, tools: bool)
    requires |r.outputs| == |r.calls| && OnReply(cfg, s, r, tools).Continue?
    ensures OnReply(cfg, s, r, tools).state.steps == s.steps
  {
    hide OnTools, OnText, DropNudges, WithoutContinueNudge, Concat, TrimSpace, AtCap;
    if r.calls != [] {
      ToolsKeepSteps(cfg, s.(emptyReplies := 0), r);
    } else {
      TextKeepsSteps(cfg, s.(emptyReplies := 0), r, tools);
    }
  }

  lemma ToolsKeepSteps(cfg: Config, s: State, r: Reply)
    requires r.calls != [] && |r.outputs| == |r.calls|
    ensures OnTools(cfg, s, r).Continue? ==> OnTools(cfg, s, r).state.steps == s.steps
  {
    hide Results, Closed, AtCap;
  }

  lemma TextKeepsSteps(cfg: Config, s: State, r: Reply, tools: bool)
    ensures OnText(cfg, s, r, tools).Continue? ==> OnText(cfg, s, r, tools).state.steps == s.steps
  {
    hide Concat, TrimSpace, TrimCutset, RequiredReadText, AtCap;
  }

  lemma OverflowKeepsSteps(cfg: Config, s: State, t: Turn)
    requires t.outcome.Overflow? && OnOverflow(cfg, s, t).Continue?
    ensures OnOverflow(cfg, s, t).state.steps == s.steps
  {
    hide Window;
  }

  lemma FailureKeepsSteps(cfg: Config, s: State, t: Turn)
    requires t.outcome.Failed? && OnFailure(cfg, s, t).Continue?
    ensures OnFailure(cfg, s, t).state.steps == s.steps
  {
    hide Retries, Fallback;
    if Retries(t.outcome, s.sendFailures + 1) {
      assert OnFailure(cfg, s, t) == Continue(s.(sendFailures := s.sendFailures + 1));
    }
  }

  /** The cap is exact: the successful calls beyond it are one for each reply at the cap
      that found a required read pending, and none besides. */
  lemma {:induction false} PastTheCap(cfg: Config, trace: seq<State>, turns: seq<Turn>, i: nat)
    requires Run(cfg, trace, turns) && trace[0] == Initial(trace[0].conv) && cfg.maxSteps > 0 && i < |trace|
    ensures trace[i].steps < cfg.maxSteps ==> Past(cfg, trace, turns, i) == 0
    ensures trace[i].steps >= cfg.maxSteps ==> trace[i].steps == cfg.maxSteps - 1 + Past(cfg, trace, turns, i)
  {
    hide GoesOn, GoesPast;
    if i > 0 {
      PastTheCap(cfg, trace, turns, i - 1);
      assert GoesOn(cfg, trace[i - 1], turns[i - 1], trace[i]);
      StepsBy(cfg, trace[i - 1], turns[i - 1], trace[i]);
    }
  }

  /** With required reads pending, each reply at the cap that finds one adds one call, and
      nothing else does. */
  lemma ReadsExtendTheCap(cfg: Config, trace: seq<State>, turns: seq<Turn>)
    requires Run(cfg, trace, turns) && trace[0] == Initial(trace[0].conv) && cfg.maxSteps > 0
    ensures var n := Past(cfg, trace, turns, |turns|);
            && n <= Count(turns, FindsRead)
            && trace[|turns|].steps < cfg.maxSteps + n && (n > 0 ==> trace[|turns|].steps == cfg.maxSteps - 1 + n)
            && |turns| + 1 <= 12 * |ChainModels(cfg)| + 16 * (cfg.maxSteps + n)
  {
    hide Step;
    RunTotals(cfg, trace, turns, |turns|);
    PastTheCap(cfg, trace, turns, |turns|);
    PastCounted(cfg, trace, turns, |turns|);
    assert turns[..|turns|] == turns;
  }

  lemma {:induction false} PastCounted(cfg: Config, trace: seq<State>, turns: seq<Turn>, i: nat)
    requires i <= |turns| < |trace|
    ensures Past(cfg, trace, turns, i) <= Count(turns[..i], FindsRead)
  {
    if i > 0 {
      PastCounted(cfg, trace, turns, i - 1);
      assert turns[..i][..i - 1] == turns[..i - 1];
    }
  }

  /** Capped or not, only tool calls and pending reads keep a run going: with W of them
      it makes at most 12W + 15 successful calls before its last turn. */
  lemma OnlyWorkGoesOn(cfg: Config, trace: seq<State>, turns: seq<Turn>)
    requires Run(cfg, trace, turns) && trace[0] == Initial(trace[0].conv)
    ensures trace[|turns|].steps <= 12 * Count(turns, Works) + 15
    ensures |turns| + 1 <= 12 * |ChainModels(cfg)| + 16 * (12 * Count(turns, Works) + 16)
  {
    RunTotals(cfg, trace, turns, |turns|);
    assert turns[..|turns|] == turns;
  }

  /** A required read that stays pending defeats the cap: for every n there is a run of
      n successful calls, all of them past a cap of one step. */
  lemma {:induction false} PendingReadDefeatsTheCap(conv: Conversation, path: string, n: nat)
    returns (trace: seq<State>, turns: seq<Turn>)
    ensures var cfg := Config(1, Off, [], false);
            Run(cfg, trace, turns) && trace[0] == Initial(conv) && |turns| == n && trace[n].steps == n
    ensures trace[n].emptyReplies == 0 && trace[n].pieces == [] && trace[n].sendFailures == 0
    ensures n > 0 ==> trace[n].steps >= 1
    ensures !trace[n].overflowCompacted && !trace[n].overflowResent && !trace[n].budgetCompacted
  {
    var cfg := Config(1, Off, [], false);
    if n == 0 {
      trace, turns := [Initial(conv)], [];
    } else {
      trace, turns := PendingReadDefeatsTheCap(conv, path, n - 1);
      var reply := Reply("done", "done", [], [], Stop, false, LoopOk, None, None, Some(path), false);
      var t := Turn([], None, false, None, false, "m", 0, {}, Replied(reply));
      var s' := PendingReadGoesOn(cfg, trace[n - 1], t);
      trace, turns := trace + [s'], turns + [t];
      RunAppend(cfg, trace, turns);
    }
  }

  lemma PendingReadGoesOn(cfg: Config, s: State, t: Turn) returns (s': State)
    requires t == Turn([], None, false, None, false, "m", 0, {}, t.outcome) && t.outcome.Replied?
    requires t.outcome.reply == Reply("done", "done", [], [], Stop, false, LoopOk, None, None, t.outcome.reply.pending, false)
    requires t.outcome.reply.pending.Some? && s.pieces == []
    ensures GoesOn(cfg, s, t, s') && s'.steps == s.steps + 1 && s'.pieces == [] && s'.sendFailures == 0 && s'.emptyReplies == 0
    ensures !s'.overflowCompacted && !s'.overflowResent && !s'.budgetCompacted
  {
    s' := Step(cfg, s, t).state;
  }

  lemma RunAppend(cfg: Config, trace: seq<State>, turns: seq<Turn>)
    requires |trace| == |turns| + 1 && |turns| > 0 && Run(cfg, trace[..|turns|], turns[..|turns| - 1])
    requires GoesOn(cfg, trace[|turns| - 1], turns[|turns| - 1], trace[|turns|])
    ensures Run(cfg, trace, turns)
  {
    hide GoesOn;
    forall i | 0 <= i < |turns| ensures GoesOn(cfg, trace[i], turns[i], trace[i + 1]) {
      if i < |turns| - 1 { assert GoesOn(cfg, trace[..|turns|][i], turns[..|turns| - 1][i], trace[..|turns|][i + 1]); }
    }
  }
}
