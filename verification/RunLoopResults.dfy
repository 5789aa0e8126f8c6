/** What a step's results message holds (internal/agent/llm_runtime.go, runToolLoop, and
    execToolCalls in llm_runtime_send.go): behind the calls, for each call in order its own
    output, which is what the executor left in that call's slot. */
module RunLoopResults {
  import opened Wrappers
  import opened Text
  import opened RunLoop
  import opened RunLoopProofs
  import StepExecutor

  /** The output with the note behind it: on a line of its own, or alone if there was none. */
  ghost predicate Noted(output: string, noted: string) {
    if output == "" then noted == TODO_NOTE
    else
      exists k: nat ::
        && k <= |output| && (forall i :: k <= i < |output| ==> output[i] == '\n') && (k > 0 ==> output[k - 1] != '\n')
        && noted == output[..k] + "\n" + TODO_NOTE
  }

  /** The result carries the call's id and name, and its output, with or without the note. */
  ghost predicate ResultFor(call: Call, output: string, result: ToolResult, note: bool) {
    result.id == call.id && result.name == call.name && (if note then Noted(output, result.output) else result.output == output)
  }

  /** From `at` on: the assistant's calls, directly followed by one result for each, in
      order; a note rides on the last one only. */
  ghost predicate Records(conv: Conversation, at: nat, r: Reply, note: bool) {
    && at + 1 < |conv| && |r.outputs| == |r.calls|
    && conv[at] == Message(Assistant, r.main, r.calls, [])
    && var m := conv[at + 1];
       && m.role.User? && m.calls == [] && m.text == (if r.loopAction.LoopNudge? then LOOP_NUDGE else "")
       && |m.results| == |r.calls|
       && forall i :: 0 <= i < |r.calls| ==> ResultFor(r.calls[i], r.outputs[i], m.results[i], note && i == |r.calls| - 1)
  }

  lemma {:induction false} WithoutNewlinesIs(s: string)
    ensures var k := |WithoutNewlines(s)|;
            && k <= |s| && WithoutNewlines(s) == s[..k]
            && (forall i :: k <= i < |s| ==> s[i] == '\n') && (k > 0 ==> s[k - 1] != '\n')
  {
    if s != "" && s[|s| - 1] == '\n' { WithoutNewlinesIs(s[..|s| - 1]); }
  }

  lemma NoteIs(output: string)
    ensures Noted(output, AppendNote(output))
  {
    WithoutNewlinesIs(output);
  }

  lemma ResultsAre(r: Reply, note: bool, i: nat)
    requires |r.outputs| == |r.calls| && i < |r.calls|
    ensures ResultFor(r.calls[i], r.outputs[i], Results(r, note)[i], note && i == |r.calls| - 1)
  {
    NoteIs(r.outputs[i]);
    hide Noted, AppendNote;
  }

  lemma MessagesRecord(conv: Conversation, r: Reply, note: bool)
    requires |r.outputs| == |r.calls|
    ensures var text := if r.loopAction.LoopNudge? then LOOP_NUDGE else "";
            Records(conv + [Message(Assistant, r.main, r.calls, []), Message(User, text, [], Results(r, note))],
                    |conv|, r, note)
  {
    hide ResultFor, Results;
    ResultsLength(r, note);
    forall i | 0 <= i < |r.calls|
      ensures ResultFor(r.calls[i], r.outputs[i], Results(r, note)[i], note && i == |r.calls| - 1)
    {
      ResultsAre(r, note, i);
    }
  }

  lemma ResultsLength(r: Reply, note: bool)
    requires |r.outputs| == |r.calls|
    ensures |Results(r, note)| == |r.calls|
  {
  }

  /** A turn whose reply calls tools. */
  predicate CallsTools(t: Turn) { !t.overBudget && t.outcome.Replied? && t.outcome.reply.calls != [] }

  function ConvOf(n: Next): Conversation {
    match n
    case Continue(s) => s.conv
    case Finish(conv, _, _) => conv
    case Fail(conv, _) => conv
  }

  /** Such a turn, whether the run goes on or ends with it, records the calls with their
      own results, in order, behind the conversation it was sent with; only the first step
      of the run that did nothing but plan gets the note. */
  lemma ToolTurnRecords(cfg: Config, s: State, t: Turn)
    requires Possible(t) && CallsTools(t)
    ensures var n := Step(cfg, s, t);
            var before, conv := Opened(s, t).conv, ConvOf(n);
            && !n.Fail? && |before| + 2 <= |conv| && conv[..|before|] == before
            && Records(conv, |before|, t.outcome.reply, t.outcome.reply.todoOnly && !s.todoNoted)
            && (n.Continue? ==> |conv| == |before| + 2)
  {
    var r := t.outcome.reply;
    var s1 := Answered(Opened(s, t).(budgetCompacted := false)).(emptyReplies := 0);
    var before := Opened(s, t).conv;
    var note := r.todoOnly && !s.todoNoted;
    var text := if r.loopAction.LoopNudge? then LOOP_NUDGE else "";
    var conv := before + [Message(Assistant, r.main, r.calls, []), Message(User, text, [], Results(r, note))];
    MessagesRecord(before, r, note);
    ToolTurnIs(cfg, s, t);
    hide Records, Results, Closed, Step, Opened;
    ClosedExtends(conv, LOOP_STOP);
    ClosedExtends(conv, STEP_CAP);
    if r.stopped.Some? { ClosedExtends(conv, r.stopped.value); }
    if r.goal.Some? { ClosedExtends(conv, if r.goal.value == "" then r.main else r.goal.value); }
    RecordsLonger(conv, ConvOf(Step(cfg, s, t)), |before|, r, note);
  }

  lemma ToolTurnIs(cfg: Config, s: State, t: Turn)
    requires Possible(t) && CallsTools(t)
    ensures Step(cfg, s, t) ==
            OnTools(cfg, Answered(Opened(s, t).(budgetCompacted := false)).(emptyReplies := 0), t.outcome.reply)
    ensures Opened(s, t).todoNoted == s.todoNoted
  {
    hide OnTools, Steer, Valid;
  }

  lemma ClosedExtends(conv: Conversation, content: string)
    ensures Extends(Closed(conv, content, false), conv)
  {
    hide TrimSpace;
  }

  lemma RecordsLonger(conv: Conversation, longer: Conversation, at: nat, r: Reply, note: bool)
    requires Records(conv, at, r, note) && Extends(longer, conv)
    ensures Records(longer, at, r, note) && longer[..at] == conv[..at]
  {
    assert longer[at] == longer[..|conv|][at] && longer[at + 1] == longer[..|conv|][at + 1];
    assert longer[..at] == longer[..|conv|][..at];
  }

  /** After a step of tool calls the run ends in exactly four cases, the first of which
      decides: the loop repeats itself, a tool stopped the run, the goal is complete, or the
      cap is reached. */
  lemma ToolTurnEnds(cfg: Config, s: State, t: Turn)
    requires Possible(t) && CallsTools(t)
    ensures var n, r := Step(cfg, s, t), t.outcome.reply;
            if r.loopAction.LoopAbort? then n.Finish? && n.content == LOOP_STOP && !n.goalDone
            else if r.stopped.Some? then n.Finish? && n.content == r.stopped.value && !n.goalDone
            else if r.goal.Some? then
              n.Finish? && n.content == (if r.goal.value == "" then r.main else r.goal.value) && n.goalDone
            else if cfg.maxSteps > 0 && s.steps + 1 >= cfg.maxSteps then n.Finish? && n.content == STEP_CAP && !n.goalDone
            else n.Continue? && n.state.steps == s.steps + 1 && n.state.emptyReplies == 0 && n.state.pieces == []
  {
    ToolTurnIs(cfg, s, t);
    hide Step, Results, Closed, Steer;
  }

  // ---------------------------------------------------------------------
  // The note is given once

  predicate OnlyPlans(t: Turn) { CallsTools(t) && t.outcome.reply.todoOnly }

  lemma ReplyNotes(cfg: Config, s: State, r: Reply, tools: bool)
    requires |r.outputs| == |r.calls| && r.calls == [] && OnReply(cfg, s, r, tools).Continue?
    ensures OnReply(cfg, s, r, tools).state.todoNoted == s.todoNoted
  {
    hide OnTools, OnText, DropNudges, WithoutContinueNudge, Concat, TrimSpace, AtCap;
    TextNotes(cfg, s.(emptyReplies := 0), r, tools);
  }

  lemma TextNotes(cfg: Config, s: State, r: Reply, tools: bool)
    ensures OnText(cfg, s, r, tools).Continue? ==> OnText(cfg, s, r, tools).state.todoNoted == s.todoNoted
  {
    hide Concat, TrimSpace, TrimCutset, RequiredReadText, AtCap;
  }

  lemma StepNotes(cfg: Config, s: State, t: Turn, s': State)
    requires GoesOn(cfg, s, t, s')
    ensures s'.todoNoted <==> s.todoNoted || OnlyPlans(t)
  {
    hide OnReply, OnTools, OnOverflow, OnFailure, Steer, Valid;
    var s1 := Opened(s, t).(budgetCompacted := false);
    if CallsTools(t) {
      ToolTurnIs(cfg, s, t);
      ToolsNote(cfg, Answered(s1).(emptyReplies := 0), t.outcome.reply);
    } else if !t.overBudget {
      match t.outcome {
        case Replied(r) => ReplyNotes(cfg, Answered(s1), r, t.tools);
        case Overflow(_, _) => OverflowNotes(cfg, s1, t);
        case Failed(_, _, _, _, _) => FailureNotes(cfg, s1, t);
        case Cancelled =>
      }
    }
  }

  lemma ToolsNote(cfg: Config, s: State, r: Reply)
    requires r.calls != [] && |r.outputs| == |r.calls| && OnTools(cfg, s, r).Continue?
    ensures OnTools(cfg, s, r).state.todoNoted <==> s.todoNoted || r.todoOnly
  {
    hide Results, Closed, AtCap;
  }

  lemma OverflowNotes(cfg: Config, s: State, t: Turn)
    requires t.outcome.Overflow? && OnOverflow(cfg, s, t).Continue?
    ensures OnOverflow(cfg, s, t).state.todoNoted == s.todoNoted
  {
    hide Window;
  }

  lemma FailureNotes(cfg: Config, s: State, t: Turn)
    requires t.outcome.Failed? && OnFailure(cfg, s, t).Continue?
    ensures OnFailure(cfg, s, t).state.todoNoted == s.todoNoted
  {
    hide Retries, Fallback;
    if Retries(t.outcome, s.sendFailures + 1) {
      assert OnFailure(cfg, s, t) == Continue(s.(sendFailures := s.sendFailures + 1));
    }
  }

  /** A note has been given exactly when an earlier step of the run did nothing but plan. */
  lemma {:induction false} NotedIff(cfg: Config, trace: seq<State>, turns: seq<Turn>, j: nat)
    requires Run(cfg, trace, turns) && !trace[0].todoNoted && j < |trace|
    ensures trace[j].todoNoted <==> exists i :: 0 <= i < j && OnlyPlans(turns[i])
  {
    hide Step, Possible, OnlyPlans;
    if j > 0 {
      NotedIff(cfg, trace, turns, j - 1);
      assert GoesOn(cfg, trace[j - 1], turns[j - 1], trace[j]);
      StepNotes(cfg, trace[j - 1], turns[j - 1], trace[j]);
      assert OnlyPlans(turns[j - 1]) ==> trace[j].todoNoted;
    }
  }

  /** Every step of tool calls of a run is recorded as it should be. */
  ghost predicate AllRecorded(cfg: Config, trace: seq<State>, turns: seq<Turn>)
    requires |turns| < |trace|
  {
    forall i :: 0 <= i < |turns| && CallsTools(turns[i]) ==> Recorded(cfg, trace[i], turns[i], trace[i + 1].conv)
  }

  /** The calls of the turn and their results stand behind what the turn was sent with. */
  ghost predicate Recorded(cfg: Config, s: State, t: Turn, conv: Conversation)
    requires CallsTools(t)
  {
    var before := Opened(s, t).conv;
    before <= conv && Records(conv, |before|, t.outcome.reply, t.outcome.reply.todoOnly && !s.todoNoted)
  }

  lemma RunRecords(cfg: Config, trace: seq<State>, turns: seq<Turn>)
    requires Run(cfg, trace, turns)
    ensures AllRecorded(cfg, trace, turns)
  {
    hide Step, Opened, Records, Possible;
    forall i | 0 <= i < |turns| && CallsTools(turns[i]) ensures Recorded(cfg, trace[i], turns[i], trace[i + 1].conv) {
      assert GoesOn(cfg, trace[i], turns[i], trace[i + 1]);
      ToolTurnRecords(cfg, trace[i], turns[i]);
    }
  }

  // ---------------------------------------------------------------------
  // With the executor

  /** What the executor has done: undecodable calls got their error, the others the
      result of their slot in one pass. */
  ghost predicate ExecutorRan(native: seq<StepExecutor.NativeCall>, step: StepExecutor.Step, results: seq<StepExecutor.Result>,
                              ran: seq<StepExecutor.Result>, batches: seq<seq<nat>>, writes: seq<nat>) {
    var idx := StepExecutor.Decoded(native, |native|);
    && step.calls == StepExecutor.AsCalls(native, |native|) && |results| == |native| && |ran| == |idx|
    && (forall i :: 0 <= i < |native| && native[i].undecoded ==> results[i] == StepExecutor.BadArguments)
    && (ran != [] ==> StepExecutor.Executed(step, ran, batches, writes))
    && (forall j :: 0 <= j < |ran| ==> idx[j] < |native| && results[idx[j]] == ran[j])
  }

  /** The reply's calls are the model's, and its outputs say what the executor left. */
  ghost predicate Outputs(r: Reply, native: seq<StepExecutor.NativeCall>, results: seq<StepExecutor.Result>,
                          say: StepExecutor.Result -> string) {
    && |r.calls| == |r.outputs| == |native| == |results|
    && forall i :: 0 <= i < |native| ==> r.calls[i] == Call(native[i].id, native[i].name) && r.outputs[i] == say(results[i])
  }

  /** The place of a decodable call among those the executor is given. */
  function Place(native: seq<StepExecutor.NativeCall>, i: nat): nat
    requires i <= |native|
  {
    |StepExecutor.Decoded(native, i)|
  }

  lemma {:induction false} PlaceIs(native: seq<StepExecutor.NativeCall>, n: nat, i: nat)
    requires i < n <= |native| && !native[i].undecoded
    ensures var idx := StepExecutor.Decoded(native, n); Place(native, i) < |idx| && idx[Place(native, i)] == i
  {
    if i < n - 1 { PlaceIs(native, n - 1, i); }
  }

  /** What became of a call: undecodable, refused before it could run, or run in its batch --
      ended with the turn, interrupted, or with its own output. */
  ghost predicate Became(native: seq<StepExecutor.NativeCall>, step: StepExecutor.Step, batches: seq<seq<nat>>, i: nat,
                         result: StepExecutor.Result)
    requires i < |native| && step.calls == StepExecutor.AsCalls(native, |native|)
  {
    if native[i].undecoded then result == StepExecutor.BadArguments
    else
      var j := Place(native, i);
      j < |step.calls| && step.calls[j] == StepExecutor.Call(native[i].name, native[i].args) &&
      if !StepExecutor.Admitted(step, j) then StepExecutor.Refused(step, j, result)
      else exists k: nat ::
             && k < |batches| && j in batches[k]
             && result == if step.stops(k) then StepExecutor.TurnEnded
                          else if step.interrupted(j) then StepExecutor.Interrupted
                          else StepExecutor.Ran(step.output(j))
  }

  lemma ExecutorLeft(native: seq<StepExecutor.NativeCall>, step: StepExecutor.Step, results: seq<StepExecutor.Result>,
                     ran: seq<StepExecutor.Result>, batches: seq<seq<nat>>, writes: seq<nat>, i: nat)
    requires ExecutorRan(native, step, results, ran, batches, writes) && i < |native|
    ensures Became(native, step, batches, i, results[i])
  {
    if !native[i].undecoded {
      PlaceIs(native, |native|, i);
      var j := Place(native, i);
      StepExecutor.AsCallsAt(native, |native|, j);
      StepExecutor.VerdictIs(step, j);
      hide StepExecutor.Verdict, StepExecutor.Admitted, StepExecutor.Refused;
      SlotIs(step, ran, batches, writes, j);
    }
  }

  lemma SlotIs(step: StepExecutor.Step, ran: seq<StepExecutor.Result>, batches: seq<seq<nat>>, writes: seq<nat>, j: nat)
    requires StepExecutor.Executed(step, ran, batches, writes) && j < |step.calls|
    ensures |ran| == |step.calls|
    ensures StepExecutor.Verdict(step, j).Some? ==> ran[j] == StepExecutor.Verdict(step, j).value
    ensures StepExecutor.Verdict(step, j).None? ==>
              exists k: nat :: k < |batches| && j in batches[k] && ran[j] == StepExecutor.RunResult(step, k, j)
  {
    hide StepExecutor.Verdict, StepExecutor.Runnable, StepExecutor.RunResult;
    if StepExecutor.Verdict(step, j).None? {
      StepExecutor.RunnableIs(step, |step.calls|);
      var k := StepExecutor.InSomeBatch(batches, j);
      assert StepExecutor.Filled(step, ran, writes, k, j);
    } else {
      assert StepExecutor.Judged(step, ran, writes, j);
    }
  }

  /** So in the message behind the calls, the i-th result has the i-th call's id and name and
      says what became of that call. */
  lemma ResultsAreTheExecutors(cfg: Config, s: State, t: Turn, native: seq<StepExecutor.NativeCall>, step: StepExecutor.Step,
                               results: seq<StepExecutor.Result>, ran: seq<StepExecutor.Result>, batches: seq<seq<nat>>,
                               writes: seq<nat>, say: StepExecutor.Result -> string, i: nat)
    requires Possible(t) && CallsTools(t) && Outputs(t.outcome.reply, native, results, say)
    requires ExecutorRan(native, step, results, ran, batches, writes) && i < |native|
    ensures var conv, at := ConvOf(Step(cfg, s, t)), |Opened(s, t).conv|;
            && at + 1 < |conv| && i < |conv[at + 1].results|
            && ResultFor(Call(native[i].id, native[i].name), say(results[i]), conv[at + 1].results[i],
                         t.outcome.reply.todoOnly && !s.todoNoted && i == |native| - 1)
            && Became(native, step, batches, i, results[i])
  {
    ToolTurnRecords(cfg, s, t);
    ExecutorLeft(native, step, results, ran, batches, writes, i);
    hide Step, Opened, ExecutorRan, Became, ResultFor;
  }
}
