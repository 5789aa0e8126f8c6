/** The main loop and its search for a fallback model as loops
    (internal/agent/llm_runtime.go, runToolLoop and offerFallback). */
module RunLoopMethods {
  import opened Text
  import opened RunLoop
  import opened RunLoopProofs
  import opened RunLoopBounds
  import opened RunLoopResults
  import opened RunLoopHistory

  /** The chain in order, skipping what failed, was tried or is not there. */
  method FindFallback(chain: seq<Model>, failed: Model, tried: set<Model>, known: set<Model>) returns (next: Model)
    ensures next == NextInChain(chain, failed, tried, known)
    ensures next != "" ==> next in chain && next in known && next != failed && next !in tried
  {
    next := "";
    for i := 0 to |chain|
      invariant next == "" && NextInChain(chain, failed, tried, known) == NextInChain(chain[i..], failed, tried, known)
    {
      assert chain[i..][1..] == chain[i + 1..];
      if chain[i] == failed || chain[i] in tried || chain[i] !in known { continue; }
      next := chain[i];
      return;
    }
  }

  /** The main loop against any surroundings, turn by turn, until it ends or they do: it
      makes a run, every turn and end of which is as the turns before say, on a valid
      conversation; with a cap and no
      required read pending it has ended once they are as long as the bound. */
  method RunToolLoop(cfg: Config, conv: Conversation, surroundings: seq<Turn>)
      returns (end: Next, ghost trace: seq<State>, ghost turns: seq<Turn>)
    requires Valid(conv) && forall i :: 0 <= i < |surroundings| ==> Possible(surroundings[i])
    ensures Run(cfg, trace, turns) && trace[0] == Initial(conv) && turns <= surroundings
    ensures AllRecorded(cfg, trace, turns)
    ensures AsTurnsSay(cfg, trace, surroundings, |turns|)
    ensures end.Continue? ==> turns == surroundings && end == Continue(trace[|turns|])
    ensures !end.Continue? ==>
              && |turns| < |surroundings| && end == Step(cfg, trace[|turns|], surroundings[|turns|]) && Valid(end.conv)
              && TurnLaw(cfg, Opened(trace[|turns|], surroundings[|turns|]), surroundings, |turns|, end)
              && (CallsTools(surroundings[|turns|]) ==> Recorded(cfg, trace[|turns|], surroundings[|turns|], end.conv))
              && (end.Finish? && TrimSpace(end.content) != "" && trace[|turns|].pieces == [] ==>
                    EndsWith(end.conv, end.content))
    ensures cfg.maxSteps > 0 && |surroundings| >= 12 * |ChainModels(cfg)| + 16 * cfg.maxSteps ==>
              !end.Continue? || exists i :: 0 <= i < |surroundings| && FindsRead(surroundings[i])
  {
    hide Step, Valid, Possible, FindsRead, ChainModels, AllRecorded, Recorded, CallsTools, TurnLaw, Opened, AsTurnsSay;
    var s := Initial(conv);
    trace, turns := [s], [];
    end := Continue(s);
    for i := 0 to |surroundings|
      invariant end == Continue(s) && turns == surroundings[..i]
      invariant Run(cfg, trace, turns) && trace[0] == Initial(conv) && trace[i] == s
    {
      end := Step(cfg, s, surroundings[i]);
      if !end.Continue? {
        RunValid(cfg, trace, turns, i);
        StepValid(cfg, s, surroundings[i]);
        RunRecords(cfg, trace, turns);
        RunIsReached(cfg, trace, turns, surroundings);
        RunAsTurnsSay(cfg, trace, surroundings, i);
        EveryTurn(cfg, trace, surroundings, i);
        if CallsTools(surroundings[i]) { LastRecords(cfg, s, surroundings[i]); }
        if end.Finish? && TrimSpace(end.content) != "" && s.pieces == [] { AnswerIsLast(cfg, s, surroundings[i]); }
        return;
      }
      ghost var trace', turns' := trace + [end.state], turns + [surroundings[i]];
      assert trace'[..i + 1] == trace && turns'[..i] == turns;
      RunAppend(cfg, trace', turns');
      trace, turns := trace', turns';
      s := end.state;
    }
    assert turns == surroundings;
    RunRecords(cfg, trace, turns);
    RunIsReached(cfg, trace, turns, surroundings);
    RunAsTurnsSay(cfg, trace, surroundings, |turns|);
    if cfg.maxSteps > 0 && forall i :: 0 <= i < |surroundings| ==> !FindsRead(surroundings[i]) {
      CappedRunsEnd(cfg, trace, turns);
    }
  }

  lemma RunIsReached(cfg: Config, trace: seq<State>, turns: seq<Turn>, surroundings: seq<Turn>)
    requires Run(cfg, trace, turns) && turns <= surroundings && trace[0] == Initial(trace[0].conv)
    ensures Reached(cfg, trace, surroundings, |turns|)
  {
    hide GoesOn;
  }

  lemma LastRecords(cfg: Config, s: State, t: Turn)
    requires Possible(t) && CallsTools(t)
    ensures Recorded(cfg, s, t, ConvOf(Step(cfg, s, t)))
  {
    hide Step, Opened, Records;
    ToolTurnRecords(cfg, s, t);
  }
}
