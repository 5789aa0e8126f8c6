/** The agent's main loop (internal/agent/llm_runtime.go, runToolLoop): one turn of it
    as a function of everything a provider, a model, a user and a compactor may do,
    and the loop over such turns. */
module RunLoop {
  import opened Wrappers
  import opened Text

  // ---------------------------------------------------------------------
  // Conversations

  datatype Role = User | Assistant
  datatype Call = Call(id: string, name: string)
  datatype ToolResult = ToolResult(id: string, name: string, output: string)
  datatype Message = Message(role: Role, text: string, calls: seq<Call>, results: seq<ToolResult>)

  type Conversation = seq<Message>

  function Says(text: string): Message { Message(User, text, [], []) }
  function Replies(text: string): Message { Message(Assistant, text, [], []) }

  // The texts the loop adds, in short.
  const EMPTY_NUDGE := "last reply empty"
  const EMPTY_TRUNCATED_NUDGE := "last reply cut"
  const CONTINUE_NUDGE := "continue"
  const DROPPED_CALL_NUDGE := "no tool call"
  const ANNOUNCE_NUDGE := "announced only"
  const LOOP_NUDGE := "repeating"
  const LOOP_STOP := "Stopped: repeating"
  const STEP_CAP := "(paused: step cap)"
  const STEERING_PREFIX := "[user steering]\n"
  const TODO_NOTE := "Plan updated."

  const MAX_EMPTY_REPLIES := 3
  const MAX_CONTINUATIONS := 3
  const TRANSIENT_ATTEMPTS := 6
  const UNKNOWN_ATTEMPTS := 3

  // ---------------------------------------------------------------------
  // The run's configuration, state and surroundings

  type Model = string

  datatype FallbackMode = Off | Prompt | Silent

  /** `maxSteps` 0 means no cap; `interactive` says whether a question can reach the
      user. */
  datatype Config = Config(maxSteps: nat, mode: FallbackMode, chain: seq<Model>, interactive: bool)

  datatype State = State(
    conv: Conversation, steps: nat, sendFailures: nat,
    budgetCompacted: bool, overflowCompacted: bool, overflowResent: bool, learned: nat,
    emptyReplies: nat, pieces: seq<string>, calledTools: bool,
    announceNudged: bool, droppedNudged: bool, todoNoted: bool,
    chosen: Option<Model>, tried: set<Model>)

  function Initial(conv: Conversation): State {
    State(conv, 0, 0, false, false, false, 0, 0, [], false, false, false, false, None, {})
  }

  datatype Failure = Transient | Unknown | Deterministic
  datatype StopReason = Length | ForToolCalls | ContentFilter | Stop
  datatype LoopAction = LoopOk | LoopNudge | LoopAbort

  /** A successful reply and what came of its tool calls: `main` is the text without
      thinking, `piece` the same untrimmed; `stopped` and `goal` say that a tool ended
      the run; `pending` names a required read not yet made. */
  datatype Reply = Reply(main: string, piece: string, calls: seq<Call>, outputs: seq<string>, stop: StopReason,
                         todoOnly: bool, loopAction: LoopAction, stopped: Option<string>, goal: Option<string>,
                         pending: Option<string>, announces: bool)

  /** `stated` is the window an overflow names (0: none); `compacted` what a forced
      compaction makes of the conversation, if it succeeds. */
  datatype Outcome =
    | Cancelled
    | Overflow(stated: nat, compacted: Option<Conversation>)
    | Failed(failure: Failure, waitTooLong: bool, cancelledWaiting: bool, unavailable: bool, consent: bool)
    | Replied(reply: Reply)

  /** One turn's surroundings: guidance typed meanwhile, what the automatic compaction
      leaves, the budget check and its forced compaction, whether tools are advertised,
      the live model and its window (0: not known), the models the manager has. */
  datatype Turn = Turn(steering: seq<string>, auto: Option<Conversation>, overBudget: bool, forced: Option<Conversation>,
                       tools: bool, live: Model, window: nat, known: set<Model>, outcome: Outcome)

  datatype Error = OverBudget | Interrupted | WindowExceeded | ProviderFailed | Filtered | GaveUpOnEmpty

  datatype Next =
    | Continue(state: State)
    | Finish(conv: Conversation, content: string, goalDone: bool)
    | Fail(conv: Conversation, error: Error)

  // ---------------------------------------------------------------------
  // Helpers of a turn

  /** strings.TrimLeft(s, " \t\r\n"). */
  function TrimCutset(s: string): string {
    if s != "" && (s[0] == ' ' || s[0] == '\t' || s[0] == '\r' || s[0] == '\n') then TrimCutset(s[1..]) else s
  }

  /** strings.Join(pieces, ""). */
  function Concat(pieces: seq<string>): string {
    if pieces == [] then "" else Concat(pieces[..|pieces| - 1]) + pieces[|pieces| - 1]
  }

  function Steer(conv: Conversation, steering: seq<string>): Conversation {
    conv + seq(|steering|, i requires 0 <= i < |steering| => Says(STEERING_PREFIX + steering[i]))
  }

  predicate AtCap(cfg: Config, steps: nat) { cfg.maxSteps > 0 && steps >= cfg.maxSteps }

  function Window(base: nat, learned: nat): nat {
    if learned > 0 && (base == 0 || learned < base) then learned else base
  }

  /** The conversation a run returns: with the final text, unless it is blank, already
      stored, or already the last message. */
  function Closed(conv: Conversation, content: string, recorded: bool): Conversation {
    if TrimSpace(content) == "" || recorded then conv
    else if conv != [] && conv[|conv| - 1].role.Assistant? && conv[|conv| - 1].text == content then conv
    else conv + [Replies(content)]
  }

  predicate IsEmptyNudge(m: Message) {
    m.role.User? && m.results == [] && (m.text == EMPTY_NUDGE || m.text == EMPTY_TRUNCATED_NUDGE)
  }

  /** Without the last `n` empty-reply nudges after the last assistant message. */
  function DropNudges(conv: Conversation, n: nat): Conversation {
    if conv == [] || n == 0 || conv[|conv| - 1].role.Assistant? then conv
    else if IsEmptyNudge(conv[|conv| - 1]) then DropNudges(conv[..|conv| - 1], n - 1)
    else DropNudges(conv[..|conv| - 1], n) + [conv[|conv| - 1]]
  }

  /** The first model of the chain that is worth asking; the empty name is no model. */
  function NextInChain(chain: seq<Model>, failed: Model, tried: set<Model>, known: set<Model>): Model {
    if chain == [] then ""
    else if chain[0] == failed || chain[0] in tried || chain[0] !in known then NextInChain(chain[1..], failed, tried, known)
    else chain[0]
  }

  /** Whether a failed request is sent again after a wait. */
  predicate Retries(f: Outcome, attempts: nat)
    requires f.Failed?
  {
    match f.failure
    case Transient => attempts < TRANSIENT_ATTEMPTS && !f.waitTooLong
    case Unknown => attempts < UNKNOWN_ATTEMPTS && !f.waitTooLong
    case Deterministic => false
  }

  // ---------------------------------------------------------------------
  // One turn

  function OnOverflow(cfg: Config, s: State, t: Turn): Next
    requires t.outcome.Overflow?
  {
    var o := t.outcome;
    var learned := if o.stated > 0 && (s.learned == 0 || o.stated < s.learned) then o.stated else s.learned;
    var w := Window(t.window, learned);
    if !s.overflowCompacted && o.compacted.Some? then
      Continue(s.(learned := learned, overflowCompacted := true, conv := o.compacted.value))
    else if w > 0 && w != Window(t.window, s.learned) && !s.overflowResent then
      Continue(s.(learned := learned, overflowCompacted := true, overflowResent := true))
    else Fail(s.conv, WindowExceeded)
  }

  /** The model to switch to after a failure, when there is one and it is allowed. */
  function Fallback(cfg: Config, s: State, failed: Model, o: Outcome, known: set<Model>): Option<Model>
    requires o.Failed?
  {
    if cfg.mode.Off? || cfg.chain == [] || !o.unavailable then None
    else
      var next := NextInChain(cfg.chain, failed, s.tried + {failed}, known);
      if next == "" then None
      else if cfg.interactive then (if o.consent then Some(next) else None)
      else if cfg.mode.Silent? then Some(next) else None
  }

  function OnFailure(cfg: Config, s: State, t: Turn): Next
    requires t.outcome.Failed?
  {
    var o := t.outcome;
    var failed := if s.chosen.Some? then s.chosen.value else t.live;
    if Retries(o, s.sendFailures + 1) then
      if o.cancelledWaiting then Fail(s.conv, Interrupted) else Continue(s.(sendFailures := s.sendFailures + 1))
    else
      var next := Fallback(cfg, s, failed, o, t.known);
      if next.Some? then Continue(s.(sendFailures := 0, chosen := next, tried := s.tried + {failed}))
      else Fail(s.conv, ProviderFailed)
  }

  function OnDroppedCall(s: State, r: Reply): Next {
    Continue(s.(droppedNudged := true,
                conv := s.conv + (if r.main != "" then [Replies(r.main)] else []) + [Says(DROPPED_CALL_NUDGE)]))
  }

  function WithoutContinueNudge(conv: Conversation): Conversation {
    if conv != [] && conv[|conv| - 1].role.User? && conv[|conv| - 1].text == CONTINUE_NUDGE then conv[..|conv| - 1] else conv
  }

  function OnEmpty(cfg: Config, s: State, r: Reply): Next {
    if r.stop.ContentFilter? then Fail(s.conv, Filtered)
    else if s.pieces != [] then Finish(WithoutContinueNudge(s.conv), TrimSpace(Concat(s.pieces)), false)
    else if AtCap(cfg, s.steps) then Finish(s.conv, "", false)
    else if s.emptyReplies + 1 >= MAX_EMPTY_REPLIES then Fail(DropNudges(s.conv, s.emptyReplies), GaveUpOnEmpty)
    else
      Continue(s.(emptyReplies := s.emptyReplies + 1,
                  conv := s.conv + [Says(if r.stop.Length? then EMPTY_TRUNCATED_NUDGE else EMPTY_NUDGE)]))
  }

  function WithoutNewlines(s: string): string {
    if s != [] && s[|s| - 1] == '\n' then WithoutNewlines(s[..|s| - 1]) else s
  }

  function AppendNote(output: string): string {
    if output == "" then TODO_NOTE else WithoutNewlines(output) + "\n" + TODO_NOTE
  }

  /** One result per call, in call order; the note rides on the last one. */
  function Results(r: Reply, note: bool): seq<ToolResult>
    requires |r.outputs| == |r.calls|
  {
    seq(|r.calls|, i requires 0 <= i < |r.calls| =>
      ToolResult(r.calls[i].id, r.calls[i].name,
                 if note && i == |r.calls| - 1 then AppendNote(r.outputs[i]) else r.outputs[i]))
  }

  function OnTools(cfg: Config, s: State, r: Reply): Next
    requires r.calls != [] && |r.outputs| == |r.calls|
  {
    var note := r.todoOnly && !s.todoNoted;
    var text := if r.loopAction.LoopNudge? then LOOP_NUDGE else "";
    var conv := s.conv + [Message(Assistant, r.main, r.calls, []), Message(User, text, [], Results(r, note))];
    if r.loopAction.LoopAbort? then Finish(Closed(conv, LOOP_STOP, false), LOOP_STOP, false)
    else if r.stopped.Some? then Finish(Closed(conv, r.stopped.value, false), r.stopped.value, false)
    else if r.goal.Some? then
      var summary := if r.goal.value == "" then r.main else r.goal.value;
      Finish(Closed(conv, summary, false), summary, true)
    else if AtCap(cfg, s.steps) then Finish(Closed(conv, STEP_CAP, false), STEP_CAP, false)
    else Continue(s.(conv := conv, pieces := [], calledTools := true, todoNoted := s.todoNoted || note))
  }

  function RequiredReadText(path: string): string {
    "read first: " + path
  }

  function OnText(cfg: Config, s: State, r: Reply, tools: bool): Next {
    if r.stop.Length? && |s.pieces| < MAX_CONTINUATIONS && !AtCap(cfg, s.steps) then
      var piece := if s.pieces == [] then TrimCutset(r.piece) else r.piece;
      Continue(s.(pieces := s.pieces + [piece], conv := s.conv + [Replies(r.main), Says(CONTINUE_NUDGE)]))
    else if r.pending.Some? then
      Continue(s.(conv := s.conv + [Replies(r.main), Says(RequiredReadText(r.pending.value))]))
    else if !s.announceNudged && !s.calledTools && tools && s.pieces == [] && !AtCap(cfg, s.steps) && r.announces then
      Continue(s.(announceNudged := true, conv := s.conv + [Replies(r.main), Says(ANNOUNCE_NUDGE)]))
    else
      Finish(s.conv + [Replies(r.main)],
             if s.pieces == [] then r.main else TrimSpace(Concat(s.pieces + [r.piece])), false)
  }

  /** After a successful call. */
  function Answered(s: State): State {
    s.(sendFailures := 0, overflowCompacted := false, overflowResent := false, steps := s.steps + 1)
  }

  function OnReply(cfg: Config, s: State, r: Reply, tools: bool): Next
    requires |r.outputs| == |r.calls|
  {
    if r.calls == [] && r.stop.ForToolCalls? && !s.droppedNudged && tools && s.pieces == [] && !AtCap(cfg, s.steps) then
      OnDroppedCall(s, r)
    else if r.calls == [] && r.main == "" then OnEmpty(cfg, s, r)
    else if r.calls != [] then OnTools(cfg, s.(emptyReplies := 0), r)
    else OnText(cfg, s.(emptyReplies := 0), r, tools)
  }

  /** The conversation as the turn's request is built from it. */
  function Opened(s: State, t: Turn): State {
    s.(conv := if t.auto.Some? then t.auto.value else Steer(s.conv, t.steering))
  }

  function Send(cfg: Config, s: State, t: Turn): Next
    requires Possible(t)
  {
    match t.outcome
    case Cancelled => Fail(s.conv, Interrupted)
    case Overflow(_, _) => OnOverflow(cfg, s, t)
    case Failed(_, _, _, _, _) => OnFailure(cfg, s, t)
    case Replied(r) => OnReply(cfg, Answered(s), r, t.tools)
  }

  function Step(cfg: Config, s: State, t: Turn): Next
    requires Possible(t)
  {
    var s1 := Opened(s, t);
    if !t.overBudget then Send(cfg, s1.(budgetCompacted := false), t)
    else if !s1.budgetCompacted && t.forced.Some? then Continue(s1.(conv := t.forced.value, budgetCompacted := true))
    else Fail(s1.conv, OverBudget)
  }

  // ---------------------------------------------------------------------
  // What is asked of the surroundings

  /** One result per call, in call order. */
  predicate Answers(calls: seq<Call>, results: seq<ToolResult>) {
    |results| == |calls| && forall i :: 0 <= i < |calls| ==> results[i].id == calls[i].id && results[i].name == calls[i].name
  }

  /** Calls are directly followed by their results, results directly follow their
      calls, and carry no text but the repetition note. */
  predicate Paired(conv: Conversation, i: nat)
    requires i < |conv|
  {
    && (conv[i].calls != [] ==>
          conv[i].role.Assistant? && i + 1 < |conv| && conv[i + 1].role.User? && Answers(conv[i].calls, conv[i + 1].results))
    && (conv[i].results != [] ==>
          conv[i].role.User? && i > 0 && Answers(conv[i - 1].calls, conv[i].results) && conv[i].text in {"", LOOP_NUDGE})
  }

  /** A conversation every provider accepts as a prefix. */
  predicate Valid(conv: Conversation) {
    forall i :: 0 <= i < |conv| ==> Paired(conv, i)
  }

  predicate ValidIfAny(c: Option<Conversation>) { c.Some? ==> Valid(c.value) }

  /** The compactor keeps conversations valid and the executor answers every call; all
      else is free. */
  predicate Possible(t: Turn) {
    && ValidIfAny(t.auto) && ValidIfAny(t.forced)
    && (t.outcome.Overflow? ==> ValidIfAny(t.outcome.compacted))
    && (t.outcome.Replied? ==> |t.outcome.reply.outputs| == |t.outcome.reply.calls|)
  }

  /** A turn after which the run goes on. */
  predicate GoesOn(cfg: Config, s: State, t: Turn, s': State) {
    Possible(t) && Step(cfg, s, t) == Continue(s')
  }

  /** Turns that go on to another turn, one after the other. */
  ghost predicate Run(cfg: Config, trace: seq<State>, turns: seq<Turn>) {
    |trace| == |turns| + 1 && forall i :: 0 <= i < |turns| ==> GoesOn(cfg, trace[i], turns[i], trace[i + 1])
  }
}
