/** What every exit of the main loop keeps: the conversation stays a valid prefix, it
    only grows between compactions, and giving up takes back its own nudges only. */
module RunLoopProofs {
  import opened Wrappers
  import opened Text
  import opened RunLoop

  // ---------------------------------------------------------------------
  // Validity

  lemma AppendPlain(conv: Conversation, more: Conversation)
    requires Valid(conv) && forall i :: 0 <= i < |more| ==> more[i].calls == [] && more[i].results == []
    ensures Valid(conv + more)
  {
    var c := conv + more;
    forall i | 0 <= i < |c| ensures Paired(c, i) {
      if i < |conv| { assert Paired(conv, i); }
    }
  }

  lemma AppendAnswered(conv: Conversation, ask: Message, answer: Message)
    requires Valid(conv) && ask.role.Assistant? && ask.results == []
    requires answer.role.User? && answer.calls == [] && Answers(ask.calls, answer.results) && answer.text in {"", LOOP_NUDGE}
    ensures Valid(conv + [ask, answer])
  {
    var c := conv + [ask, answer];
    forall i | 0 <= i < |c| ensures Paired(c, i) {
      if i < |conv| { assert Paired(conv, i); }
    }
  }

  /** Taking away messages that neither call nor answer keeps the rest paired. */
  lemma DropLast(conv: Conversation)
    requires Valid(conv) && conv != [] && conv[|conv| - 1].results == []
    ensures Valid(conv[..|conv| - 1])
  {
    var c := conv[..|conv| - 1];
    forall i | 0 <= i < |c| ensures Paired(c, i) {
      assert Paired(conv, i) && conv[i + 1] == if i + 1 < |c| then c[i + 1] else conv[|conv| - 1];
    }
  }

  lemma ClosedValid(conv: Conversation, content: string, recorded: bool)
    requires Valid(conv)
    ensures Valid(Closed(conv, content, recorded))
  {
    AppendPlain(conv, [Replies(content)]);
  }

  lemma SteerValid(conv: Conversation, steering: seq<string>)
    requires Valid(conv)
    ensures Valid(Steer(conv, steering))
  {
    AppendPlain(conv, seq(|steering|, i requires 0 <= i < |steering| => Says(STEERING_PREFIX + steering[i])));
  }

  /** A continue request never carries results, so it can be taken back. */
  lemma WithoutContinueNudgeValid(conv: Conversation)
    requires Valid(conv)
    ensures Valid(WithoutContinueNudge(conv))
  {
    if conv != [] && conv[|conv| - 1].text == CONTINUE_NUDGE {
      assert Paired(conv, |conv| - 1);
      assert |CONTINUE_NUDGE| != |LOOP_NUDGE|;
      DropLast(conv);
    }
  }

  // ---------------------------------------------------------------------
  // Giving up

  /** Giving up keeps the conversation valid. */
  lemma {:induction false} DropNudgesValid(conv: Conversation, n: nat)
    requires Valid(conv)
    ensures Valid(DropNudges(conv, n))
  {
    if conv != [] && n > 0 && conv[|conv| - 1].role.User? {
      var init, last := conv[..|conv| - 1], conv[|conv| - 1];
      assert Paired(conv, |conv| - 1);
      if last.results == [] {
        DropLast(conv);
        if IsEmptyNudge(last) {
          DropNudgesValid(init, n - 1);
        } else {
          DropNudgesValid(init, n);
          AppendPlain(DropNudges(init, n), [last]);
        }
      } else {
        assert init[|init| - 1] == conv[|conv| - 2] && Paired(conv, |conv| - 2);
        assert DropNudges(conv, n) == init + [last] == conv;
      }
    }
  }

  // ---------------------------------------------------------------------
  // One turn

  predicate ValidNext(n: Next) {
    match n
    case Continue(s) => Valid(s.conv)
    case Finish(conv, _, _) => Valid(conv)
    case Fail(conv, _) => Valid(conv)
  }

  lemma OnEmptyValid(cfg: Config, s: State, r: Reply)
    requires Valid(s.conv)
    ensures ValidNext(OnEmpty(cfg, s, r))
  {
    hide Valid, DropNudges, WithoutContinueNudge, Concat, TrimSpace;
    WithoutContinueNudgeValid(s.conv);
    DropNudgesValid(s.conv, s.emptyReplies);
    AppendPlain(s.conv, [Says(EMPTY_TRUNCATED_NUDGE)]);
    AppendPlain(s.conv, [Says(EMPTY_NUDGE)]);
  }

  lemma OnToolsValid(cfg: Config, s: State, r: Reply)
    requires Valid(s.conv) && r.calls != [] && |r.outputs| == |r.calls|
    ensures ValidNext(OnTools(cfg, s, r))
  {
    hide Valid, Closed;
    var note := r.todoOnly && !s.todoNoted;
    var text := if r.loopAction.LoopNudge? then LOOP_NUDGE else "";
    var ask, answer := Message(Assistant, r.main, r.calls, []), Message(User, text, [], Results(r, note));
    AppendAnswered(s.conv, ask, answer);
    var conv := s.conv + [ask, answer];
    forall content { ClosedValid(conv, content, false); }
  }

  lemma AskedOn(conv: Conversation, said: string, asked: string)
    requires Valid(conv)
    ensures Valid(conv + [Replies(said), Says(asked)]) && Valid(conv + [Replies(said)])
  {
    AppendPlain(conv, [Replies(said), Says(asked)]);
    AppendPlain(conv, [Replies(said)]);
  }

  lemma OnTextValid(cfg: Config, s: State, r: Reply, tools: bool)
    requires Valid(s.conv)
    ensures ValidNext(OnText(cfg, s, r, tools))
  {
    hide Valid, Concat, TrimSpace, TrimCutset, RequiredReadText, AtCap;
    AskedOn(s.conv, r.main, CONTINUE_NUDGE);
    AskedOn(s.conv, r.main, ANNOUNCE_NUDGE);
    if r.pending.Some? { AskedOn(s.conv, r.main, RequiredReadText(r.pending.value)); }
  }

  lemma OnDroppedCallValid(s: State, r: Reply)
    requires Valid(s.conv)
    ensures ValidNext(OnDroppedCall(s, r))
  {
    hide Valid;
    var said := if r.main != "" then [Replies(r.main)] else [];
    AppendPlain(s.conv, said);
    AppendPlain(s.conv + said, [Says(DROPPED_CALL_NUDGE)]);
  }

  lemma OnReplyValid(cfg: Config, s: State, r: Reply, tools: bool)
    requires Valid(s.conv) && |r.outputs| == |r.calls|
    ensures ValidNext(OnReply(cfg, s, r, tools))
  {
    hide Valid, OnEmpty, OnTools, OnText, OnDroppedCall;
    OnDroppedCallValid(s, r);
    OnEmptyValid(cfg, s, r);
    if r.calls != [] { OnToolsValid(cfg, s.(emptyReplies := 0), r); }
    OnTextValid(cfg, s.(emptyReplies := 0), r, tools);
  }

  lemma SendValid(cfg: Config, s: State, t: Turn)
    requires Valid(s.conv) && Possible(t)
    ensures ValidNext(Send(cfg, s, t))
  {
    hide Valid, OnReply, Window, Retries, Fallback;
    if t.outcome.Replied? { OnReplyValid(cfg, Answered(s), t.outcome.reply, t.tools); }
  }

  /** Whatever provider, model, user and compactor do, a turn leaves a valid
      conversation, whether the run goes on, finishes or fails. */
  lemma StepValid(cfg: Config, s: State, t: Turn)
    requires Valid(s.conv) && Possible(t)
    ensures ValidNext(Step(cfg, s, t))
  {
    hide Valid, Send, Steer;
    SteerValid(s.conv, t.steering);
    SendValid(cfg, Opened(s, t).(budgetCompacted := false), t);
  }

  lemma {:induction false} RunValid(cfg: Config, trace: seq<State>, turns: seq<Turn>, i: nat)
    requires Run(cfg, trace, turns) && Valid(trace[0].conv) && i < |trace|
    ensures Valid(trace[i].conv)
  {
    hide Step;
    if i > 0 {
      RunValid(cfg, trace, turns, i - 1);
      StepValid(cfg, trace[i - 1], turns[i - 1]);
    }
  }

  /** At every return of every run the conversation is a valid prefix, and so is it
      with the next turn's user message behind it. */
  lemma ValidAtEveryExit(cfg: Config, trace: seq<State>, turns: seq<Turn>, last: Turn, next: string)
    requires Run(cfg, trace, turns) && Valid(trace[0].conv) && Possible(last)
    requires !Step(cfg, trace[|turns|], last).Continue?
    ensures Valid(Step(cfg, trace[|turns|], last).conv)
    ensures Valid(Step(cfg, trace[|turns|], last).conv + [Says(next)])
  {
    hide Valid, Step;
    RunValid(cfg, trace, turns, |turns|);
    StepValid(cfg, trace[|turns|], last);
    AppendPlain(Step(cfg, trace[|turns|], last).conv, [Says(next)]);
  }

  // ---------------------------------------------------------------------
  // Growth

  predicate Compacts(t: Turn) {
    t.auto.Some? || t.forced.Some? || (t.outcome.Overflow? && t.outcome.compacted.Some?)
  }

  predicate Extends(longer: Conversation, shorter: Conversation) {
    |shorter| <= |longer| && longer[..|shorter|] == shorter
  }

  lemma Append(conv: Conversation, more: Conversation)
    ensures Extends(conv + more, conv)
  {
  }

  lemma OnToolsExtends(cfg: Config, s: State, r: Reply)
    requires r.calls != [] && |r.outputs| == |r.calls| && OnTools(cfg, s, r).Continue?
    ensures Extends(OnTools(cfg, s, r).state.conv, s.conv)
  {
    hide Results, Closed;
    var note := r.todoOnly && !s.todoNoted;
    var text := if r.loopAction.LoopNudge? then LOOP_NUDGE else "";
    Append(s.conv, [Message(Assistant, r.main, r.calls, []), Message(User, text, [], Results(r, note))]);
  }

  lemma OnTextExtends(cfg: Config, s: State, r: Reply, tools: bool)
    requires OnText(cfg, s, r, tools).Continue?
    ensures Extends(OnText(cfg, s, r, tools).state.conv, s.conv)
  {
    hide RequiredReadText, Concat, TrimSpace, TrimCutset;
    Append(s.conv, [Replies(r.main), Says(CONTINUE_NUDGE)]);
    Append(s.conv, [Replies(r.main), Says(ANNOUNCE_NUDGE)]);
    if r.pending.Some? { Append(s.conv, [Replies(r.main), Says(RequiredReadText(r.pending.value))]); }
  }

  lemma OnDroppedCallExtends(s: State, r: Reply)
    ensures Extends(OnDroppedCall(s, r).state.conv, s.conv)
  {
    var said := if r.main != "" then [Replies(r.main)] else [];
    assert s.conv + said + [Says(DROPPED_CALL_NUDGE)] == s.conv + (said + [Says(DROPPED_CALL_NUDGE)]);
  }

  lemma OnEmptyExtends(cfg: Config, s: State, r: Reply)
    requires OnEmpty(cfg, s, r).Continue?
    ensures Extends(OnEmpty(cfg, s, r).state.conv, s.conv)
  {
    hide DropNudges, WithoutContinueNudge, Concat, TrimSpace;
    Append(s.conv, [Says(EMPTY_TRUNCATED_NUDGE)]);
    Append(s.conv, [Says(EMPTY_NUDGE)]);
  }

  /** Every message a reply adds goes behind the conversation. */
  lemma ReplyExtends(cfg: Config, s: State, r: Reply, tools: bool)
    requires |r.outputs| == |r.calls| && OnReply(cfg, s, r, tools).Continue?
    ensures Extends(OnReply(cfg, s, r, tools).state.conv, s.conv)
  {
    hide OnTools, OnText, OnDroppedCall, OnEmpty, Extends;
    var s1 := s.(emptyReplies := 0);
    OnDroppedCallExtends(s, r);
    if r.calls != [] {
      if OnTools(cfg, s1, r).Continue? { OnToolsExtends(cfg, s1, r); }
    } else if r.main == "" {
      if OnEmpty(cfg, s, r).Continue? { OnEmptyExtends(cfg, s, r); }
    } else {
      if OnText(cfg, s1, r, tools).Continue? { OnTextExtends(cfg, s1, r, tools); }
    }
  }

  lemma SendExtends(cfg: Config, s: State, t: Turn)
    requires Possible(t) && !Compacts(t) && Send(cfg, s, t).Continue?
    ensures Extends(Send(cfg, s, t).state.conv, s.conv)
  {
    hide OnOverflow, OnFailure, OnReply, Valid;
    if t.outcome.Replied? {
      ReplyExtends(cfg, Answered(s), t.outcome.reply, t.tools);
    } else if t.outcome.Overflow? {
      OverflowSays(cfg, s, t);
    } else if t.outcome.Failed? {
      FailureSays(cfg, s, t);
    }
  }

  /** Without compaction the conversation only grows, so what the provider has cached
      stays a prefix of every later request. */
  lemma StepExtends(cfg: Config, s: State, t: Turn)
    requires Possible(t) && !Compacts(t) && Step(cfg, s, t).Continue?
    ensures Extends(Step(cfg, s, t).state.conv, s.conv)
  {
    hide Send, Valid;
    var s1 := Opened(s, t).(budgetCompacted := false);
    assert Extends(s1.conv, s.conv);
    SendExtends(cfg, s1, t);
  }

  lemma {:induction false} RunExtends(cfg: Config, trace: seq<State>, turns: seq<Turn>, i: nat, j: nat)
    requires Run(cfg, trace, turns) && i <= j < |trace|
    requires forall k :: i <= k < j ==> !Compacts(turns[k])
    ensures Extends(trace[j].conv, trace[i].conv)
    decreases j
  {
    hide Step;
    if i < j {
      RunExtends(cfg, trace, turns, i, j - 1);
      assert GoesOn(cfg, trace[j - 1], turns[j - 1], trace[j]);
      StepExtends(cfg, trace[j - 1], turns[j - 1]);
    }
  }

  /** The conversation ends with `content`, said by the assistant. */
  predicate EndsWith(conv: Conversation, content: string) {
    conv != [] && var m := conv[|conv| - 1]; m.role.Assistant? && m.text == content
  }

  lemma ClosedEnds(conv: Conversation, content: string)
    requires TrimSpace(content) != ""
    ensures EndsWith(Closed(conv, content, false), content)
  {
    hide TrimSpace;
  }

  lemma TrimEmpty()
    ensures TrimSpace("") == ""
  {
  }

  lemma ReplyEnds(cfg: Config, s: State, r: Reply, tools: bool)
    requires |r.outputs| == |r.calls| && OnReply(cfg, s, r, tools).Finish?
    requires TrimSpace(OnReply(cfg, s, r, tools).content) != "" && (s.pieces == [] || r.calls != [])
    ensures EndsWith(OnReply(cfg, s, r, tools).conv, OnReply(cfg, s, r, tools).content)
  {
    hide Results, RequiredReadText, Closed, TrimCutset, DropNudges, WithoutContinueNudge, Concat, TrimSpace;
    if r.calls != [] {
      var s1 := s.(emptyReplies := 0);
      var note := r.todoOnly && !s1.todoNoted;
      var text := if r.loopAction.LoopNudge? then LOOP_NUDGE else "";
      var conv := s.conv + [Message(Assistant, r.main, r.calls, []), Message(User, text, [], Results(r, note))];
      ClosedEnds(conv, OnReply(cfg, s, r, tools).content);
    } else if r.main == "" {
      TrimEmpty();
    }
  }

  /** A finished run's answer is the conversation's last message, said by the
      assistant: the next turn's prefix is complete.  (An answer continued in pieces is
      there in pieces.) */
  lemma AnswerIsLast(cfg: Config, s: State, t: Turn)
    requires Possible(t) && Step(cfg, s, t).Finish? && TrimSpace(Step(cfg, s, t).content) != ""
    requires s.pieces == [] || (t.outcome.Replied? && t.outcome.reply.calls != [])
    ensures EndsWith(Step(cfg, s, t).conv, Step(cfg, s, t).content)
  {
    hide OnReply, TrimSpace, EndsWith, Steer, Retries, Fallback, Window, Valid;
    var s1 := Opened(s, t).(budgetCompacted := false);
    if t.outcome.Replied? { ReplyEnds(cfg, Answered(s1), t.outcome.reply, t.tools); }
  }

  // ---------------------------------------------------------------------
  // Answers in pieces

  /** What the assistant has said, in order. */
  function Said(conv: Conversation): seq<string> {
    if conv == [] then []
    else Said(conv[..|conv| - 1]) + if conv[|conv| - 1].role.Assistant? then [conv[|conv| - 1].text] else []
  }

  lemma {:induction false} SaidAppend(a: Conversation, b: Conversation)
    ensures Said(a + b) == Said(a) + Said(b)
  {
    if b == [] {
      assert a + b == a;
    } else {
      assert (a + b)[..|a + b| - 1] == a + b[..|b| - 1];
      SaidAppend(a, b[..|b| - 1]);
    }
  }

  lemma {:induction false} UsersSayNothing(conv: Conversation)
    requires forall i :: 0 <= i < |conv| ==> conv[i].role.User?
    ensures Said(conv) == []
  {
    if conv != [] { UsersSayNothing(conv[..|conv| - 1]); }
  }

  lemma OpenedSays(s: State, t: Turn)
    requires !Compacts(t)
    ensures Said(Opened(s, t).conv) == Said(s.conv)
  {
    var more := seq(|t.steering|, i requires 0 <= i < |t.steering| => Says(STEERING_PREFIX + t.steering[i]));
    hide Said;
    SaidAppend(s.conv, more);
    UsersSayNothing(more);
    assert Opened(s, t).conv == s.conv + more;
    assert Said(s.conv) + [] == Said(s.conv);
  }

  /** The turn's reply became a piece of a longer answer. */
  predicate AddsPiece(cfg: Config, s: State, t: Turn) {
    && !t.overBudget && t.outcome.Replied?
    && var r := t.outcome.reply;
       && r.calls == [] && r.main != "" && r.stop.Length? && |s.pieces| < MAX_CONTINUATIONS && !AtCap(cfg, s.steps + 1)
  }

  /** No compaction, and no reply but a piece. */
  predicate Continues(cfg: Config, s: State, t: Turn) {
    !Compacts(t) && (!t.overBudget && t.outcome.Replied? ==> AddsPiece(cfg, s, t))
  }

  function PieceOf(s: State, t: Turn): string
    requires t.outcome.Replied?
  {
    if s.pieces == [] then TrimCutset(t.outcome.reply.piece) else t.outcome.reply.piece
  }

  lemma PieceSays(cfg: Config, s: State, t: Turn, s': State)
    requires GoesOn(cfg, s, t, s') && !Compacts(t) && AddsPiece(cfg, s, t)
    ensures s'.pieces == s.pieces + [PieceOf(s, t)] && Said(s'.conv) == Said(s.conv) + [t.outcome.reply.main]
  {
    hide Steer, TrimCutset, Said, Valid, Concat, TrimSpace, OnTools, OnEmpty;
    OpenedSays(s, t);
    var said := [Replies(t.outcome.reply.main), Says(CONTINUE_NUDGE)];
    SaidAppend(Opened(s, t).conv, said);
    PairSays(t.outcome.reply.main);
  }

  lemma PairSays(main: string)
    ensures Said([Replies(main), Says(CONTINUE_NUDGE)]) == [main] && Said([Replies(main)]) == [main]
  {
    var pair := [Replies(main), Says(CONTINUE_NUDGE)];
    assert pair[..1] == [Replies(main)] && [Replies(main)][..0] == [];
    assert Said([]) == [];
  }

  lemma RetrySays(cfg: Config, s: State, t: Turn, s': State)
    requires GoesOn(cfg, s, t, s') && !Compacts(t) && !(!t.overBudget && t.outcome.Replied?)
    ensures s'.pieces == s.pieces && Said(s'.conv) == Said(s.conv)
  {
    hide Steer, Said, Valid, OnReply, OnOverflow, OnFailure;
    OpenedSays(s, t);
    var s1 := Opened(s, t).(budgetCompacted := false);
    if t.outcome.Overflow? { OverflowSays(cfg, s1, t); } else if t.outcome.Failed? { FailureSays(cfg, s1, t); }
  }

  lemma OverflowSays(cfg: Config, s: State, t: Turn)
    requires t.outcome.Overflow? && !Compacts(t) && OnOverflow(cfg, s, t).Continue?
    ensures OnOverflow(cfg, s, t).state.conv == s.conv && OnOverflow(cfg, s, t).state.pieces == s.pieces
  {
    hide Window;
  }

  lemma FailureSays(cfg: Config, s: State, t: Turn)
    requires t.outcome.Failed? && OnFailure(cfg, s, t).Continue?
    ensures OnFailure(cfg, s, t).state.conv == s.conv && OnFailure(cfg, s, t).state.pieces == s.pieces
  {
    hide Retries, Fallback;
    if Retries(t.outcome, s.sendFailures + 1) {
      assert OnFailure(cfg, s, t) == Continue(s.(sendFailures := s.sendFailures + 1));
    }
  }

  /** What the replies of the turns from `i` to `j` said. */
  function Mains(cfg: Config, trace: seq<State>, turns: seq<Turn>, i: nat, j: nat): seq<string>
    requires i <= j <= |turns| < |trace|
    decreases j
  {
    if i == j then []
    else
      var t := turns[j - 1];
      Mains(cfg, trace, turns, i, j - 1) + if AddsPiece(cfg, trace[j - 1], t) then [t.outcome.reply.main] else []
  }

  /** While an answer is continued, the loop holds one piece for each part of it that the
      assistant has said. */
  lemma {:induction false} PiecesAreSaid(cfg: Config, trace: seq<State>, turns: seq<Turn>, i: nat, j: nat)
    requires Run(cfg, trace, turns) && i <= j < |trace| && trace[i].pieces == []
    requires forall k :: i <= k < j ==> Continues(cfg, trace[k], turns[k])
    ensures Said(trace[j].conv) == Said(trace[i].conv) + Mains(cfg, trace, turns, i, j)
    ensures |trace[j].pieces| == |Mains(cfg, trace, turns, i, j)|
    decreases j
  {
    hide Step, Said, AddsPiece, Possible;
    if i < j {
      PiecesAreSaid(cfg, trace, turns, i, j - 1);
      assert GoesOn(cfg, trace[j - 1], turns[j - 1], trace[j]) && Continues(cfg, trace[j - 1], turns[j - 1]);
      if AddsPiece(cfg, trace[j - 1], turns[j - 1]) {
        PieceSays(cfg, trace[j - 1], turns[j - 1], trace[j]);
      } else {
        RetrySays(cfg, trace[j - 1], turns[j - 1], trace[j]);
      }
    }
  }

  /** A continued answer that ends with text: the run returns all its pieces joined, and the
      conversation ends with the parts they came in, each said by the assistant. */
  lemma JoinedAnswerIsSaid(cfg: Config, trace: seq<State>, turns: seq<Turn>, i: nat, t: Turn)
    requires Run(cfg, trace, turns) && i < |trace| && trace[i].pieces == [] && trace[|turns|].pieces != []
    requires forall k :: i <= k < |turns| ==> Continues(cfg, trace[k], turns[k])
    requires Possible(t) && !Compacts(t) && Step(cfg, trace[|turns|], t).Finish?
    requires t.outcome.Replied? && t.outcome.reply.calls == [] && t.outcome.reply.main != ""
    ensures var r, end := t.outcome.reply, Step(cfg, trace[|turns|], t);
            && end.content == TrimSpace(Concat(trace[|turns|].pieces + [r.piece]))
            && |trace[|turns|].pieces| == |Mains(cfg, trace, turns, i, |turns|)|
            && Said(end.conv) == Said(trace[i].conv) + Mains(cfg, trace, turns, i, |turns|) + [r.main]
  {
    var s := trace[|turns|];
    PiecesAreSaid(cfg, trace, turns, i, |turns|);
    LastPieceEnds(cfg, s, t);
    hide Step, Said, AddsPiece, Possible, Concat, TrimSpace, Mains;
    OpenedSays(s, t);
    SaidAppend(Opened(s, t).conv, [Replies(t.outcome.reply.main)]);
    PairSays(t.outcome.reply.main);
  }

  lemma LastPieceEnds(cfg: Config, s: State, t: Turn)
    requires Possible(t) && Step(cfg, s, t).Finish? && s.pieces != []
    requires t.outcome.Replied? && t.outcome.reply.calls == [] && t.outcome.reply.main != ""
    ensures Step(cfg, s, t).conv == Opened(s, t).conv + [Replies(t.outcome.reply.main)]
    ensures Step(cfg, s, t).content == TrimSpace(Concat(s.pieces + [t.outcome.reply.piece]))
  {
    hide Steer, TrimCutset, Valid, Concat, TrimSpace, OnTools, OnEmpty;
  }
}
