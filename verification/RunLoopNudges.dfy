/** How a run that gives up on empty replies takes back its nudges
    (internal/agent/llm_runtime.go, dropEmptyNudges), and when one is left behind. */
module RunLoopNudges {
  import opened Wrappers
  import opened Text
  import opened RunLoop
  import opened RunLoopProofs

  /** What is left of `tail` without its empty-reply nudges. */
  function WithoutNudges(tail: Conversation): Conversation {
    if tail == [] then []
    else WithoutNudges(tail[..|tail| - 1]) + if IsEmptyNudge(tail[|tail| - 1]) then [] else [tail[|tail| - 1]]
  }

  function Nudges(tail: Conversation): nat {
    if tail == [] then 0 else Nudges(tail[..|tail| - 1]) + if IsEmptyNudge(tail[|tail| - 1]) then 1 else 0
  }

  predicate NoAssistant(tail: Conversation) {
    forall i :: 0 <= i < |tail| ==> tail[i].role.User?
  }

  /** Dropping as many nudges as a tail without assistant messages holds takes exactly
      those away, whatever came before and between. */
  lemma {:induction false} DropNudgesExact(before: Conversation, tail: Conversation)
    requires NoAssistant(tail)
    ensures DropNudges(before + tail, Nudges(tail)) == before + WithoutNudges(tail)
  {
    if tail == [] {
      assert before + tail == before;
    } else {
      var c, init := before + tail, tail[..|tail| - 1];
      assert c[..|c| - 1] == before + init && c[|c| - 1] == tail[|tail| - 1];
      DropNudgesExact(before, init);
      if Nudges(tail) == 0 {
        NoNudges(tail);
      }
    }
  }

  lemma {:induction false} NoNudges(tail: Conversation)
    requires Nudges(tail) == 0
    ensures WithoutNudges(tail) == tail
  {
    if tail != [] { NoNudges(tail[..|tail| - 1]); }
  }

  // ---------------------------------------------------------------------
  // The two passes

  /** The messages of the first `k` that are not marked. */
  function Kept(msgs: Conversation, drop: set<nat>, k: nat): Conversation
    requires k <= |msgs|
  {
    if k == 0 then [] else Kept(msgs, drop, k - 1) + if k - 1 in drop then [] else [msgs[k - 1]]
  }

  lemma {:induction false} KeptAll(msgs: Conversation, drop: set<nat>, k: nat)
    requires k <= |msgs| && forall d :: d in drop ==> d >= k
    ensures Kept(msgs, drop, k) == msgs[..k]
  {
    if k > 0 { KeptAll(msgs, drop, k - 1); }
  }

  /** What is kept after position `k`. */
  function KeptAfter(msgs: Conversation, drop: set<nat>, k: nat): Conversation
    requires k <= |msgs|
    decreases |msgs| - k
  {
    if k == |msgs| then [] else (if k in drop then [] else [msgs[k]]) + KeptAfter(msgs, drop, k + 1)
  }

  lemma {:induction false} KeptSplit(msgs: Conversation, drop: set<nat>, k: nat)
    requires k <= |msgs|
    ensures Kept(msgs, drop, |msgs|) == Kept(msgs, drop, k) + KeptAfter(msgs, drop, k)
    decreases |msgs| - k
  {
    if k < |msgs| { KeptSplit(msgs, drop, k + 1); }
  }

  /** Marking an earlier position changes nothing after it. */
  lemma {:induction false} KeptAfterSame(msgs: Conversation, drop: set<nat>, d: nat, k: nat)
    requires d < k <= |msgs|
    ensures KeptAfter(msgs, drop + {d}, k) == KeptAfter(msgs, drop, k)
    decreases |msgs| - k
  {
    if k < |msgs| { KeptAfterSame(msgs, drop, d, k + 1); }
  }

  /** The backward pass has settled everything from `i` on. */
  ghost predicate Settled(msgs: Conversation, n: nat, drop: set<nat>, i: nat) {
    && i <= |msgs| && |drop| <= n && (forall d :: d in drop ==> i <= d < |msgs|)
    && DropNudges(msgs, n) == DropNudges(msgs[..i], n - |drop|) + KeptAfter(msgs, drop, i)
  }

  /** The positions marked once this one has been looked at. */
  function Marked(msgs: Conversation, drop: set<nat>, p: nat): set<nat>
    requires p < |msgs|
  {
    if IsEmptyNudge(msgs[p]) then drop + {p} else drop
  }

  lemma DropStep(m: Conversation, n: nat)
    requires m != [] && n > 0 && m[|m| - 1].role.User?
    ensures DropNudges(m, n) ==
            if IsEmptyNudge(m[|m| - 1]) then DropNudges(m[..|m| - 1], n - 1) else DropNudges(m[..|m| - 1], n) + [m[|m| - 1]]
  {
  }

  lemma KeptStep(msgs: Conversation, drop: set<nat>, p: nat)
    requires p < |msgs| && p !in drop
    ensures KeptAfter(msgs, Marked(msgs, drop, p), p) ==
            (if IsEmptyNudge(msgs[p]) then [] else [msgs[p]]) + KeptAfter(msgs, drop, p + 1)
  {
    if IsEmptyNudge(msgs[p]) { KeptAfterSame(msgs, drop, p, p + 1); }
  }

  lemma SettleOne(msgs: Conversation, n: nat, drop: set<nat>, i: nat)
    requires 0 < i && Settled(msgs, n, drop, i) && |drop| < n && msgs[i - 1].role.User?
    ensures Settled(msgs, n, Marked(msgs, drop, i - 1), i - 1)
  {
    hide DropNudges, KeptAfter, IsEmptyNudge;
    var m := msgs[..i];
    assert m[..i - 1] == msgs[..i - 1] && m[i - 1] == msgs[i - 1];
    assert i - 1 !in drop;
    DropStep(m, n - |drop|);
    KeptStep(msgs, drop, i - 1);
    assert IsEmptyNudge(msgs[i - 1]) ==> |drop + {i - 1}| == |drop| + 1;
  }

  lemma SettledKeeps(msgs: Conversation, n: nat, drop: set<nat>, i: nat)
    requires Settled(msgs, n, drop, i) && (i == 0 || |drop| == n || msgs[i - 1].role.Assistant?)
    ensures Kept(msgs, drop, |msgs|) == DropNudges(msgs, n)
  {
    assert i > 0 ==> msgs[..i][i - 1] == msgs[i - 1];
    KeptAll(msgs, drop, i);
    KeptSplit(msgs, drop, i);
  }

  /** A backward pass marks the nudges, a forward pass copies the rest. */
  method DropEmptyNudges(msgs: Conversation, n: nat) returns (out: Conversation)
    ensures out == DropNudges(msgs, n)
  {
    hide DropNudges, KeptAfter;
    var drop: set<nat> := {};
    var i := |msgs|;
    assert Settled(msgs, n, drop, i) by { SettledAtStart(msgs, n); }
    while i > 0 && |drop| < n && !msgs[i - 1].role.Assistant?
      invariant 0 <= i <= |msgs| && Settled(msgs, n, drop, i)
    {
      SettleOne(msgs, n, drop, i);
      i := i - 1;
      if IsEmptyNudge(msgs[i]) { drop := drop + {i}; }
    }
    SettledKeeps(msgs, n, drop, i);
    out := [];
    for k := 0 to |msgs|
      invariant out == Kept(msgs, drop, k)
    {
      if k !in drop { out := out + [msgs[k]]; }
    }
  }

  lemma SettledAtStart(msgs: Conversation, n: nat)
    ensures Settled(msgs, n, {}, |msgs|)
  {
    assert msgs[..|msgs|] == msgs;
  }

  // ---------------------------------------------------------------------
  // Streaks

  lemma {:induction false} CountAppend(a: Conversation, b: Conversation)
    ensures Nudges(a + b) == Nudges(a) + Nudges(b)
  {
    if b == [] {
      assert a + b == a;
    } else {
      assert (a + b)[..|a + b| - 1] == a + b[..|b| - 1];
      CountAppend(a, b[..|b| - 1]);
    }
  }

  /** A turn that records no reply: a failure that is retried, or an empty reply. */
  predicate Quiet(t: Turn) {
    !Compacts(t) && (t.outcome.Replied? ==> t.outcome.reply.main == "" && t.outcome.reply.calls == [])
  }

  lemma {:induction false} NotNudges(tail: Conversation)
    requires forall i :: 0 <= i < |tail| ==> !IsEmptyNudge(tail[i])
    ensures Nudges(tail) == 0
  {
    if tail != [] { NotNudges(tail[..|tail| - 1]); }
  }

  /** Guidance is never taken for a nudge. */
  lemma SteerAdds(s: State, t: Turn) returns (more: Conversation)
    requires !Compacts(t)
    ensures Opened(s, t).conv == s.conv + more && NoAssistant(more) && Nudges(more) == 0
  {
    more := seq(|t.steering|, i requires 0 <= i < |t.steering| => Says(STEERING_PREFIX + t.steering[i]));
    forall i | 0 <= i < |more| ensures !IsEmptyNudge(more[i]) {
      assert more[i].text[0] == '[' && EMPTY_NUDGE[0] == EMPTY_TRUNCATED_NUDGE[0] == 'l';
    }
    NotNudges(more);
  }

  /** One more message, which is a nudge or is not. */
  lemma OneSaid(text: string)
    ensures NoAssistant([Says(text)])
    ensures Nudges([Says(text)]) == if IsEmptyNudge(Says(text)) then 1 else 0
  {
    assert [Says(text)][..0] == [];
  }

  lemma QuietReplyAdds(cfg: Config, s: State, r: Reply, tools: bool) returns (more: Conversation)
    requires r.main == "" && r.calls == [] && |r.outputs| == 0 && OnReply(cfg, s, r, tools).Continue?
    ensures OnReply(cfg, s, r, tools).state.conv == s.conv + more && NoAssistant(more)
    ensures Nudges(more) == OnReply(cfg, s, r, tools).state.emptyReplies - s.emptyReplies
  {
    hide DropNudges, WithoutContinueNudge, Concat, TrimSpace, Nudges, NoAssistant;
    OneSaid(DROPPED_CALL_NUDGE);
    OneSaid(EMPTY_NUDGE);
    OneSaid(EMPTY_TRUNCATED_NUDGE);
    var n := OnReply(cfg, s, r, tools).state;
    if n.droppedNudged && !s.droppedNudged {
      more := [Says(DROPPED_CALL_NUDGE)];
      assert s.conv + [] + more == s.conv + more;
    } else {
      more := [Says(if r.stop.Length? then EMPTY_TRUNCATED_NUDGE else EMPTY_NUDGE)];
    }
  }

  /** A failure that is retried adds nothing to what guidance added. */
  lemma QuietFailureAdds(cfg: Config, s: State, t: Turn)
    requires Possible(t) && Quiet(t) && !t.outcome.Replied? && Step(cfg, s, t).Continue?
    ensures Step(cfg, s, t).state.conv == Opened(s, t).conv && Step(cfg, s, t).state.emptyReplies == s.emptyReplies
  {
    hide OnReply, OnOverflow, OnFailure, Steer, Valid;
    var s1 := Opened(s, t).(budgetCompacted := false);
    if t.outcome.Overflow? { OverflowAdds(cfg, s1, t); } else if t.outcome.Failed? { FailureAdds(cfg, s1, t); }
  }

  lemma OverflowAdds(cfg: Config, s: State, t: Turn)
    requires t.outcome.Overflow? && !Compacts(t) && OnOverflow(cfg, s, t).Continue?
    ensures OnOverflow(cfg, s, t).state.conv == s.conv && OnOverflow(cfg, s, t).state.emptyReplies == s.emptyReplies
  {
    hide Window;
  }

  lemma FailureAdds(cfg: Config, s: State, t: Turn)
    requires t.outcome.Failed? && OnFailure(cfg, s, t).Continue?
    ensures OnFailure(cfg, s, t).state.conv == s.conv && OnFailure(cfg, s, t).state.emptyReplies == s.emptyReplies
  {
    hide Retries, Fallback, TrimSpace, Concat;
    if Retries(t.outcome, s.sendFailures + 1) {
      assert OnFailure(cfg, s, t) == Continue(s.(sendFailures := s.sendFailures + 1));
    }
  }

  lemma QuietReplyStep(cfg: Config, s: State, t: Turn)
    requires Possible(t) && Quiet(t) && t.outcome.Replied? && Step(cfg, s, t).Continue?
    ensures Step(cfg, s, t) == OnReply(cfg, Answered(Opened(s, t).(budgetCompacted := false)), t.outcome.reply, t.tools)
  {
    hide Steer, OnReply, Valid;
  }

  lemma QuietAdds(cfg: Config, s: State, t: Turn) returns (more: Conversation)
    requires Possible(t) && Quiet(t) && Step(cfg, s, t).Continue?
    ensures Step(cfg, s, t).state.conv == s.conv + more && NoAssistant(more)
    ensures Nudges(more) == Step(cfg, s, t).state.emptyReplies - s.emptyReplies
  {
    hide Step, Steer, OnReply, Nudges, Valid;
    var steered := SteerAdds(s, t);
    if t.outcome.Replied? {
      QuietReplyStep(cfg, s, t);
      var said := QuietReplyAdds(cfg, Answered(Opened(s, t).(budgetCompacted := false)), t.outcome.reply, t.tools);
      more := steered + said;
      CountAppend(steered, said);
      assert s.conv + steered + said == s.conv + more;
    } else {
      QuietFailureAdds(cfg, s, t);
      more := steered;
    }
  }

  /** A reply that lost its tool call but came with text: the text is recorded, and the
      count of empty replies stays. */
  predicate LostWithText(cfg: Config, s: State, t: Turn) {
    && !Compacts(t) && !t.overBudget && t.outcome.Replied?
    && var r := t.outcome.reply;
       && r.main != "" && r.calls == [] && r.stop.ForToolCalls? && t.tools
       && !s.droppedNudged && s.pieces == [] && !AtCap(cfg, s.steps + 1)
  }

  predicate InStreak(cfg: Config, s: State, t: Turn) { Quiet(t) || LostWithText(cfg, s, t) }

  lemma LostAdds(cfg: Config, s: State, t: Turn) returns (steered: Conversation)
    requires Possible(t) && LostWithText(cfg, s, t)
    ensures Step(cfg, s, t).Continue? && Step(cfg, s, t).state.droppedNudged
    ensures Step(cfg, s, t).state.emptyReplies == s.emptyReplies && NoAssistant(steered) && Nudges(steered) == 0
    ensures Step(cfg, s, t).state.conv == s.conv + steered + [Replies(t.outcome.reply.main)] + [Says(DROPPED_CALL_NUDGE)]
  {
    hide Steer, DropNudges, WithoutContinueNudge, Concat, TrimSpace, Nudges, NoAssistant, OnTools, OnText, OnEmpty;
    steered := SteerAdds(s, t);
  }

  lemma StaysNudged(cfg: Config, s: State, t: Turn)
    requires Possible(t) && Step(cfg, s, t).Continue? && s.droppedNudged
    ensures Step(cfg, s, t).state.droppedNudged
  {
    hide OnReply, Steer, Valid, Window, Retries, Fallback;
    if t.outcome.Replied? && !t.overBudget {
      ReplyStaysNudged(cfg, Answered(Opened(s, t).(budgetCompacted := false)), t.outcome.reply, t.tools);
    }
  }

  lemma ReplyStaysNudged(cfg: Config, s: State, r: Reply, tools: bool)
    requires |r.outputs| == |r.calls| && OnReply(cfg, s, r, tools).Continue? && s.droppedNudged
    ensures OnReply(cfg, s, r, tools).state.droppedNudged
  {
    hide OnTools, OnText, DropNudges, WithoutContinueNudge, Concat, TrimSpace;
    if r.calls != [] {
      ToolsStayNudged(cfg, s.(emptyReplies := 0), r);
    } else {
      TextStaysNudged(cfg, s.(emptyReplies := 0), r, tools);
    }
  }

  lemma ToolsStayNudged(cfg: Config, s: State, r: Reply)
    requires r.calls != [] && |r.outputs| == |r.calls|
    ensures OnTools(cfg, s, r).Continue? ==> OnTools(cfg, s, r).state.droppedNudged == s.droppedNudged
  {
    hide Results, Closed;
  }

  lemma TextStaysNudged(cfg: Config, s: State, r: Reply, tools: bool)
    ensures OnText(cfg, s, r, tools).Continue? ==> OnText(cfg, s, r, tools).state.droppedNudged == s.droppedNudged
  {
    hide Concat, TrimSpace, TrimCutset, RequiredReadText;
  }

  /** The count of empty replies when a tool call was lost along with text, in the turns
      from `i` to `j`. */
  function CountAtLost(cfg: Config, trace: seq<State>, turns: seq<Turn>, i: nat, j: nat): nat
    requires i <= j <= |turns| < |trace|
    decreases j
  {
    if i == j then 0
    else if LostWithText(cfg, trace[j - 1], turns[j - 1]) then trace[j - 1].emptyReplies
    else CountAtLost(cfg, trace, turns, i, j - 1)
  }

  /** What a streak has added: `front` up to the text of a lost call, if there was one,
      and `back` without assistant messages. */
  ghost predicate Added(cfg: Config, trace: seq<State>, turns: seq<Turn>, i: nat, j: nat, front: Conversation,
        back: Conversation)
    requires i <= j <= |turns| < |trace|
  {
    && trace[j].conv == trace[i].conv + (front + back) && NoAssistant(back)
    && Nudges(front) == CountAtLost(cfg, trace, turns, i, j)
    && Nudges(front) + Nudges(back) == trace[j].emptyReplies
    && (front != [] ==> front[|front| - 1].role.Assistant? && trace[j].droppedNudged)
  }

  lemma {:induction false} StreakAdds(cfg: Config, trace: seq<State>, turns: seq<Turn>, i: nat, j: nat)
      returns (front: Conversation, back: Conversation)
    requires Run(cfg, trace, turns) && i <= j < |trace| && trace[i].emptyReplies == 0
    requires forall k :: i <= k < j ==> InStreak(cfg, trace[k], turns[k])
    ensures Added(cfg, trace, turns, i, j, front, back)
    decreases j
  {
    hide Step, Nudges, Quiet, LostWithText, Possible;
    if i == j {
      front, back := [], [];
      NotNudges([]);
    } else {
      front, back := StreakAdds(cfg, trace, turns, i, j - 1);
      assert GoesOn(cfg, trace[j - 1], turns[j - 1], trace[j]) && InStreak(cfg, trace[j - 1], turns[j - 1]);
      if LostWithText(cfg, trace[j - 1], turns[j - 1]) {
        front, back := LostAdded(cfg, trace, turns, i, j, front, back);
      } else {
        back := QuietAdded(cfg, trace, turns, i, j, front, back);
      }
    }
  }

  lemma QuietAdded(cfg: Config, trace: seq<State>, turns: seq<Turn>, i: nat, j: nat, front: Conversation, back: Conversation)
      returns (longer: Conversation)
    requires i < j <= |turns| < |trace| && GoesOn(cfg, trace[j - 1], turns[j - 1], trace[j])
    requires Added(cfg, trace, turns, i, j - 1, front, back)
    requires Quiet(turns[j - 1]) && !LostWithText(cfg, trace[j - 1], turns[j - 1])
    ensures Added(cfg, trace, turns, i, j, front, longer)
  {
    hide Step, Nudges, Quiet, LostWithText, Possible;
    var more := QuietAdds(cfg, trace[j - 1], turns[j - 1]);
    if trace[j - 1].droppedNudged { StaysNudged(cfg, trace[j - 1], turns[j - 1]); }
    longer := back + more;
    CountAppend(back, more);
    Associate(trace[i].conv, front, back, more);
  }

  lemma Regroup(a: Conversation, b: Conversation, c: Conversation, d: Conversation, e: Conversation)
    ensures a + ([] + b) + c + d + e == a + ((b + c + d) + e)
  {
    assert [] + b == b;
  }

  lemma LostAdded(cfg: Config, trace: seq<State>, turns: seq<Turn>, i: nat, j: nat, front: Conversation, back: Conversation)
      returns (front': Conversation, back': Conversation)
    requires i < j <= |turns| < |trace| && GoesOn(cfg, trace[j - 1], turns[j - 1], trace[j])
    requires Added(cfg, trace, turns, i, j - 1, front, back) && LostWithText(cfg, trace[j - 1], turns[j - 1])
    ensures Added(cfg, trace, turns, i, j, front', back')
  {
    assert !trace[j - 1].droppedNudged && front == [];
    hide Step, Nudges, LostWithText, Possible;
    var steered := LostAdds(cfg, trace[j - 1], turns[j - 1]);
    var text := Replies(turns[j - 1].outcome.reply.main);
    front', back' := back + steered + [text], [Says(DROPPED_CALL_NUDGE)];
    CountAppend(back + steered, [text]);
    CountAppend(back, steered);
    NotNudges([text]);
    OneSaid(DROPPED_CALL_NUDGE);
    Regroup(trace[i].conv, back, steered, [text], back');
  }

  /** Nothing before an assistant message is dropped, however many nudges are asked for. */
  lemma {:induction false} DropStopsAtAssistant(before: Conversation, tail: Conversation, n: nat)
    requires NoAssistant(tail) && n >= Nudges(tail) && before != [] && before[|before| - 1].role.Assistant?
    ensures DropNudges(before + tail, n) == before + WithoutNudges(tail)
  {
    if tail == [] {
      assert before + tail == before;
    } else {
      var c, init := before + tail, tail[..|tail| - 1];
      assert c[..|c| - 1] == before + init && c[|c| - 1] == tail[|tail| - 1];
      if n == 0 {
        NoNudges(tail);
      } else if IsEmptyNudge(tail[|tail| - 1]) {
        DropStopsAtAssistant(before, init, n - 1);
      } else {
        DropStopsAtAssistant(before, init, n);
      }
    }
  }

  lemma {:induction false} WithoutAppend(a: Conversation, b: Conversation)
    ensures WithoutNudges(a + b) == WithoutNudges(a) + WithoutNudges(b)
  {
    if b == [] {
      assert a + b == a;
    } else {
      assert (a + b)[..|a + b| - 1] == a + b[..|b| - 1];
      WithoutAppend(a, b[..|b| - 1]);
    }
  }

  lemma {:induction false} WithoutTwice(tail: Conversation)
    ensures WithoutNudges(WithoutNudges(tail)) == WithoutNudges(tail) && Nudges(WithoutNudges(tail)) == 0
  {
    if tail != [] {
      var init, last := tail[..|tail| - 1], tail[|tail| - 1];
      WithoutTwice(init);
      WithoutAppend(WithoutNudges(init), [last]);
      CountAppend(WithoutNudges(init), [last]);
      assert [last][..0] == [] && [] + [last] == [last] && WithoutNudges(init) + [] == WithoutNudges(init);
    }
  }

  /** The run gives up on empty replies in a streak that began at `i`. */
  predicate GivesUp(cfg: Config, trace: seq<State>, turns: seq<Turn>, i: nat, t: Turn) {
    && |trace| == |turns| + 1 && i < |trace| && trace[i].emptyReplies == 0
    && (forall k :: i <= k < |turns| ==> InStreak(cfg, trace[k], turns[k])) && Quiet(t) && Possible(t)
    && Step(cfg, trace[|turns|], t).Fail? && Step(cfg, trace[|turns|], t).error.GaveUpOnEmpty?
  }

  /** The conversation that a run returns when it gives up: of what the streak added,
      nothing but nudges is dropped, and exactly as many are left as had been sent when a
      tool call was lost along with text. */
  lemma GivingUpKeeps(cfg: Config, trace: seq<State>, turns: seq<Turn>, i: nat, t: Turn)
      returns (tail: Conversation, kept: Conversation)
    requires Run(cfg, trace, turns) && GivesUp(cfg, trace, turns, i, t)
    ensures Opened(trace[|turns|], t).conv == trace[i].conv + tail
    ensures Step(cfg, trace[|turns|], t).conv == trace[i].conv + kept
    ensures WithoutNudges(kept) == WithoutNudges(tail)
    ensures Nudges(kept) == CountAtLost(cfg, trace, turns, i, |turns|)
  {
    var s := trace[|turns|];
    GivingUpDrops(cfg, s, t);
    hide *;
    var front, back := StreakAdds(cfg, trace, turns, i, |turns|);
    var more := LastSteer(s, t);
    AddedMeans(cfg, trace, turns, i, |turns|, front, back, more);
    var last := back + more;
    tail, kept := front + last, front + WithoutNudges(last);
    DropAfterFront(trace[i].conv, front, last, s.emptyReplies);
    WithoutAppend(front, last);
    WithoutAppend(front, WithoutNudges(last));
    WithoutTwice(last);
    CountAppend(front, WithoutNudges(last));
  }

  lemma AddedMeans(cfg: Config, trace: seq<State>, turns: seq<Turn>, i: nat, j: nat,
                   front: Conversation, back: Conversation, more: Conversation)
    requires i <= j <= |turns| < |trace| && Added(cfg, trace, turns, i, j, front, back)
    requires NoAssistant(more) && Nudges(more) == 0
    ensures trace[j].conv + more == trace[i].conv + (front + (back + more)) && NoAssistant(back + more)
    ensures Nudges(front) == CountAtLost(cfg, trace, turns, i, j)
    ensures Nudges(front) + Nudges(back + more) == trace[j].emptyReplies
    ensures front != [] ==> front[|front| - 1].role.Assistant?
  {
    hide Nudges, CountAtLost, NoAssistant;
    CountAppend(back, more);
    Associate(trace[i].conv, front, back, more);
    NoAssistantAppend(back, more);
  }

  lemma Associate(a: Conversation, b: Conversation, c: Conversation, d: Conversation)
    ensures a + (b + c) + d == a + (b + (c + d))
  {
  }

  lemma NoAssistantAppend(a: Conversation, b: Conversation)
    requires NoAssistant(a) && NoAssistant(b)
    ensures NoAssistant(a + b)
  {
  }

  /** What is dropped is behind the front. */
  lemma DropAfterFront(before: Conversation, front: Conversation, last: Conversation, n: nat)
    requires NoAssistant(last) && n == Nudges(front) + Nudges(last) && (front != [] ==> front[|front| - 1].role.Assistant?)
    ensures DropNudges(before + (front + last), n) == before + (front + WithoutNudges(last))
  {
    hide DropNudges, WithoutNudges, NoAssistant;
    assert before + (front + last) == before + front + last;
    assert before + (front + WithoutNudges(last)) == before + front + WithoutNudges(last);
    if front == [] { DropNudgesExact(before + front, last); } else { DropStopsAtAssistant(before + front, last, n); }
  }

  lemma GivingUpDrops(cfg: Config, s: State, t: Turn)
    requires Possible(t) && Step(cfg, s, t).Fail? && Step(cfg, s, t).error.GaveUpOnEmpty?
    ensures Step(cfg, s, t).conv == DropNudges(Opened(s, t).conv, s.emptyReplies)
  {
    hide Steer, DropNudges, Retries, Fallback, Window, WithoutContinueNudge, Results, Valid;
  }

  /** The count is positive exactly when a call was lost along with text behind a nudge. */
  lemma {:induction false} CountAtLostMeans(cfg: Config, trace: seq<State>, turns: seq<Turn>, i: nat, j: nat)
    requires Run(cfg, trace, turns) && i <= j < |trace|
    ensures CountAtLost(cfg, trace, turns, i, j) > 0 <==>
            exists k :: i <= k < j && LostWithText(cfg, trace[k], turns[k]) && trace[k].emptyReplies > 0
    decreases j
  {
    hide LostWithText, Step;
    if i < j {
      CountAtLostMeans(cfg, trace, turns, i, j - 1);
      if LostWithText(cfg, trace[j - 1], turns[j - 1]) {
        forall k | i <= k < j - 1 ensures !LostWithText(cfg, trace[k], turns[k]) { LostOnce(cfg, trace, turns, k, j - 1); }
      }
    }
  }

  /** That happens once in a run at most. */
  lemma {:induction false} LostOnce(cfg: Config, trace: seq<State>, turns: seq<Turn>, k: nat, j: nat)
    requires Run(cfg, trace, turns) && k < j < |turns| && LostWithText(cfg, trace[j], turns[j])
    ensures !LostWithText(cfg, trace[k], turns[k])
  {
    assert GoesOn(cfg, trace[k], turns[k], trace[k + 1]);
    if LostWithText(cfg, trace[k], turns[k]) {
      var _ := LostAdds(cfg, trace[k], turns[k]);
      NudgedFrom(cfg, trace, turns, k + 1, j);
    }
  }

  lemma {:induction false} NudgedFrom(cfg: Config, trace: seq<State>, turns: seq<Turn>, k: nat, j: nat)
    requires Run(cfg, trace, turns) && k <= j < |trace| && trace[k].droppedNudged
    ensures trace[j].droppedNudged
    decreases j
  {
    hide Step, Possible;
    if k < j {
      NudgedFrom(cfg, trace, turns, k, j - 1);
      assert GoesOn(cfg, trace[j - 1], turns[j - 1], trace[j]);
      StaysNudged(cfg, trace[j - 1], turns[j - 1]);
    }
  }

  /** So a nudge is left if and only if a tool call was lost along with text after one had
      been sent. */
  lemma NudgeLeftIff(cfg: Config, trace: seq<State>, turns: seq<Turn>, i: nat, t: Turn) returns (kept: Conversation)
    requires Run(cfg, trace, turns) && GivesUp(cfg, trace, turns, i, t)
    ensures Step(cfg, trace[|turns|], t).conv == trace[i].conv + kept
    ensures Nudges(kept) > 0 <==>
            exists k :: i <= k < |turns| && LostWithText(cfg, trace[k], turns[k]) && trace[k].emptyReplies > 0
  {
    hide Step, Nudges, LostWithText, CountAtLost, Run;
    var tail;
    tail, kept := GivingUpKeeps(cfg, trace, turns, i, t);
    CountAtLostMeans(cfg, trace, turns, i, |turns|);
  }

  /** Any other turn, without compaction, ends the streak. */
  lemma OthersReset(cfg: Config, s: State, t: Turn)
    requires Possible(t) && !Compacts(t) && !InStreak(cfg, s, t) && Step(cfg, s, t).Continue?
    ensures Step(cfg, s, t).state.emptyReplies == 0
  {
    hide Steer, DropNudges, WithoutContinueNudge, Concat, TrimSpace, TrimCutset, RequiredReadText, Closed, Valid,
         Results, Window, OnOverflow, OnFailure;
  }

  /** So every run that does not compact and gives up does so in a streak. */
  lemma {:induction false} StreakStart(cfg: Config, trace: seq<State>, turns: seq<Turn>, j: nat) returns (i: nat)
    requires Run(cfg, trace, turns) && j < |trace| && trace[0].emptyReplies == 0
    requires forall k :: 0 <= k < |turns| ==> !Compacts(turns[k])
    ensures i <= j && trace[i].emptyReplies == 0 && forall k :: i <= k < j ==> InStreak(cfg, trace[k], turns[k])
  {
    hide Step, InStreak, Possible, Compacts;
    if j == 0 {
      i := 0;
    } else {
      assert GoesOn(cfg, trace[j - 1], turns[j - 1], trace[j]);
      if InStreak(cfg, trace[j - 1], turns[j - 1]) {
        i := StreakStart(cfg, trace, turns, j - 1);
      } else {
        OthersReset(cfg, trace[j - 1], turns[j - 1]);
        i := j;
      }
    }
  }

  /** A run that gives up returns the conversation from before the streak, followed by
      whatever the user (or a lost tool call) added meanwhile and by none of the
      streak's nudges. */
  lemma GivingUpLeavesNoNudge(cfg: Config, trace: seq<State>, turns: seq<Turn>, i: nat, t: Turn) returns (tail: Conversation)
    requires Run(cfg, trace, turns) && i < |trace| && trace[i].emptyReplies == 0
    requires (forall k :: i <= k < |turns| ==> Quiet(turns[k])) && Quiet(t) && Possible(t)
    requires Step(cfg, trace[|turns|], t).Fail? && Step(cfg, trace[|turns|], t).error.GaveUpOnEmpty?
    ensures Opened(trace[|turns|], t).conv == trace[i].conv + tail
    ensures Step(cfg, trace[|turns|], t).conv == trace[i].conv + WithoutNudges(tail)
  {
    hide Step, Nudges, WithoutNudges;
    var kept;
    tail, kept := GivingUpKeeps(cfg, trace, turns, i, t);
    CountAtLostMeans(cfg, trace, turns, i, |turns|);
    NoNudges(kept);
  }

  lemma LastSteer(s: State, t: Turn) returns (more: Conversation)
    requires Quiet(t)
    ensures Opened(s, t).conv == s.conv + more && NoAssistant(more) && Nudges(more) == 0
  {
    more := SteerAdds(s, t);
  }

  const UNCAPPED := Config(0, Off, [], false)

  function Quietly(main: string, stop: StopReason): Turn {
    var reply := Reply(main, main, [], [], stop, false, LoopOk, None, None, None, false);
    Turn([], None, false, None, true, "m", 0, {}, Replied(reply))
  }

  lemma NoSteering(s: State, t: Turn)
    requires t.steering == [] && t.auto.None?
    ensures Opened(s, t) == s
  {
    assert Steer(s.conv, []) == s.conv;
  }

  lemma EmptyGoesOn(s: State)
    requires s.emptyReplies < 2 && s.pieces == [] && s.sendFailures == 0
    requires !s.budgetCompacted && !s.overflowCompacted && !s.overflowResent
    ensures GoesOn(UNCAPPED, s, Quietly("", Stop),
                   s.(conv := s.conv + [Says(EMPTY_NUDGE)], emptyReplies := s.emptyReplies + 1, steps := s.steps + 1))
  {
    hide Steer, DropNudges, WithoutContinueNudge, Concat, TrimSpace, Valid;
    NoSteering(s, Quietly("", Stop));
  }

  lemma LostGoesOn(s: State)
    requires !s.droppedNudged && s.pieces == [] && s.sendFailures == 0
    requires !s.budgetCompacted && !s.overflowCompacted && !s.overflowResent
    ensures GoesOn(UNCAPPED, s, Quietly("text", ForToolCalls),
                   s.(conv := s.conv + [Replies("text")] + [Says(DROPPED_CALL_NUDGE)], droppedNudged := true,
                      steps := s.steps + 1))
  {
    hide Steer, DropNudges, WithoutContinueNudge, Concat, TrimSpace, Valid;
    NoSteering(s, Quietly("text", ForToolCalls));
  }

  lemma EmptyGivesUp(s: State)
    requires s.emptyReplies == 2 && s.pieces == []
    ensures Possible(Quietly("", Stop)) && Step(UNCAPPED, s, Quietly("", Stop)) == Fail(DropNudges(s.conv, 2), GaveUpOnEmpty)
  {
    hide Steer, DropNudges, WithoutContinueNudge, Concat, TrimSpace, Valid;
    NoSteering(s, Quietly("", Stop));
  }

  /** The nudge behind the recorded text is dropped, the one before it is not reached. */
  lemma DropStopsAtText(task: Message, first: Message, text: Message, lost: Message, second: Message)
    requires IsEmptyNudge(second) && lost.role.User? && !IsEmptyNudge(lost) && text.role.Assistant?
    ensures DropNudges([task, first, text, lost, second], 2) == [task, first, text, lost]
  {
    var all, upTo := [task, first, text, lost, second], [task, first, text, lost];
    assert all[..4] == upTo && upTo[..3] == [task, first, text];
    DropStep(all, 2);
    DropStep(upTo, 1);
    assert [task, first, text] + [lost] == upTo;
  }

  /** A lost tool call that came with text is recorded without ending the streak, so a
      nudge sent before it is not found again and stays in the conversation. */
  lemma NudgeLeftBehind() returns (trace: seq<State>, turns: seq<Turn>, last: Turn)
    ensures Run(UNCAPPED, trace, turns) && |turns| == 3 && trace[0] == Initial([Says("task")]) && Possible(last)
    ensures Step(UNCAPPED, trace[3], last) ==
            Fail([Says("task"), Says(EMPTY_NUDGE), Replies("text"), Says(DROPPED_CALL_NUDGE)], GaveUpOnEmpty)
  {
    hide Step, GoesOn, DropNudges, Possible;
    last := Quietly("", Stop);
    turns := [last, Quietly("text", ForToolCalls), last];
    var s0 := Initial([Says("task")]);
    var s1 := s0.(conv := s0.conv + [Says(EMPTY_NUDGE)], emptyReplies := 1, steps := 1);
    var s2 := s1.(conv := s1.conv + [Replies("text")] + [Says(DROPPED_CALL_NUDGE)], droppedNudged := true, steps := 2);
    var s3 := s2.(conv := s2.conv + [Says(EMPTY_NUDGE)], emptyReplies := 2, steps := 3);
    trace := [s0, s1, s2, s3];
    EmptyGoesOn(s0);
    LostGoesOn(s1);
    EmptyGoesOn(s2);
    EmptyGivesUp(s3);
    DropStopsAtText(Says("task"), Says(EMPTY_NUDGE), Replies("text"), Says(DROPPED_CALL_NUDGE), Says(EMPTY_NUDGE));
    assert s3.conv == [Says("task"), Says(EMPTY_NUDGE), Replies("text"), Says(DROPPED_CALL_NUDGE), Says(EMPTY_NUDGE)];
  }
}
