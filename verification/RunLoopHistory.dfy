/** What a run remembers of its turns, and so when it ends and how
    (internal/agent/llm_runtime.go, runToolLoop): each ending said of what the provider,
    the model and the compactor have done so far. */
module RunLoopHistory {
  import opened Wrappers
  import opened Text
  import opened RunLoop
  import opened RunLoopResults

  // ---------------------------------------------------------------------
  // What the turns so far came to

  predicate GetsReply(t: Turn) { !t.overBudget && t.outcome.Replied? }
  predicate FailsToSend(t: Turn) { !t.overBudget && t.outcome.Failed? }
  predicate Overflows(t: Turn) { !t.overBudget && t.outcome.Overflow? }

  /** A reply without tool calls. */
  predicate OnlySays(t: Turn) { GetsReply(t) && t.outcome.reply.calls == [] }

  function One(b: bool): nat { if b then 1 else 0 }

  /** The replies to the first `n` turns. */
  function ReplyCount(turns: seq<Turn>, n: nat): nat
    requires n <= |turns|
  {
    if n == 0 then 0 else ReplyCount(turns, n - 1) + One(GetsReply(turns[n - 1]))
  }

  /** A reply to the `n`-th turn is the last one the cap allows. */
  predicate Capped(cfg: Config, turns: seq<Turn>, n: nat)
    requires n <= |turns|
  {
    cfg.maxSteps > 0 && ReplyCount(turns, n) + 1 >= cfg.maxSteps
  }

  /** The pieces of a cut reply that are to be continued, since the last step of tools. */
  function Pieces(cfg: Config, turns: seq<Turn>, n: nat): nat
    requires n <= |turns|
    decreases n, 0
  {
    if n == 0 || CallsTools(turns[n - 1]) then 0 else Pieces(cfg, turns, n - 1) + One(IsPiece(cfg, turns, n - 1))
  }

  /** Text cut by the output limit; at most three pieces are continued. */
  predicate IsPiece(cfg: Config, turns: seq<Turn>, n: nat)
    requires n < |turns|
    decreases n, 1
  {
    && OnlySays(turns[n]) && turns[n].outcome.reply.main != "" && turns[n].outcome.reply.stop.Length?
    && Pieces(cfg, turns, n) < 3 && !Capped(cfg, turns, n)
  }

  /** A reply that stopped for tool calls and has none; the run asks once. */
  predicate IsLost(cfg: Config, turns: seq<Turn>, n: nat)
    requires n < |turns|
    decreases n, 1
  {
    && OnlySays(turns[n]) && turns[n].outcome.reply.stop.ForToolCalls? && turns[n].tools
    && !EverLost(cfg, turns, n) && Pieces(cfg, turns, n) == 0 && !Capped(cfg, turns, n)
  }

  predicate EverLost(cfg: Config, turns: seq<Turn>, n: nat)
    requires n <= |turns|
    decreases n, 0
  {
    n > 0 && (EverLost(cfg, turns, n - 1) || IsLost(cfg, turns, n - 1))
  }

  predicate IsEmpty(cfg: Config, turns: seq<Turn>, n: nat)
    requires n < |turns|
  {
    OnlySays(turns[n]) && turns[n].outcome.reply.main == "" && !IsLost(cfg, turns, n)
  }

  /** The empty replies in a row; a lost call does not end the row. */
  function Empties(cfg: Config, turns: seq<Turn>, n: nat): nat
    requires n <= |turns|
  {
    if n == 0 then 0
    else if !GetsReply(turns[n - 1]) || IsLost(cfg, turns, n - 1) then Empties(cfg, turns, n - 1)
    else if IsEmpty(cfg, turns, n - 1) then Empties(cfg, turns, n - 1) + 1
    else 0
  }

  /** Text that is not continued. */
  predicate IsText(cfg: Config, turns: seq<Turn>, n: nat)
    requires n < |turns|
  {
    && OnlySays(turns[n]) && turns[n].outcome.reply.main != "" && !IsLost(cfg, turns, n) && !IsPiece(cfg, turns, n)
  }

  predicate EverTools(turns: seq<Turn>, n: nat)
    requires n <= |turns|
  {
    exists i :: 0 <= i < n && CallsTools(turns[i])
  }

  /** Work that is announced but not begun, before any tool call; the run asks once. */
  predicate IsAnnounced(cfg: Config, turns: seq<Turn>, n: nat)
    requires n < |turns|
    decreases n, 1
  {
    && IsText(cfg, turns, n) && turns[n].outcome.reply.pending.None? && turns[n].outcome.reply.announces && turns[n].tools
    && !EverAnnounced(cfg, turns, n) && !EverTools(turns, n) && Pieces(cfg, turns, n) == 0 && !Capped(cfg, turns, n)
  }

  predicate EverAnnounced(cfg: Config, turns: seq<Turn>, n: nat)
    requires n <= |turns|
    decreases n, 0
  {
    n > 0 && (EverAnnounced(cfg, turns, n - 1) || IsAnnounced(cfg, turns, n - 1))
  }

  /** A request that failed for the `k`-th time in a row is sent again: six times in all
      when the failure passes, three times when it is not known, unless the wait is long. */
  predicate Again(t: Turn, k: nat)
    requires t.outcome.Failed?
  {
    !t.outcome.waitTooLong && ((t.outcome.failure.Transient? && k < 6) || (t.outcome.failure.Unknown? && k < 3))
  }

  /** How often in a row the model that is asked now has failed. */
  function Failures(turns: seq<Turn>, n: nat): nat
    requires n <= |turns|
  {
    if n == 0 || GetsReply(turns[n - 1]) then 0
    else if !FailsToSend(turns[n - 1]) then Failures(turns, n - 1)
    else if Again(turns[n - 1], Failures(turns, n - 1) + 1) then Failures(turns, n - 1) + 1
    else 0
  }

  /** The window was exceeded since the last reply. */
  predicate Overflowed(turns: seq<Turn>, n: nat)
    requires n <= |turns|
  {
    n > 0 && !GetsReply(turns[n - 1]) && (Overflows(turns[n - 1]) || Overflowed(turns, n - 1))
  }

  /** The first overflow since the last reply, and the conversation can be compacted. */
  predicate Compacted(turns: seq<Turn>, n: nat)
    requires n < |turns|
  {
    Overflows(turns[n]) && !Overflowed(turns, n) && turns[n].outcome.compacted.Some?
  }

  /** Since the last reply a request was sent again in a smaller window. */
  predicate Resent(turns: seq<Turn>, n: nat)
    requires n <= |turns|
  {
    n > 0 && !GetsReply(turns[n - 1]) && ((Overflows(turns[n - 1]) && !Compacted(turns, n - 1)) || Resent(turns, n - 1))
  }

  /** The smallest window that an overflow named so far; 0 if none did. */
  function Smallest(turns: seq<Turn>, n: nat): nat
    requires n <= |turns|
  {
    if n == 0 then 0
    else
      var was := Smallest(turns, n - 1);
      if !Overflows(turns[n - 1]) || turns[n - 1].outcome.stated == 0 then was
      else if was == 0 || turns[n - 1].outcome.stated < was then turns[n - 1].outcome.stated else was
  }

  /** The window in force: the model's own, or a smaller one that an overflow named. */
  function InForce(own: nat, named: nat): nat {
    if named > 0 && (own == 0 || named < own) then named else own
  }

  /** An overflow that cannot be compacted away makes the window in force smaller, for the
      first time since the last reply. */
  predicate Narrows(turns: seq<Turn>, n: nat)
    requires n < |turns|
  {
    && Overflows(turns[n]) && !Resent(turns, n)
    && 0 < InForce(turns[n].window, Smallest(turns, n + 1)) != InForce(turns[n].window, Smallest(turns, n))
  }

  // ---------------------------------------------------------------------
  // The run remembers just that

  /** The turns behind the first `n` do not matter. */
  ghost predicate Remembers(cfg: Config, s: State, turns: seq<Turn>, n: nat)
    requires n <= |turns|
  {
    && s.steps == ReplyCount(turns, n) && |s.pieces| == Pieces(cfg, turns, n)
    && (s.droppedNudged <==> EverLost(cfg, turns, n)) && s.emptyReplies == Empties(cfg, turns, n)
    && (s.calledTools <==> EverTools(turns, n)) && (s.announceNudged <==> EverAnnounced(cfg, turns, n))
    && s.sendFailures == Failures(turns, n)
    && (s.overflowCompacted <==> Overflowed(turns, n)) && (s.overflowResent <==> Resent(turns, n))
    && s.learned == Smallest(turns, n)
    && (s.budgetCompacted <==> n > 0 && turns[n - 1].overBudget)
  }

  lemma ToolsSoFar(turns: seq<Turn>, n: nat)
    requires n < |turns|
    ensures EverTools(turns, n + 1) <==> EverTools(turns, n) || CallsTools(turns[n])
  {
    hide CallsTools;
  }

  /** A turn without a reply leaves what replies leave. */
  lemma NoReply(cfg: Config, turns: seq<Turn>, n: nat)
    requires n < |turns| && !GetsReply(turns[n])
    ensures ReplyCount(turns, n + 1) == ReplyCount(turns, n) && Pieces(cfg, turns, n + 1) == Pieces(cfg, turns, n)
    ensures EverLost(cfg, turns, n + 1) == EverLost(cfg, turns, n) && Empties(cfg, turns, n + 1) == Empties(cfg, turns, n)
    ensures EverTools(turns, n + 1) == EverTools(turns, n) && EverAnnounced(cfg, turns, n + 1) == EverAnnounced(cfg, turns, n)
  {
    ToolsSoFar(turns, n);
  }

  /** What an overflow adds. */
  lemma OverflowTurn(turns: seq<Turn>, n: nat)
    requires n < |turns| && Overflows(turns[n])
    ensures Overflowed(turns, n + 1) && (Resent(turns, n + 1) <==> Resent(turns, n) || !Compacted(turns, n))
    ensures var o, was := turns[n].outcome, Smallest(turns, n);
            Smallest(turns, n + 1) == if o.stated > 0 && (was == 0 || o.stated < was) then o.stated else was
    ensures Failures(turns, n + 1) == Failures(turns, n)
  {
  }

  /** The conversation is compacted, or sent again in the narrower window, or it is too long. */
  ghost predicate OverflowLaw(s: State, turns: seq<Turn>, n: nat, e: Next)
    requires n < |turns| && Overflows(turns[n])
  {
    if Compacted(turns, n) then e.Continue? && e.state.conv == turns[n].outcome.compacted.value
    else if Narrows(turns, n) then e.Continue? && e.state.conv == s.conv
    else e == Fail(s.conv, WindowExceeded)
  }

  lemma OverflowRemembers(cfg: Config, s: State, turns: seq<Turn>, n: nat)
    requires n < |turns| && Remembers(cfg, s, turns, n) && Overflows(turns[n])
    ensures var e := OnOverflow(cfg, s.(budgetCompacted := false), turns[n]);
            OverflowLaw(s, turns, n, e) && (e.Continue? ==> Remembers(cfg, e.state, turns, n + 1))
  {
    NoReply(cfg, turns, n);
    OverflowTurn(turns, n);
    hide Pieces, EverLost, Empties, EverTools, EverAnnounced, Failures, ReplyCount, Overflowed, Resent, Smallest;
  }

  /** The first model of the chain that is known and not to be skipped; no model has the
      empty name. */
  ghost predicate FirstOpen(chain: seq<Model>, skipped: set<Model>, known: set<Model>, m: Model) {
    m != "" && m !in skipped && m in known && exists k :: FirstAt(chain, skipped, known, m, k)
  }

  ghost predicate FirstAt(chain: seq<Model>, skipped: set<Model>, known: set<Model>, m: Model, k: int) {
    0 <= k < |chain| && chain[k] == m && forall j :: 0 <= j < k ==> chain[j] in skipped || chain[j] !in known
  }

  lemma {:induction false} NextIsFirst(chain: seq<Model>, failed: Model, tried: set<Model>, known: set<Model>)
    ensures var m := NextInChain(chain, failed, tried, known);
            forall x :: FirstOpen(chain, tried + {failed}, known, x) <==> m != "" && x == m
  {
    var skipped := tried + {failed};
    if chain != [] {
      var m := chain[0];
      if m in skipped || m !in known {
        NextIsFirst(chain[1..], failed, tried, known);
        forall x ensures FirstOpen(chain, skipped, known, x) <==> FirstOpen(chain[1..], skipped, known, x) {
          FirstLater(chain, skipped, known, x);
        }
      } else {
        assert FirstAt(chain, skipped, known, m, 0);
        forall x | FirstOpen(chain, skipped, known, x) ensures x == m {
          var k :| FirstAt(chain, skipped, known, x, k);
        }
      }
    }
  }

  lemma FirstLater(chain: seq<Model>, skipped: set<Model>, known: set<Model>, x: Model)
    requires chain != [] && (chain[0] in skipped || chain[0] !in known)
    ensures FirstOpen(chain, skipped, known, x) <==> FirstOpen(chain[1..], skipped, known, x)
  {
    if FirstOpen(chain, skipped, known, x) {
      var k :| FirstAt(chain, skipped, known, x, k);
      assert FirstAt(chain[1..], skipped, known, x, k - 1);
    }
    if FirstOpen(chain[1..], skipped, known, x) {
      var k :| FirstAt(chain[1..], skipped, known, x, k);
      assert FirstAt(chain, skipped, known, x, k + 1);
    }
  }

  function Asked(s: State, t: Turn): Model { if s.chosen.Some? then s.chosen.value else t.live }

  /** The run may ask `m` instead of the model that is not to be had: the user agrees, or
      cannot be asked and the switch is to be silent. */
  ghost predicate MaySwitch(cfg: Config, s: State, t: Turn, m: Model)
    requires t.outcome.Failed?
  {
    && !cfg.mode.Off? && t.outcome.unavailable && (if cfg.interactive then t.outcome.consent else cfg.mode.Silent?)
    && FirstOpen(cfg.chain, s.tried + {Asked(s, t)}, t.known, m)
  }

  lemma FallbackIs(cfg: Config, s: State, t: Turn)
    requires t.outcome.Failed?
    ensures var next := Fallback(cfg, s.(budgetCompacted := false), Asked(s, t), t.outcome, t.known);
            && (next.Some? ==> MaySwitch(cfg, s, t, next.value))
            && (next.None? ==> !exists m :: MaySwitch(cfg, s, t, m))
  {
    var failed := Asked(s, t);
    NextIsFirst(cfg.chain, failed, s.tried + {failed}, t.known);
    assert s.tried + {failed} + {failed} == s.tried + {failed};
    hide FirstOpen, NextInChain;
    if cfg.chain == [] { NoneFirst(s.tried + {failed}, t.known); }
  }

  lemma NoneFirst(skipped: set<Model>, known: set<Model>)
    ensures forall m :: !FirstOpen([], skipped, known, m)
  {
  }

  /** What a failure adds. */
  lemma FailedTurn(turns: seq<Turn>, n: nat)
    requires n < |turns| && FailsToSend(turns[n])
    ensures Overflowed(turns, n + 1) == Overflowed(turns, n) && Resent(turns, n + 1) == Resent(turns, n)
    ensures Smallest(turns, n + 1) == Smallest(turns, n)
    ensures Failures(turns, n + 1) ==
            if Again(turns[n], Failures(turns, n) + 1) then Failures(turns, n) + 1 else 0
  {
  }

  /** A failed request is sent again, unless the wait is cancelled; or the run switches to the
      first open model of the chain; or it fails. */
  ghost predicate FailureLaw(cfg: Config, s: State, turns: seq<Turn>, n: nat, e: Next)
    requires n < |turns| && FailsToSend(turns[n])
  {
    var t := turns[n];
    if Again(t, Failures(turns, n) + 1) then
      if t.outcome.cancelledWaiting then e == Fail(s.conv, Interrupted)
      else e.Continue? && e.state.conv == s.conv && e.state.chosen == s.chosen && e.state.tried == s.tried
    else if exists m :: MaySwitch(cfg, s, t, m) then
      && e.Continue? && e.state.conv == s.conv && e.state.tried == s.tried + {Asked(s, t)}
      && e.state.chosen.Some? && MaySwitch(cfg, s, t, e.state.chosen.value)
    else e == Fail(s.conv, ProviderFailed)
  }

  lemma FailureCases(cfg: Config, s: State, t: Turn)
    requires t.outcome.Failed?
    ensures var e, next := OnFailure(cfg, s, t), Fallback(cfg, s, Asked(s, t), t.outcome, t.known);
            if Again(t, s.sendFailures + 1) then
              e == if t.outcome.cancelledWaiting then Fail(s.conv, Interrupted)
                   else Continue(s.(sendFailures := s.sendFailures + 1))
            else
              e == if next.Some? then Continue(s.(sendFailures := 0, chosen := next, tried := s.tried + {Asked(s, t)}))
                   else Fail(s.conv, ProviderFailed)
  {
    hide Fallback;
  }

  lemma FailureIs(cfg: Config, s: State, turns: seq<Turn>, n: nat)
    requires n < |turns| && FailsToSend(turns[n]) && s.sendFailures == Failures(turns, n)
    ensures var e := OnFailure(cfg, s.(budgetCompacted := false), turns[n]);
            FailureLaw(cfg, s, turns, n, e) &&
            (e.Continue? ==>
               SameButSent(s, e.state, if Again(turns[n], Failures(turns, n) + 1) then Failures(turns, n) + 1 else 0))
  {
    FailureCases(cfg, s.(budgetCompacted := false), turns[n]);
    FallbackIs(cfg, s, turns[n]);
    hide Failures, MaySwitch, Fallback, OnFailure, Again;
  }

  /** The states differ in what concerns the models asked, and in how often one failed. */
  predicate SameButSent(s: State, s': State, failures: nat) {
    s' == s.(budgetCompacted := false, sendFailures := failures, chosen := s'.chosen, tried := s'.tried)
  }

  lemma FailureRemembers(cfg: Config, s: State, turns: seq<Turn>, n: nat)
    requires n < |turns| && Remembers(cfg, s, turns, n) && FailsToSend(turns[n])
    ensures var e := OnFailure(cfg, s.(budgetCompacted := false), turns[n]);
            FailureLaw(cfg, s, turns, n, e) && (e.Continue? ==> Remembers(cfg, e.state, turns, n + 1))
  {
    NoReply(cfg, turns, n);
    FailedTurn(turns, n);
    FailureIs(cfg, s, turns, n);
    hide Pieces, EverLost, Empties, EverTools, EverAnnounced, Failures, ReplyCount, Overflowed, Resent, Smallest, FailureLaw,
      OnFailure;
  }

  /** What a reply ends. */
  lemma ReplyTurn(cfg: Config, turns: seq<Turn>, n: nat)
    requires n < |turns| && GetsReply(turns[n])
    ensures ReplyCount(turns, n + 1) == ReplyCount(turns, n) + 1 && Failures(turns, n + 1) == 0
    ensures !Overflowed(turns, n + 1) && !Resent(turns, n + 1) && Smallest(turns, n + 1) == Smallest(turns, n)
    ensures EverTools(turns, n + 1) <==> EverTools(turns, n) || CallsTools(turns[n])
    ensures EverLost(cfg, turns, n + 1) <==> EverLost(cfg, turns, n) || IsLost(cfg, turns, n)
    ensures EverAnnounced(cfg, turns, n + 1) <==> EverAnnounced(cfg, turns, n) || IsAnnounced(cfg, turns, n)
    ensures Pieces(cfg, turns, n + 1) ==
            if CallsTools(turns[n]) then 0 else Pieces(cfg, turns, n) + if IsPiece(cfg, turns, n) then 1 else 0
    ensures Empties(cfg, turns, n + 1) == if IsLost(cfg, turns, n) then Empties(cfg, turns, n)
                                          else if IsEmpty(cfg, turns, n) then Empties(cfg, turns, n) + 1 else 0
  {
    ToolsSoFar(turns, n);
    hide IsLost, IsAnnounced, IsPiece, IsEmpty, CallsTools;
  }

  /** The state a reply is looked at in. */
  function OnAnswer(s: State): State { Answered(s.(budgetCompacted := false)) }

  lemma CapIs(cfg: Config, s: State, turns: seq<Turn>, n: nat)
    requires n < |turns| && Remembers(cfg, s, turns, n)
    ensures AtCap(cfg, OnAnswer(s).steps) == Capped(cfg, turns, n)
  {
  }

  /** A lost call is asked for again, behind what was said. */
  ghost predicate LostLaw(s: State, turns: seq<Turn>, n: nat, e: Next)
    requires n < |turns| && GetsReply(turns[n])
  {
    var main := turns[n].outcome.reply.main;
    e.Continue? && e.state.conv == s.conv + (if main == "" then [] else [Replies(main)]) + [Says(DROPPED_CALL_NUDGE)]
  }

  lemma LostRemembers(cfg: Config, s: State, turns: seq<Turn>, n: nat)
    requires n < |turns| && Remembers(cfg, s, turns, n) && IsLost(cfg, turns, n)
    ensures var e := OnDroppedCall(OnAnswer(s), turns[n].outcome.reply);
            LostLaw(s, turns, n, e) && e.Continue? && Remembers(cfg, e.state, turns, n + 1)
  {
    ReplyTurn(cfg, turns, n);
    assert !IsAnnounced(cfg, turns, n) && !IsPiece(cfg, turns, n) && !CallsTools(turns[n]);
    hide Pieces, EverLost, Empties, EverTools, EverAnnounced, Failures, ReplyCount, Overflowed, Resent, Smallest, IsLost,
      IsAnnounced, IsPiece;
  }

  /** After an empty reply: the run fails when it was filtered, ends when there is something
      to show or no step is left, gives up on the third in a row, and else asks again. */
  ghost predicate EmptyLaw(cfg: Config, s: State, turns: seq<Turn>, n: nat, e: Next)
    requires n < |turns| && IsEmpty(cfg, turns, n)
  {
    var stop := turns[n].outcome.reply.stop;
    if stop.ContentFilter? then e == Fail(s.conv, Filtered)
    else if Pieces(cfg, turns, n) > 0 then e == Finish(WithoutContinueNudge(s.conv), TrimSpace(Concat(s.pieces)), false)
    else if Capped(cfg, turns, n) then e == Finish(s.conv, "", false)
    else if Empties(cfg, turns, n) >= 2 then e.Fail? && e.error == GaveUpOnEmpty
    else e.Continue? && e.state.conv == s.conv + [Says(if stop.Length? then EMPTY_TRUNCATED_NUDGE else EMPTY_NUDGE)]
  }

  lemma EmptyRemembers(cfg: Config, s: State, turns: seq<Turn>, n: nat)
    requires n < |turns| && Remembers(cfg, s, turns, n) && IsEmpty(cfg, turns, n)
    ensures var e := OnEmpty(cfg, OnAnswer(s), turns[n].outcome.reply);
            EmptyLaw(cfg, s, turns, n, e) && (e.Continue? ==> Remembers(cfg, e.state, turns, n + 1))
  {
    ReplyTurn(cfg, turns, n);
    CapIs(cfg, s, turns, n);
    assert !IsAnnounced(cfg, turns, n) && !IsPiece(cfg, turns, n) && !CallsTools(turns[n]) && !IsLost(cfg, turns, n);
    hide Pieces, EverLost, Empties, EverTools, EverAnnounced, Failures, ReplyCount, Overflowed, Resent, Smallest, IsLost,
      IsAnnounced, IsPiece, Capped, AtCap, TrimSpace, Concat, DropNudges;
  }

  /** A cut text is continued; after another the run reads first what is required, or asks
      for announced work; else the text is the answer, with the pieces before it. */
  ghost predicate TextLaw(cfg: Config, s: State, turns: seq<Turn>, n: nat, e: Next)
    requires n < |turns| && OnlySays(turns[n])
  {
    var r := turns[n].outcome.reply;
    var said := s.conv + [Replies(r.main)];
    if IsPiece(cfg, turns, n) then e.Continue? && e.state.conv == said + [Says(CONTINUE_NUDGE)]
    else if r.pending.Some? then e.Continue? && e.state.conv == said + [Says(RequiredReadText(r.pending.value))]
    else if IsAnnounced(cfg, turns, n) then e.Continue? && e.state.conv == said + [Says(ANNOUNCE_NUDGE)]
    else e == Finish(said, if Pieces(cfg, turns, n) == 0 then r.main else TrimSpace(Concat(s.pieces + [r.piece])), false)
  }

  lemma TextRemembers(cfg: Config, s: State, turns: seq<Turn>, n: nat)
    requires n < |turns| && Remembers(cfg, s, turns, n) && OnlySays(turns[n])
    requires turns[n].outcome.reply.main != "" && !IsLost(cfg, turns, n)
    ensures var t := turns[n];
            var e := OnText(cfg, OnAnswer(s).(emptyReplies := 0), t.outcome.reply, t.tools);
            TextLaw(cfg, s, turns, n, e) && (e.Continue? ==> Remembers(cfg, e.state, turns, n + 1))
  {
    ReplyTurn(cfg, turns, n);
    CapIs(cfg, s, turns, n);
    assert !IsEmpty(cfg, turns, n) && !CallsTools(turns[n]);
    assert IsText(cfg, turns, n) <==> !IsPiece(cfg, turns, n);
    PairSaid(s.conv, turns[n].outcome.reply.main);
    hide Pieces, EverLost, Empties, EverTools, EverAnnounced, Failures, ReplyCount, Overflowed, Resent, Smallest, IsLost,
      IsEmpty, IsText, Capped, AtCap, TrimSpace, Concat, TrimCutset;
  }

  lemma PairSaid(conv: Conversation, main: string)
    ensures forall asked :: conv + [Replies(main), Says(asked)] == conv + [Replies(main)] + [Says(asked)]
  {
  }

  lemma ToolsRemember(cfg: Config, s: State, turns: seq<Turn>, n: nat)
    requires n < |turns| && Remembers(cfg, s, turns, n) && CallsTools(turns[n]) && Possible(turns[n])
    ensures var e := OnTools(cfg, OnAnswer(s).(emptyReplies := 0), turns[n].outcome.reply);
            e.Continue? ==> Remembers(cfg, e.state, turns, n + 1)
  {
    ReplyTurn(cfg, turns, n);
    assert !IsEmpty(cfg, turns, n) && !IsLost(cfg, turns, n) && !IsAnnounced(cfg, turns, n);
    hide Pieces, EverLost, Empties, EverTools, EverAnnounced, Failures, ReplyCount, Overflowed, Resent, Smallest, IsLost,
      IsEmpty, IsAnnounced, IsPiece, AtCap, Closed, Results;
  }

  // ---------------------------------------------------------------------
  // Every turn of every run

  predicate JustCompacted(turns: seq<Turn>, n: nat)
    requires n < |turns|
  {
    n > 0 && turns[n - 1].overBudget
  }

  /** What becomes of the `n`-th turn, said of the turns before it; `s` is the state with
      the conversation that the turn's request is built from, `e` what comes of it. */
  ghost predicate TurnLaw(cfg: Config, s: State, turns: seq<Turn>, n: nat, e: Next)
    requires n < |turns|
  {
    var t := turns[n];
    if t.overBudget then
      if t.forced.Some? && !JustCompacted(turns, n) then e.Continue? && e.state.conv == t.forced.value
      else e == Fail(s.conv, OverBudget)
    else
      match t.outcome
      case Cancelled => e == Fail(s.conv, Interrupted)
      case Overflow(_, _) => OverflowLaw(s, turns, n, e)
      case Failed(_, _, _, _, _) => FailureLaw(cfg, s, turns, n, e)
      case Replied(r) =>
        if r.calls != [] then !e.Fail?
        else if IsLost(cfg, turns, n) then LostLaw(s, turns, n, e)
        else if r.main == "" then EmptyLaw(cfg, s, turns, n, e)
        else TextLaw(cfg, s, turns, n, e)
  }

  lemma {:induction false} SendLaw(cfg: Config, s: State, turns: seq<Turn>, n: nat)
    requires n < |turns| && Possible(turns[n]) && Remembers(cfg, s, turns, n) && !turns[n].overBudget
    ensures var e := Send(cfg, s.(budgetCompacted := false), turns[n]);
            TurnLaw(cfg, s, turns, n, e) && (e.Continue? ==> Remembers(cfg, e.state, turns, n + 1))
  {
    hide Remembers, OnOverflow, OnFailure, OnDroppedCall, OnEmpty, OnTools, OnText, OverflowLaw, FailureLaw, LostLaw, TextLaw,
      AtCap, Capped, Pieces, EverLost, Valid;
    match turns[n].outcome
    case Cancelled =>
    case Overflow(_, _) => OverflowRemembers(cfg, s, turns, n);
    case Failed(_, _, _, _, _) => FailureRemembers(cfg, s, turns, n);
    case Replied(r) =>
      LostIff(cfg, s, turns, n);
      if r.calls != [] {
        ToolsRemember(cfg, s, turns, n);
        ToolsNeverFail(cfg, OnAnswer(s).(emptyReplies := 0), r);
      } else if IsLost(cfg, turns, n) {
        LostRemembers(cfg, s, turns, n);
      } else if r.main == "" {
        EmptyRemembers(cfg, s, turns, n);
      } else {
        TextRemembers(cfg, s, turns, n);
      }
  }

  lemma ToolsNeverFail(cfg: Config, s: State, r: Reply)
    requires r.calls != [] && |r.outputs| == |r.calls|
    ensures !OnTools(cfg, s, r).Fail?
  {
    hide Results, Closed, AtCap;
  }

  lemma LostIff(cfg: Config, s: State, turns: seq<Turn>, n: nat)
    requires n < |turns| && Remembers(cfg, s, turns, n) && GetsReply(turns[n])
    ensures var t, r, s1 := turns[n], turns[n].outcome.reply, OnAnswer(s);
            IsLost(cfg, turns, n) <==>
            r.calls == [] && r.stop.ForToolCalls? && !s1.droppedNudged && t.tools && s1.pieces == [] && !AtCap(cfg, s1.steps)
  {
    hide Pieces, EverLost, Empties, EverTools, EverAnnounced, Failures, ReplyCount, Overflowed, Resent, Smallest;
  }

  lemma BudgetTurn(turns: seq<Turn>, n: nat)
    requires n < |turns| && turns[n].overBudget
    ensures Overflowed(turns, n + 1) == Overflowed(turns, n) && Resent(turns, n + 1) == Resent(turns, n)
    ensures Smallest(turns, n + 1) == Smallest(turns, n) && Failures(turns, n + 1) == Failures(turns, n)
  {
  }

  lemma BudgetRemembers(cfg: Config, s: State, turns: seq<Turn>, n: nat, conv: Conversation)
    requires n < |turns| && Remembers(cfg, s, turns, n) && turns[n].overBudget
    ensures Remembers(cfg, s.(conv := conv, budgetCompacted := true), turns, n + 1)
  {
    NoReply(cfg, turns, n);
    BudgetTurn(turns, n);
    hide Pieces, EverLost, Empties, EverTools, EverAnnounced, Failures, ReplyCount, Overflowed, Resent, Smallest;
  }

  lemma RemembersOpened(cfg: Config, s: State, turns: seq<Turn>, n: nat)
    requires n < |turns| && Remembers(cfg, s, turns, n)
    ensures Remembers(cfg, Opened(s, turns[n]), turns, n)
    ensures Opened(s, turns[n]).budgetCompacted <==> JustCompacted(turns, n)
  {
    hide Pieces, EverLost, Empties, EverTools, EverAnnounced, Failures, ReplyCount, Overflowed, Resent, Smallest, Steer;
  }

  lemma StepLaw(cfg: Config, s: State, turns: seq<Turn>, n: nat)
    requires n < |turns| && Possible(turns[n]) && Remembers(cfg, s, turns, n)
    ensures var e := Step(cfg, s, turns[n]);
            TurnLaw(cfg, Opened(s, turns[n]), turns, n, e) && (e.Continue? ==> Remembers(cfg, e.state, turns, n + 1))
  {
    RemembersOpened(cfg, s, turns, n);
    var s1, t := Opened(s, turns[n]), turns[n];
    hide Remembers, Opened, Send;
    if t.overBudget {
      if t.forced.Some? { BudgetRemembers(cfg, s1, turns, n, t.forced.value); }
    } else {
      SendLaw(cfg, s1, turns, n);
    }
  }

  /** The run's first `n` turns went on, from its start. */
  ghost predicate Reached(cfg: Config, trace: seq<State>, turns: seq<Turn>, n: nat) {
    && n <= |turns| && n < |trace| && trace[0] == Initial(trace[0].conv)
    && forall i :: 0 <= i < n ==> GoesOn(cfg, trace[i], turns[i], trace[i + 1])
  }

  lemma InitialRemembers(cfg: Config, conv: Conversation, turns: seq<Turn>)
    ensures Remembers(cfg, Initial(conv), turns, 0)
  {
  }

  lemma {:induction false} RunRemembers(cfg: Config, trace: seq<State>, turns: seq<Turn>, n: nat)
    requires Reached(cfg, trace, turns, n)
    ensures Remembers(cfg, trace[n], turns, n)
  {
    if n == 0 {
      InitialRemembers(cfg, trace[0].conv, turns);
    } else {
      RunRemembers(cfg, trace, turns, n - 1);
      assert GoesOn(cfg, trace[n - 1], turns[n - 1], trace[n]);
      hide Remembers, Step;
      StepLaw(cfg, trace[n - 1], turns, n - 1);
    }
  }

  /** In every run, whatever the turns before were, the next one goes on, ends or fails as
      they say. */
  lemma EveryTurn(cfg: Config, trace: seq<State>, turns: seq<Turn>, n: nat)
    requires Reached(cfg, trace, turns, n) && n < |turns| && Possible(turns[n])
    ensures TurnLaw(cfg, Opened(trace[n], turns[n]), turns, n, Step(cfg, trace[n], turns[n]))
  {
    RunRemembers(cfg, trace, turns, n);
    hide Remembers, Step, TurnLaw;
    StepLaw(cfg, trace[n], turns, n);
  }

  /** The first `n` turns of a run each went on as the turns before them say. */
  ghost predicate AsTurnsSay(cfg: Config, trace: seq<State>, turns: seq<Turn>, n: nat)
    requires n <= |turns| && n < |trace|
  {
    forall i :: 0 <= i < n ==> TurnLaw(cfg, Opened(trace[i], turns[i]), turns, i, Continue(trace[i + 1]))
  }

  lemma RunAsTurnsSay(cfg: Config, trace: seq<State>, turns: seq<Turn>, n: nat)
    requires Reached(cfg, trace, turns, n)
    ensures AsTurnsSay(cfg, trace, turns, n)
  {
    hide Step, TurnLaw, Opened, Possible;
    forall i | 0 <= i < n ensures TurnLaw(cfg, Opened(trace[i], turns[i]), turns, i, Continue(trace[i + 1])) {
      assert GoesOn(cfg, trace[i], turns[i], trace[i + 1]);
      EveryTurn(cfg, trace, turns, i);
    }
  }
}
