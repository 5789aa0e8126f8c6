/** The parallel search as a whole: it answers as the sequential search, its
    channels never block, it never deadlocks and every interleaving ends. */
module GrepTheorems {
  import opened Wrappers
  import opened GrepCollect
  import opened GrepProtocol
  import opened GrepRefinement

  // ---------------------------------------------------------------------
  // Bounded look-ahead, no blocked send, no deadlock

  lemma {:induction false} ReachedInv(g: Search, trace: seq<State>, i: nat)
    requires g.Valid() && Execution(g, trace) && i < |trace|
    ensures Inv(g, trace[i])
  {
    hide Inv, Enabled, Next, Init;
    if i == 0 {
      InitInv(g);
    } else {
      ReachedInv(g, trace, i - 1);
      assert StepTo(g, trace[i - 1], trace[i]);
      var a :| Enabled(g, trace[i - 1], a) && trace[i] == Next(g, trace[i - 1], a);
      KeepInv(g, trace[i - 1], a);
    }
  }

  /** In every reachable state: the files handed out and not committed fit the
      window, the window is at most its maximum, and a goroutine about to send
      finds room in the channel. */
  lemma LookAheadBounded(g: Search, trace: seq<State>, i: nat)
    requires g.Valid() && Execution(g, trace) && i < |trace|
    ensures var s := trace[i];
            && 0 <= s.handed - s.ahead.committed <= s.ahead.window <= g.Capacity()
            && (s.walk.Sending? ==> |s.jobs| < g.Capacity())
            && (forall w :: 0 <= w < |s.workers| && s.workers[w].Delivering? ==> |s.dones| < g.Capacity())
  {
    hide Refines, Honest, Execution;
    ReachedInv(g, trace, i);
    var s := trace[i];
    SendsHaveRoom(g, s);
  }

  lemma SendsHaveRoom(g: Search, s: State)
    requires Inv(g, s)
    ensures s.walk.Sending? ==> |s.jobs| < g.Capacity()
    ensures forall w :: 0 <= w < |s.workers| && s.workers[w].Delivering? ==> |s.dones| < g.Capacity()
  {
    hide Refines, Honest, WorkerNums;
    forall w | 0 <= w < |s.workers| && s.workers[w].Delivering? ensures |s.dones| < g.Capacity() {
      WorkerFreed(s.workers, w);
      assert |WorkerNums(s.workers)| >= 1;
    }
  }

  /** In every reachable state the window is as wide as the commits so far allow. */
  lemma {:induction false} WindowFollowsCommits(g: Search, trace: seq<State>, i: nat)
    requires g.Valid() && Execution(g, trace) && i < |trace|
    ensures trace[i].ahead.max == g.Capacity()
    ensures trace[i].ahead.window == Width(g.workers, g.Capacity(), trace[i].ahead.committed)
  {
    if i > 0 {
      WindowFollowsCommits(g, trace, i - 1);
      assert StepTo(g, trace[i - 1], trace[i]);
    }
  }

  /** The next file to commit is with a worker, delivered or pending. */
  ghost predicate Underway(s: State) {
    var next := s.ahead.committed;
    next in WorkerNums(s.workers) || next in DoneNums(s.dones) || next in s.pending
  }

  /** It heads the job channel. */
  predicate Queued(s: State) { s.jobs != [] && s.jobs[0].num == s.ahead.committed }

  /** While the search is not cut and the walk has to wait, the next file to commit is
      under way if and only if it does not head the job channel; when it does, every
      worker is idle, so one is about to take it. */
  lemma WalkWaitsForNext(g: Search, s: State)
    requires Inv(g, s) && !s.stopped && s.walk.AtWait? && !s.ahead.Admits(s.handed)
    ensures Underway(s) <==> !Queued(s)
    ensures Queued(s) ==> forall w :: 0 <= w < |s.workers| ==> s.workers[w].Idle?
  {
    hide Refines;
    var next := s.ahead.committed;
    var all := WorkerNums(s.workers) + DoneNums(s.dones) + multiset(s.pending.Keys);
    assert multiset(s.pending.Keys)[next] == if next in s.pending then 1 else 0;
    if s.jobs != [] { TakeNumber(g, s); }
    if next < TakenOff(s) {
      assert all[next] == 1;
    } else {
      assert all[next] == 0 && |WorkerNums(s.workers)| == 0;
      forall w | 0 <= w < |s.workers| ensures s.workers[w].Idle? { EmptyHanded(s.workers, w); }
    }
  }

  lemma {:induction false} EmptyHanded(ws: seq<Worker>, w: nat)
    requires |WorkerNums(ws)| == 0 && w < |ws|
    ensures Carries(ws[w]) == multiset{}
  {
    if w > 0 { EmptyHanded(ws[1..], w - 1); }
  }

  /** The queued case does arise: two workers not yet scheduled, and the walk waits for a
      file that is still in the job channel. */
  lemma NextMayStillBeQueued() returns (g: Search, trace: seq<State>)
    ensures g.Valid() && Execution(g, trace)
    ensures var s := trace[|trace| - 1];
            !s.stopped && s.walk.AtWait? && !s.ahead.Admits(s.handed) && s.handed < |g.files| && Queued(s) && !Underway(s)
  {
    g := Search(Query(true, 0, 1), [Skipped, Skipped, Skipped], 2);
    trace := [Init(g)];
    trace := HandOne(g, trace);
    trace := HandOne(g, trace);
    NoneHeld(trace[|trace| - 1].workers);
  }

  /** The walk hands out one more file. */
  lemma HandOne(g: Search, trace: seq<State>) returns (longer: seq<State>)
    requires Execution(g, trace)
    requires var s := trace[|trace| - 1];
             s.walk.AtWait? && s.handed < |g.files| && !s.ahead.closed && s.ahead.Admits(s.handed) && |s.jobs| < g.Capacity()
    ensures Execution(g, longer)
    ensures var s := trace[|trace| - 1];
            longer[|longer| - 1] ==
            s.(walk := AtWait, handed := s.handed + 1, jobs := s.jobs + [Job(s.handed, g.q.max - s.total)])
  {
    var s0 := trace[|trace| - 1];
    var s1 := Next(g, s0, WalkAdmit);
    var s2 := Next(g, s1, WalkLoad);
    var s3 := Next(g, s2, WalkSend);
    assert StepTo(g, s0, s1) && StepTo(g, s1, s2) && StepTo(g, s2, s3);
    longer := trace + [s1, s2, s3];
    var n := |trace|;
    forall i | 0 < i < |longer| ensures StepTo(g, longer[i - 1], longer[i]) {
      assert i < n || i == n || i == n + 1 || i == n + 2;
      if i < n { assert StepTo(g, trace[i - 1], trace[i]); }
    }
  }

  /** No reachable state is stuck before the consumer has finished. */
  lemma NeverStuck(g: Search, s: State) returns (a: Action)
    requires Inv(g, s) && !s.consumer.Finished?
    ensures Enabled(g, s, a)
  {
    hide Inv;
    match s.consumer
    case Committing => a := Commit;
    case Accounting(_) => a := Account;
    case Checking => a := Check;
    case Receiving =>
      if s.dones != [] {
        a := Receive;
      } else if w :| 0 <= w < |s.workers| && !s.workers[w].Idle? && !s.workers[w].Exited? {
        a := WorkerMoves(g, s, w);
      } else if w :| 0 <= w < |s.workers| && s.workers[w].Idle? && s.jobs != [] {
        a := Take(w);
      } else {
        a := QuietMoves(g, s);
      }
  }

  lemma WorkerMoves(g: Search, s: State, w: nat) returns (a: Action)
    requires Inv(g, s) && w < |s.workers| && !s.workers[w].Idle? && !s.workers[w].Exited? && s.dones == []
    ensures Enabled(g, s, a)
  {
    hide Refines, Located;
    assert WorkerFits(g, s, s.workers[w]);
    match s.workers[w]
    case Taken(_) => a := Begin(w);
    case Searching(_) => a := Finish(w, false);
    case Delivering(_) => a := Deliver(w);
  }

  /** No worker has work and nothing is delivered: the walk or the end can move. */
  lemma QuietMoves(g: Search, s: State) returns (a: Action)
    requires Inv(g, s) && s.consumer.Receiving? && s.dones == []
    requires forall w :: 0 <= w < |s.workers| ==> s.workers[w].Exited? || (s.workers[w].Idle? && s.jobs == [])
    ensures Enabled(g, s, a)
  {
    hide Refines, Honest, Located;
    if s.cancelled && !s.ahead.closed { return CloseAhead; }
    if s.walk.Admitted? { return WalkLoad; }
    if s.walk.Sending? { SendsHaveRoom(g, s); return WalkSend; }
    assert s.jobs == [] by { assert s.workers[0].Exited? ==> s.jobs == []; }
    if s.walk.WalkDone? {
      if w :| 0 <= w < |s.workers| && s.workers[w].Idle? { return Exit(w); }
      return End;
    }
    if s.ahead.closed { return WalkAbort; }
    if s.handed >= |g.files| { return WalkEnd; }
    QuietWalkAdmits(g, s);
    return WalkAdmit;
  }

  lemma QuietWalkAdmits(g: Search, s: State)
    requires Inv(g, s) && s.consumer.Receiving? && s.dones == [] && s.jobs == [] && s.walk.AtWait? && !s.stopped
    requires forall w :: 0 <= w < |s.workers| ==> s.workers[w].Exited? || s.workers[w].Idle?
    ensures s.ahead.Admits(s.handed)
  {
    hide Refines, Honest;
    NoneHeld(s.workers);
    if !s.ahead.Admits(s.handed) {
      WalkWaitsForNext(g, s);
      assert false;
    }
  }

  // ---------------------------------------------------------------------
  // Every interleaving ends

  function WorkerCost(w: Worker): nat {
    match w
    case Taken(_) => 14
    case Searching(_) => 13
    case Delivering(_) => 12
    case Idle => 1
    case Exited => 0
  }

  function WorkersCost(ws: seq<Worker>): nat {
    if ws == [] then 0 else WorkerCost(ws[0]) + WorkersCost(ws[1..])
  }

  lemma {:induction false} WorkersCostChange(ws: seq<Worker>, i: nat, w: Worker)
    requires i < |ws|
    ensures WorkersCost(ws[i := w]) == WorkersCost(ws) - WorkerCost(ws[i]) + WorkerCost(w)
  {
    if i > 0 {
      WorkersCostChange(ws[1..], i - 1, w);
      assert ws[i := w][1..] == ws[1..][i - 1 := w];
    } else {
      assert ws[i := w][1..] == ws[1..];
    }
  }

  function WalkCost(w: Walk): nat {
    match w case AtWait => 3 case Admitted => 2 case Sending(_) => 1 case WalkDone => 0
  }

  function ConsumerCost(c: Consumer): nat {
    match c case Accounting(_) => 4 case Checking => 3 case Committing => 2 case Receiving => 1 case Finished => 0
  }

  /** The work a state still has ahead of it. */
  function Remaining(g: Search, s: State): int {
    20 * (|g.files| - s.handed) + WalkCost(s.walk) + 15 * |s.jobs| + WorkersCost(s.workers) +
    10 * |s.dones| + 6 * |s.pending| + ConsumerCost(s.consumer) + (if s.ahead.closed then 0 else 1)
  }

  lemma StepDecreases(g: Search, s: State, a: Action)
    requires Inv(g, s) && Enabled(g, s, a)
    ensures Remaining(g, Next(g, s, a)) < Remaining(g, s)
  {
    hide Refines, Honest, WorkersCost, Located, Over, SearchOne;
    match a
    case Take(w) => WorkersCostChange(s.workers, w, Taken(s.jobs[0]));
    case Begin(w) => WorkerDecreases(g, s, w, Begun(s, s.workers[w].job));
    case Finish(w, interrupted) => WorkerDecreases(g, s, w, Delivering(Answered(g, s.workers[w].job, interrupted)));
    case Deliver(w) => WorkersCostChange(s.workers, w, Idle);
    case Exit(w) => WorkerDecreases(g, s, w, Exited);
    case Receive => ReceiveDecreases(g, s);
    case Commit => CommitDecreases(g, s);
    case _ =>
  }

  lemma WorkerDecreases(g: Search, s: State, w: nat, worker: Worker)
    requires w < |s.workers| && WorkerCost(worker) < WorkerCost(s.workers[w])
    ensures Remaining(g, s.(workers := s.workers[w := worker])) < Remaining(g, s)
  {
    WorkersCostChange(s.workers, w, worker);
  }

  lemma ReceiveDecreases(g: Search, s: State)
    requires s.dones != [] && s.consumer.Receiving?
    ensures Remaining(g, Received(s)) < Remaining(g, s)
  {
    PendingGrows(s);
  }

  lemma CommitDecreases(g: Search, s: State)
    requires s.consumer.Committing?
    ensures Remaining(g, Committed(s)) < Remaining(g, s)
  {
    PendingShrinks(s);
  }

  lemma PendingGrows(s: State)
    requires s.dones != []
    ensures |Received(s).pending| <= |s.pending| + 1
  {
    var d := s.dones[0];
    if !s.stopped {
      assert s.pending[d.num := d].Keys == s.pending.Keys + {d.num};
      assert |s.pending.Keys + {d.num}| <= |s.pending.Keys| + 1;
    }
  }

  lemma PendingShrinks(s: State)
    ensures s.ahead.committed in s.pending ==> |Committed(s).pending| == |s.pending| - 1
  {
    var n := s.ahead.committed;
    if n in s.pending { assert (s.pending - {n}).Keys == s.pending.Keys - {n}; }
  }

  /** An interleaving has at most as many steps as the work at the start. */
  lemma {:induction false} ExecutionsEnd(g: Search, trace: seq<State>)
    requires g.Valid() && Execution(g, trace)
    ensures |trace| - 1 <= Remaining(g, Init(g)) - Remaining(g, trace[|trace| - 1])
    ensures Remaining(g, trace[|trace| - 1]) >= 0
    ensures |trace| <= Remaining(g, Init(g)) + 1
  {
    hide Inv, Enabled, Next, Init, Remaining;
    var n := |trace| - 1;
    ReachedInv(g, trace, n);
    RemainingNat(g, trace[n]);
    if n > 0 {
      assert StepTo(g, trace[n - 1], trace[n]);
      var a :| Enabled(g, trace[n - 1], a) && trace[n] == Next(g, trace[n - 1], a);
      ReachedInv(g, trace, n - 1);
      StepDecreases(g, trace[n - 1], a);
      ExecutionsEnd(g, trace[..n]);
    }
  }

  lemma RemainingNat(g: Search, s: State)
    requires Inv(g, s)
    ensures Remaining(g, s) >= 0
  {
  }

  /** Whatever has happened so far, the search runs on to its end. */
  lemma RunsToTheEnd(g: Search, trace: seq<State>) returns (full: seq<State>)
    requires g.Valid() && Execution(g, trace)
    ensures Execution(g, full) && trace <= full && full[|full| - 1].consumer.Finished?
    decreases Remaining(g, trace[|trace| - 1]) + 1
  {
    hide Inv, Enabled, Next, Init, Remaining;
    var s := trace[|trace| - 1];
    ReachedInv(g, trace, |trace| - 1);
    if s.consumer.Finished? {
      full := trace;
    } else {
      var a := NeverStuck(g, s);
      var s' := Next(g, s, a);
      assert StepTo(g, s, s');
      StepDecreases(g, s, a);
      KeepInv(g, s, a);
      RemainingNat(g, s');
      var longer := trace + [s'];
      assert forall i :: 0 < i < |longer| ==> StepTo(g, longer[i - 1], longer[i]);
      full := RunsToTheEnd(g, longer);
    }
  }
}
