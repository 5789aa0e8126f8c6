/** Every interleaving of the parallel search answers as the one-file-at-a-time
    search does, never blocks and always ends. */
module GrepRefinement {
  import opened Wrappers
  import opened GrepCollect
  import opened GrepProtocol

  // ---------------------------------------------------------------------
  // Where the handed-out files are

  /** Files taken off the job channel. */
  function TakenOff(s: State): int { s.handed - |s.jobs| }

  function Carries(w: Worker): multiset<nat> {
    match w
    case Taken(j) => multiset{j.num}
    case Searching(j) => multiset{j.num}
    case Delivering(d) => multiset{d.num}
    case _ => multiset{}
  }

  function WorkerNums(ws: seq<Worker>): multiset<nat> {
    if ws == [] then multiset{} else Carries(ws[0]) + WorkerNums(ws[1..])
  }

  function DoneNums(ds: seq<Delivery>): (m: multiset<nat>)
    ensures |m| == |ds|
  {
    if ds == [] then multiset{} else multiset{ds[0].num} + DoneNums(ds[1..])
  }

  /** The numbers in [a, b), each once. */
  function Between(a: nat, b: int): (m: multiset<nat>)
    ensures forall n: nat :: m[n] == if a <= n < b then 1 else 0
    ensures |m| == if a < b then b - a else 0
    decreases b - a
  {
    if a < b then Between(a, b - 1) + multiset{b - 1} else multiset{}
  }

  lemma {:induction false} WorkerChange(ws: seq<Worker>, i: nat, w: Worker)
    requires i < |ws|
    ensures WorkerNums(ws[i := w]) + Carries(ws[i]) == WorkerNums(ws) + Carries(w)
  {
    hide Carries;
    if i > 0 {
      WorkerChange(ws[1..], i - 1, w);
      assert ws[i := w][1..] == ws[1..][i - 1 := w];
      Swap(Carries(ws[0]), WorkerNums(ws[1..][i - 1 := w]), Carries(ws[i]), WorkerNums(ws[1..]), Carries(w));
    } else {
      assert ws[i := w][1..] == ws[1..];
    }
  }

  lemma Swap(h: multiset<nat>, a: multiset<nat>, x: multiset<nat>, b: multiset<nat>, y: multiset<nat>)
    requires a + x == b + y
    ensures (h + a) + x == (h + b) + y
  {
    assert (h + a) + x == h + (a + x);
    assert (h + b) + y == h + (b + y);
  }

  lemma Cancel(a: multiset<nat>, b: multiset<nat>, c: multiset<nat>)
    requires a + c == b + c
    ensures a == b
  {
    forall k ensures a[k] == b[k] { assert (a + c)[k] == (b + c)[k]; }
  }

  lemma WorkerKept(ws: seq<Worker>, i: nat, w: Worker)
    requires i < |ws| && Carries(w) == Carries(ws[i])
    ensures WorkerNums(ws[i := w]) == WorkerNums(ws)
  {
    hide WorkerNums, Carries;
    WorkerChange(ws, i, w);
    Cancel(WorkerNums(ws[i := w]), WorkerNums(ws), Carries(w));
  }

  lemma WorkerTook(ws: seq<Worker>, i: nat, job: Job)
    requires i < |ws| && ws[i].Idle?
    ensures WorkerNums(ws[i := Taken(job)]) == WorkerNums(ws) + multiset{job.num}
  {
    hide WorkerNums;
    WorkerChange(ws, i, Taken(job));
  }

  lemma WorkerFreed(ws: seq<Worker>, i: nat)
    requires i < |ws| && ws[i].Delivering?
    ensures WorkerNums(ws) == WorkerNums(ws[i := Idle]) + multiset{ws[i].d.num}
  {
    hide WorkerNums;
    WorkerChange(ws, i, Idle);
  }

  lemma {:induction false} DoneAppend(ds: seq<Delivery>, d: Delivery)
    ensures DoneNums(ds + [d]) == DoneNums(ds) + multiset{d.num}
  {
    if ds != [] {
      DoneAppend(ds[1..], d);
      assert (ds + [d])[1..] == ds[1..] + [d];
    }
  }

  lemma {:induction false} NoneHeld(ws: seq<Worker>)
    requires forall w :: 0 <= w < |ws| ==> ws[w].Idle? || ws[w].Exited?
    ensures WorkerNums(ws) == multiset{}
  {
    if ws != [] { NoneHeld(ws[1..]); }
  }

  // ---------------------------------------------------------------------
  // The invariant

  predicate Shape(g: Search, s: State) {
    && |s.workers| == g.workers
    && g.workers <= s.ahead.window <= s.ahead.max == g.Capacity()
    && s.ahead.committed <= TakenOff(s) <= s.handed <= |g.files|
    && s.handed - s.ahead.committed <= s.ahead.window
    && (s.walk.Admitted? || s.walk.Sending? ==> s.handed < |g.files| && s.ahead.Admits(s.handed))
    && (s.cancelled <==> s.stopped)
    && (s.ahead.closed ==> s.cancelled)
    && (s.stopped ==> s.consumer.Receiving? || s.consumer.Finished?)
    && ((s.consumer.Receiving? || s.consumer.Finished?) && !s.stopped ==> s.ahead.committed !in s.pending)
    && (s.walk.WalkDone? && !s.stopped ==> s.handed == |g.files|)
    && (forall w :: 0 <= w < |s.workers| && s.workers[w].Exited? ==> s.walk.WalkDone? && s.jobs == [])
    && (s.consumer.Finished? ==> s.dones == [] && AllExited(s))
  }

  /** Until the cut, the files handed out and not committed are each in one place:
      with a worker, delivered, or pending. */
  ghost predicate Accounts(working: multiset<nat>, delivered: multiset<nat>, pending: multiset<nat>,
                           committed: nat, taken: int, stopped: bool) {
    && (!stopped ==> working + delivered + pending == Between(committed, taken))
    && |working| + |delivered| <= taken - committed
  }

  ghost predicate Located(s: State) {
    Accounts(WorkerNums(s.workers), DoneNums(s.dones), multiset(s.pending.Keys), s.ahead.committed, TakenOff(s), s.stopped)
  }

  /** The delivery is a real search under a budget of at least `bound`. */
  ghost predicate Genuine(g: Search, d: Delivery, bound: int) {
    d.num < |g.files| && exists b :: b >= bound && d.answer == Searched(SearchOne(g.q, g.files[d.num], b))
  }

  ghost predicate JobFits(g: Search, s: State, j: Job) {
    j.num < |g.files| && j.num < s.handed && j.budget >= g.q.max - s.total
  }

  ghost predicate DeliveryFits(g: Search, s: State, d: Delivery) {
    d.num < s.handed && (!s.stopped ==> Genuine(g, d, g.q.max - s.total))
  }

  ghost predicate WorkerFits(g: Search, s: State, w: Worker) {
    match w
    case Taken(j) => JobFits(g, s, j)
    case Searching(j) => JobFits(g, s, j)
    case Delivering(d) => DeliveryFits(g, s, d)
    case _ => true
  }

  /** Every budget under way is at least what is still needed, and until the cut
      every answer under way is a real one. */
  ghost predicate Honest(g: Search, s: State) {
    && (s.walk.Sending? ==> s.walk.budget >= g.q.max - s.total)
    && (forall i :: 0 <= i < |s.jobs| ==> s.jobs[i].num == TakenOff(s) + i && JobFits(g, s, s.jobs[i]))
    && (forall w :: 0 <= w < |s.workers| ==> WorkerFits(g, s, s.workers[w]))
    && (forall i :: 0 <= i < |s.dones| ==> DeliveryFits(g, s, s.dones[i]))
    && (forall k :: k in s.pending ==> s.pending[k].num == k && DeliveryFits(g, s, s.pending[k]))
    && (s.consumer.Accounting? ==>
          s.consumer.d.num == s.ahead.committed - 1 && !s.stopped && DeliveryFits(g, s, s.consumer.d))
  }

  /** The longer search of the last file. */
  ghost predicate Extends(a: Reported, b: Reported) {
    a.file == b.file && a.fr.lines <= b.fr.lines && a.fr.count <= b.fr.count
  }

  /** The same files in the same order with the same results, except that in the
      file where the search is cut, the results go on past the cut. */
  ghost predicate Agrees(g: Search, r: Run, results: seq<Reported>) {
    r.results == results ||
    (r.stopped && g.q.content && |results| == |r.results| > 0 &&
     r.results[..|results| - 1] == results[..|results| - 1] &&
     Extends(r.results[|results| - 1], results[|results| - 1]))
  }

  /** The last result is a real search of file `n` after the run `r`. */
  ghost predicate LastFound(g: Search, r: Run, results: seq<Reported>, n: nat) {
    && n < |g.files| && |results| > 0
    && r.results == results[..|results| - 1]
    && results[|results| - 1].file == n
    && exists b :: b >= g.q.max - r.total && SearchOne(g.q, g.files[n], b) == Some(results[|results| - 1].fr)
  }

  ghost predicate Refines(g: Search, s: State)
    requires Shape(g, s)
  {
    var n := s.ahead.committed;
    match s.consumer
    case Checking =>
      n > 0 && (var r := Sequential(g, n - 1);
                !r.stopped && LastFound(g, r, s.results, n - 1) &&
                s.total == r.total + s.results[|s.results| - 1].fr.count)
    case Accounting(_) => n > 0 && Sequential(g, n - 1) == Run(s.results, s.total, false)
    case _ =>
      var r := Sequential(g, n);
      if s.stopped then r.stopped && Agrees(g, r, s.results)
      else r == Run(s.results, s.total, false)
  }

  ghost predicate Inv(g: Search, s: State) {
    g.Valid() && Shape(g, s) && Located(s) && Honest(g, s) && Refines(g, s)
  }

  // ---------------------------------------------------------------------
  // The invariant holds

  lemma InitInv(g: Search)
    requires g.Valid()
    ensures Inv(g, Init(g))
  {
    NoneHeld(Init(g).workers);
  }

  lemma KeepShape(g: Search, s: State, a: Action)
    requires Inv(g, s) && Enabled(g, s, a)
    ensures Shape(g, Next(g, s, a))
  {
    hide Honest, Refines, Sequential, SearchOne, Over, Located;
    if a.Commit? { PendingInRange(s); }
  }

  /** Until the cut, pending files are taken off and not committed. */
  lemma PendingInRange(s: State)
    requires Located(s) && !s.stopped
    ensures forall k :: k in s.pending ==> s.ahead.committed <= k < TakenOff(s)
    ensures forall i :: 0 <= i < |s.dones| ==> s.dones[i].num !in s.pending
  {
    hide WorkerNums;
    var all := WorkerNums(s.workers) + DoneNums(s.dones) + multiset(s.pending.Keys);
    forall k | k in s.pending ensures s.ahead.committed <= k < TakenOff(s) {
      assert multiset(s.pending.Keys)[k] == 1;
      assert k in all;
    }
    forall i | 0 <= i < |s.dones| ensures s.dones[i].num !in s.pending {
      var n := s.dones[i].num;
      InDoneNums(s.dones, i);
      assert multiset(s.pending.Keys)[n] == if n in s.pending then 1 else 0;
      assert all[n] <= 1;
    }
  }

  lemma {:induction false} InDoneNums(ds: seq<Delivery>, i: nat)
    requires i < |ds|
    ensures ds[i].num in DoneNums(ds)
  {
    if i > 0 { InDoneNums(ds[1..], i - 1); }
  }

  lemma KeepLocated(g: Search, s: State, a: Action)
    requires Inv(g, s) && Enabled(g, s, a)
    ensures Located(Next(g, s, a))
  {
    hide Refines, Honest, Located, Shape, Next, Enabled;
    match a
    case Take(w) => LocateTaken(g, s, w);
    case Deliver(w) => LocateDelivered(g, s, w);
    case Receive => LocateReceived(g, s);
    case Commit => LocateCommitted(g, s);
    case Begin(w) => LocateBegun(g, s, w);
    case Finish(w, interrupted) => LocateFinished(g, s, w, interrupted);
    case Exit(w) => LocateExited(g, s, w);
    case _ => LocateSame(g, s, a);
  }

  lemma LocateBegun(g: Search, s: State, w: nat)
    requires Located(s) && Enabled(g, s, Begin(w))
    ensures Located(Next(g, s, Begin(w)))
  {
    hide Located;
    LocateWorker(s, w, Begun(s, s.workers[w].job));
  }

  lemma LocateFinished(g: Search, s: State, w: nat, interrupted: bool)
    requires Located(s) && Enabled(g, s, Finish(w, interrupted))
    ensures Located(Next(g, s, Finish(w, interrupted)))
  {
    hide Located, SearchOne;
    LocateWorker(s, w, Delivering(Answered(g, s.workers[w].job, interrupted)));
  }

  lemma LocateExited(g: Search, s: State, w: nat)
    requires Located(s) && Enabled(g, s, Exit(w))
    ensures Located(Next(g, s, Exit(w)))
  {
    hide Located;
    LocateWorker(s, w, Exited);
  }

  lemma LocateSame(g: Search, s: State, a: Action)
    requires Located(s) && Enabled(g, s, a)
    requires !a.Take? && !a.Deliver? && !a.Receive? && !a.Commit? && !a.Begin? && !a.Finish? && !a.Exit?
    ensures Located(Next(g, s, a))
  {
    hide WorkerNums, DoneNums, Between, Accounts, Over;
    AccountStopped(WorkerNums(s.workers), DoneNums(s.dones), multiset(s.pending.Keys), s.ahead.committed, TakenOff(s),
                   s.stopped);
  }

  lemma LocateWorker(s: State, w: nat, worker: Worker)
    requires Located(s) && w < |s.workers| && Carries(worker) == Carries(s.workers[w])
    ensures Located(s.(workers := s.workers[w := worker]))
  {
    hide WorkerNums, DoneNums, Between, Accounts, Carries;
    WorkerKept(s.workers, w, worker);
  }

  lemma AccountStopped(working: multiset<nat>, delivered: multiset<nat>, pending: multiset<nat>,
                       committed: nat, taken: int, stopped: bool)
    requires Accounts(working, delivered, pending, committed, taken, stopped)
    ensures Accounts(working, delivered, pending, committed, taken, true)
  {
  }

  lemma LocateDelivered(g: Search, s: State, w: nat)
    requires Located(s) && Enabled(g, s, Deliver(w))
    ensures Located(Next(g, s, Deliver(w)))
  {
    hide WorkerNums, DoneNums, Between, Accounts;
    var n := s.workers[w].d.num;
    WorkerFreed(s.workers, w);
    DoneAppend(s.dones, s.workers[w].d);
    AccountMoved(WorkerNums(s.workers[w := Idle]), DoneNums(s.dones), multiset(s.pending.Keys), n,
                 s.ahead.committed, TakenOff(s), s.stopped);
  }

  lemma AccountMoved(working: multiset<nat>, delivered: multiset<nat>, pending: multiset<nat>, n: nat,
                     committed: nat, taken: int, stopped: bool)
    requires Accounts(working + multiset{n}, delivered, pending, committed, taken, stopped)
    ensures Accounts(working, delivered + multiset{n}, pending, committed, taken, stopped)
  {
    assert working + multiset{n} + delivered == working + (delivered + multiset{n});
  }

  lemma LocateTaken(g: Search, s: State, w: nat)
    requires Located(s) && Honest(g, s) && Shape(g, s) && Enabled(g, s, Take(w))
    ensures Located(Next(g, s, Take(w)))
  {
    hide WorkerNums, DoneNums, Between, Accounts;
    TakeNumber(g, s);
    WorkerTook(s.workers, w, s.jobs[0]);
    AccountTaken(WorkerNums(s.workers), DoneNums(s.dones), multiset(s.pending.Keys), s.ahead.committed, TakenOff(s), s.stopped);
  }

  lemma AccountTaken(working: multiset<nat>, delivered: multiset<nat>, pending: multiset<nat>,
                     committed: nat, taken: nat, stopped: bool)
    requires Accounts(working, delivered, pending, committed, taken, stopped) && committed <= taken
    ensures Accounts(working + multiset{taken}, delivered, pending, committed, taken + 1, stopped)
  {
    assert working + multiset{taken} + delivered + pending == working + delivered + pending + multiset{taken};
    assert Between(committed, taken + 1) == Between(committed, taken) + multiset{taken};
  }

  lemma TakeNumber(g: Search, s: State)
    requires Honest(g, s) && s.jobs != []
    ensures s.jobs[0].num == TakenOff(s)
  {
    assert s.jobs[0].num == TakenOff(s) + 0;
  }

  lemma LocateReceived(g: Search, s: State)
    requires Located(s) && Enabled(g, s, Receive)
    ensures Located(Next(g, s, Receive))
  {
    hide Located, Received;
    ReceivedLocated(s);
  }

  lemma LocateCommitted(g: Search, s: State)
    requires Located(s) && Shape(g, s) && Enabled(g, s, Commit)
    ensures Located(Next(g, s, Commit))
  {
    hide Located, Committed;
    CommittedLocated(s);
  }

  lemma ReceivedLocated(s: State)
    requires Located(s) && s.dones != []
    ensures Located(Received(s))
  {
    hide WorkerNums, Between;
    var d, rest := s.dones[0], s.dones[1..];
    if !s.stopped {
      PendingInRange(s);
      assert Received(s).pending.Keys == s.pending.Keys + {d.num};
      assert multiset(Received(s).pending.Keys) == multiset(s.pending.Keys) + multiset{d.num};
    }
    AccountReceived(WorkerNums(s.workers), DoneNums(rest), multiset(s.pending.Keys), d.num,
                    s.ahead.committed, TakenOff(s), s.stopped);
  }

  lemma AccountReceived(working: multiset<nat>, delivered: multiset<nat>, pending: multiset<nat>, n: nat,
                        committed: nat, taken: int, stopped: bool)
    requires Accounts(working, multiset{n} + delivered, pending, committed, taken, stopped)
    ensures Accounts(working, delivered, pending + multiset{n}, committed, taken, stopped)
    ensures stopped ==> Accounts(working, delivered, pending, committed, taken, stopped)
  {
    assert working + (multiset{n} + delivered) + pending == working + delivered + (pending + multiset{n});
  }

  /** Committing the first number leaves the rest. */
  lemma BetweenWithoutFirst(held: multiset<nat>, kept: multiset<nat>, n: nat, t: int)
    requires held + kept + multiset{n} == Between(n, t) && n < t
    ensures held + kept == Between(n + 1, t) && |held| <= t - (n + 1)
  {
    assert Between(n, t) == Between(n + 1, t) + multiset{n};
    Cancel(held + kept, Between(n + 1, t), multiset{n});
    assert |held + kept| == |held| + |kept|;
  }

  lemma CommittedLocated(s: State)
    requires Located(s) && !s.stopped
    ensures Located(Committed(s))
  {
    hide WorkerNums, DoneNums, Between;
    var n, kept := s.ahead.committed, Committed(s).pending;
    if n in s.pending {
      PendingInRange(s);
      assert s.pending.Keys == kept.Keys + {n};
      assert multiset(s.pending.Keys) == multiset(kept.Keys) + multiset{n};
      var held := WorkerNums(s.workers) + DoneNums(s.dones);
      assert held + multiset(s.pending.Keys) == held + multiset(kept.Keys) + multiset{n};
      BetweenWithoutFirst(held, multiset(kept.Keys), n, TakenOff(s));
    }
  }

  // Honesty

  lemma KeepHonest(g: Search, s: State, a: Action)
    requires Inv(g, s) && Enabled(g, s, a)
    ensures Honest(g, Next(g, s, a))
  {
    hide Refines, Sequential, SearchOne, Genuine, WorkerNums, DoneNums, Between, Located, Honest, Answered;
    var s' := Next(g, s, a);
    match a
    case WalkSend => HonestSent(g, s);
    case Take(w) => HonestTaken(g, s, w);
    case Begin(w) => HonestWorker(g, s, w, s'.workers[w]);
    case Finish(w, interrupted) => HonestFinished(g, s, w, interrupted);
    case Exit(w) => HonestWorker(g, s, w, s'.workers[w]);
    case Deliver(w) => HonestDelivered(g, s, w);
    case Receive => HonestReceived(g, s);
    case Commit => HonestCommitted(g, s);
    case Account => HonestAccounted(g, s);
    case _ => HonestSame(g, s, s');
  }

  lemma HonestSame(g: Search, s: State, s': State)
    requires Honest(g, s)
    requires s'.walk.Sending? ==> s'.walk == s.walk || s'.walk.budget >= g.q.max - s.total
    requires s'.consumer.Accounting? ==>
               s'.consumer == s.consumer && s'.ahead.committed == s.ahead.committed && s'.stopped == s.stopped
    requires s' == s.(walk := s'.walk, consumer := s'.consumer, ahead := s'.ahead, stopped := s'.stopped,
                      cancelled := s'.cancelled)
    requires s.stopped ==> s'.stopped
    ensures Honest(g, s')
  {
    FitsLater(g, s, s');
  }

  /** What fits keeps fitting while files are only handed out and the count stays. */
  lemma FitsLater(g: Search, s: State, s': State)
    requires s.handed <= s'.handed && s'.total == s.total && (s.stopped ==> s'.stopped)
    ensures forall j :: JobFits(g, s, j) ==> JobFits(g, s', j)
    ensures forall d :: DeliveryFits(g, s, d) ==> DeliveryFits(g, s', d)
    ensures forall w :: WorkerFits(g, s, w) ==> WorkerFits(g, s', w)
  {
    hide Genuine;
  }

  lemma HonestSent(g: Search, s: State)
    requires Honest(g, s) && Enabled(g, s, WalkSend) && s.handed < |g.files|
    ensures Honest(g, Next(g, s, WalkSend))
  {
    FitsLater(g, s, Next(g, s, WalkSend));
    hide JobFits, DeliveryFits, WorkerFits;
    assert JobFits(g, Next(g, s, WalkSend), Job(s.handed, s.walk.budget)) by { LastJobFits(g, s); }
  }

  lemma LastJobFits(g: Search, s: State)
    requires Honest(g, s) && Enabled(g, s, WalkSend) && s.handed < |g.files|
    ensures JobFits(g, Next(g, s, WalkSend), Job(s.handed, s.walk.budget))
  {
  }

  lemma HonestTaken(g: Search, s: State, w: nat)
    requires Honest(g, s) && Enabled(g, s, Take(w))
    ensures Honest(g, Next(g, s, Take(w)))
  {
    var s' := Next(g, s, Take(w));
    FitsLater(g, s, s');
    assert forall i :: 0 <= i < |s'.jobs| ==> s'.jobs[i] == s.jobs[i + 1];
    hide JobFits, DeliveryFits;
  }

  lemma HonestWorker(g: Search, s: State, w: nat, worker: Worker)
    requires Honest(g, s) && w < |s.workers|
    requires WorkerFits(g, s, s.workers[w]) ==> WorkerFits(g, s, worker)
    ensures Honest(g, s.(workers := s.workers[w := worker]))
  {
    var s' := s.(workers := s.workers[w := worker]);
    FitsLater(g, s, s');
    hide JobFits, DeliveryFits, WorkerFits;
  }

  lemma HonestFinished(g: Search, s: State, w: nat, interrupted: bool)
    requires Inv(g, s) && Enabled(g, s, Finish(w, interrupted))
    ensures Honest(g, Next(g, s, Finish(w, interrupted)))
  {
    var job := s.workers[w].job;
    assert WorkerFits(g, s, s.workers[w]);
    AnsweredGenuine(g, job, interrupted, g.q.max - s.total);
    hide Genuine, Refines, Located;
    HonestWorker(g, s, w, Delivering(Answered(g, job, interrupted)));
  }

  lemma HonestDelivered(g: Search, s: State, w: nat)
    requires Honest(g, s) && Enabled(g, s, Deliver(w))
    ensures Honest(g, Next(g, s, Deliver(w)))
  {
    var s' := Next(g, s, Deliver(w));
    FitsLater(g, s, s');
    assert WorkerFits(g, s, s.workers[w]);
    hide JobFits, DeliveryFits;
  }

  lemma HonestReceived(g: Search, s: State)
    requires Honest(g, s) && Enabled(g, s, Receive)
    ensures Honest(g, Received(s))
  {
    FitsLater(g, s, Received(s));
    assert DeliveryFits(g, s, s.dones[0]);
    hide JobFits, DeliveryFits, WorkerFits;
  }

  lemma HonestCommitted(g: Search, s: State)
    requires Honest(g, s) && Enabled(g, s, Commit) && !s.stopped
    ensures Honest(g, Committed(s))
  {
    FitsLater(g, s, Committed(s));
    hide JobFits, DeliveryFits, WorkerFits;
  }

  lemma AnsweredGenuine(g: Search, job: Job, interrupted: bool, bound: int)
    requires job.num < |g.files| && job.budget >= bound
    ensures !interrupted ==> Genuine(g, Answered(g, job, interrupted), bound)
  {
  }

  /** A larger match count only lowers what is still needed. */
  lemma HonestAccounted(g: Search, s: State)
    requires Inv(g, s) && s.consumer.Accounting?
    ensures Honest(g, Accounted(s, s.consumer.d))
  {
    hide Refines, Sequential, SearchOne, WorkerNums, DoneNums, Between, Located;
    var s' := Accounted(s, s.consumer.d);
    forall d | DeliveryFits(g, s, d) ensures DeliveryFits(g, s', d) {}
    forall w | 0 <= w < |s.workers| ensures WorkerFits(g, s', s.workers[w]) {
      assert WorkerFits(g, s, s.workers[w]);
    }
  }

  // Refinement

  lemma {:induction false} SequentialFacts(g: Search, n: nat)
    requires n <= |g.files| && g.Valid()
    ensures var r := Sequential(g, n); r.stopped <==> Over(g.q, r.results, r.total)
  {
    if n > 0 { SequentialFacts(g, n - 1); }
  }

  lemma KeepRefines(g: Search, s: State, a: Action)
    requires Inv(g, s) && Enabled(g, s, a) && Shape(g, Next(g, s, a))
    ensures Refines(g, Next(g, s, a))
  {
    hide Sequential, SearchOne, Genuine, WorkerNums, DoneNums, Between, Located, WorkerFits, DeliveryFits;
    match a
    case Account => RefineAccounted(g, s);
    case Check => RefineChecked(g, s);
    case _ =>
  }

  /** A real search under a larger budget finds something exactly when the
      sequential one does. */
  lemma SameFound(q: Query, f: File, lo: int, hi: int)
    requires 0 <= lo <= hi
    ensures SearchOne(q, f, lo).None? <==> SearchOne(q, f, hi).None?
  {
    if f.Readable? { LargerBudget(q, f.lines, lo, hi); }
  }

  lemma RefineAccounted(g: Search, s: State)
    requires Inv(g, s) && s.consumer.Accounting? && Shape(g, Accounted(s, s.consumer.d))
    ensures Refines(g, Accounted(s, s.consumer.d))
  {
    hide WorkerNums, DoneNums, Between, Located, SearchOne, WorkerFits;
    var d, n, s' := s.consumer.d, s.ahead.committed, Accounted(s, s.consumer.d);
    var lo := g.q.max - s.total;
    SequentialFacts(g, n - 1);
    var b :| b >= lo && d.answer == Searched(SearchOne(g.q, g.files[d.num], b));
    if s'.consumer.Committing? {
      if g.q.content { SameFound(g.q, g.files[n - 1], lo, b); } else { CountOnly(g.q, g.files[n - 1], lo, b); }
    } else {
      assert s'.results[..|s'.results| - 1] == s.results;
    }
  }

  /** Outside content mode the budget plays no part. */
  lemma CountOnly(q: Query, f: File, lo: int, hi: int)
    requires !q.content && lo <= hi
    ensures SearchOne(q, f, lo) == SearchOne(q, f, hi)
  {
    if f.Readable? { LargerBudget(q, f.lines, lo, hi); }
  }

  /** What the sequential search finds, when a search under a larger budget found `fr`. */
  lemma SequentialFound(q: Query, f: File, lo: int, hi: int, fr: FileResult)
    requires 0 <= lo <= hi && q.content && SearchOne(q, f, hi) == Some(fr)
    ensures SearchOne(q, f, lo).Some?
    ensures var fr' := SearchOne(q, f, lo).value;
            if fr.count <= lo then fr' == fr
            else fr'.count > lo && fr'.lines <= fr.lines && fr'.count <= fr.count
  {
    LargerBudget(q, f.lines, lo, hi);
  }

  lemma RefineChecked(g: Search, s: State)
    requires Inv(g, s) && s.consumer.Checking? && Shape(g, Checked(g, s))
    ensures Refines(g, Checked(g, s))
  {
    hide WorkerNums, DoneNums, Between, Located, SearchOne, WorkerFits, Honest;
    var n := s.ahead.committed;
    var r, last := Sequential(g, n - 1), s.results[|s.results| - 1];
    var lo := g.q.max - r.total;
    SequentialFacts(g, n - 1);
    var b :| b >= lo && SearchOne(g.q, g.files[n - 1], b) == Some(last.fr);
    assert s.results == r.results + [last];
    if g.q.content {
      SequentialFound(g.q, g.files[n - 1], lo, b, last.fr);
    } else {
      CountOnly(g.q, g.files[n - 1], lo, b);
    }
  }

  lemma KeepInv(g: Search, s: State, a: Action)
    requires Inv(g, s) && Enabled(g, s, a)
    ensures Inv(g, Next(g, s, a))
  {
    hide Shape, Located, Honest, Refines, Next, Enabled;
    KeepShape(g, s, a);
    KeepLocated(g, s, a);
    KeepHonest(g, s, a);
    KeepRefines(g, s, a);
  }
}
