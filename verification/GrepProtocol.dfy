/** The parallel walk search (internal/agent/grep_scan.go): a walk hands numbered
    files to workers under a growing look-ahead window, workers search them in any
    order, and a consumer commits the results in file order until the answer is
    complete.  One step of the model is one atomic action of one goroutine. */
module GrepProtocol {
  import opened Wrappers
  import opened GrepCollect

  // ---------------------------------------------------------------------
  // The look-ahead window

  datatype Window = Window(committed: nat, window: nat, max: nat, closed: bool) {
    /** File `num` may be handed out. */
    predicate Admits(num: nat) { num < committed + window }

    function Commit(): Window {
      this.(committed := committed + 1, window := if window + 1 < max then window + 1 else max)
    }
  }

  /** The width after `committed` commits: it grows by one with each, up to its maximum. */
  function Width(start: nat, max: nat, committed: nat): nat {
    if start + committed < max then start + committed else max
  }

  /** What `wait` finds when it looks: go on blocking, hand the file out, or give up. */
  datatype Admission = Blocked | Open | Refused

  class GrepLookahead {
    const start: nat
    var committed: nat
    var window: nat
    const max: nat
    var closed: bool

    function View(): Window reads this { Window(committed, window, max, closed) }

    ghost predicate Valid() reads this { start <= max && window == Width(start, max, committed) }

    /** How the walk fares with file `num`: it may run ahead of the commits by what the
        start and the commits so far allow, and never by more than the maximum. */
    ghost function Answer(num: nat): Admission reads this {
      if closed then Refused
      else if num < max + committed && num < start + 2 * committed then Open
      else Blocked
    }

    constructor (start: nat, max: nat)
      requires start <= max
      ensures Valid() && View() == Window(0, start, max, false)
      ensures forall num: nat :: Answer(num).Open? <==> num < start
    {
      this.start, committed, window, closed := start, 0, start, false;
      this.max := max;
    }

    /** One look of `wait` under the lock. */
    method Wait(num: nat) returns (a: Admission)
      requires Valid()
      ensures a == Answer(num)
    {
      if num >= committed + window && !closed { return Blocked; }
      return if closed then Refused else Open;
    }

    /** A commit takes back no admission, and lets through the next one or two files. */
    method Commit()
      requires Valid()
      modifies this
      ensures Valid() && View() == old(View()).Commit()
      ensures forall num: nat :: old(Answer(num)) == Open ==> Answer(num) == Open
      ensures forall num: nat :: old(Answer(num)) == Blocked && Answer(num) == Open ==>
                num == old(committed + window) || (num == old(committed + window) + 1 && old(window) < max)
    {
      committed := committed + 1;
      window := if window + 1 < max then window + 1 else max;
    }

    /** From now on no file is waited for and none is handed out. */
    method Close()
      requires Valid()
      modifies this
      ensures Valid() && View() == old(View()).(closed := true)
      ensures forall num: nat :: Answer(num) == Refused
    {
      closed := true;
    }
  }

  // ---------------------------------------------------------------------
  // One file at a time

  /** A walked file: unreadable, binary or oversized, or text lines. */
  datatype File = Skipped | Readable(lines: seq<Line>)

  /** A reported file, named by its number in walk order. */
  datatype Reported = Reported(file: nat, fr: FileResult)

  /** The search: the query, the wanted files in walk order, the worker count. */
  datatype Search = Search(q: Query, files: seq<File>, workers: nat) {
    /** max_results always ends up positive, and there are at least two workers. */
    predicate Valid() { q.max > 0 && workers >= 2 }

    /** The channels' capacity and the widest window: 16 files per worker. */
    function Capacity(): nat { workers * 16 }
  }

  ghost function SearchOne(q: Query, f: File, budget: int): Option<FileResult> {
    match f
    case Skipped => None
    case Readable(ls) => var r := Result(q, ls, budget); if r.count > 0 then Some(r) else None
  }

  /** More than max_results matches (content mode) or files (the other modes). */
  predicate Over(q: Query, results: seq<Reported>, total: nat) {
    if q.content then total > q.max else |results| > q.max
  }

  datatype Run = Run(results: seq<Reported>, total: nat, stopped: bool)

  /** The one-file-at-a-time search of the first `n` files. */
  ghost function Sequential(g: Search, n: nat): Run
    requires n <= |g.files|
  {
    if n == 0 then Run([], 0, false) else
      var r := Sequential(g, n - 1);
      if r.stopped then r else
        match SearchOne(g.q, g.files[n - 1], g.q.max - r.total)
        case None => r
        case Some(fr) =>
          var results := r.results + [Reported(n - 1, fr)];
          Run(results, r.total + fr.count, Over(g.q, results, r.total + fr.count))
  }

  // ---------------------------------------------------------------------
  // The goroutines

  datatype Job = Job(num: nat, budget: int)

  /** A worker's answer; `Interrupted` when it saw the search cancelled. */
  datatype Answer = Searched(found: Option<FileResult>) | Interrupted

  datatype Delivery = Delivery(num: nat, answer: Answer)

  datatype Walk = AtWait | Admitted | Sending(budget: int) | WalkDone

  datatype Worker = Idle | Taken(job: Job) | Searching(job: Job) | Delivering(d: Delivery) | Exited

  datatype Consumer = Receiving | Committing | Accounting(d: Delivery) | Checking | Finished

  datatype State = State(
    handed: nat, walk: Walk, jobs: seq<Job>, workers: seq<Worker>, dones: seq<Delivery>,
    pending: map<nat, Delivery>, consumer: Consumer, ahead: Window,
    results: seq<Reported>, total: nat, stopped: bool, cancelled: bool)

  /** The actions the goroutines interleave; `w` is a worker. */
  datatype Action =
    | WalkAdmit | WalkLoad | WalkSend | WalkEnd | WalkAbort
    | Take(w: nat) | Begin(w: nat) | Finish(w: nat, interrupted: bool) | Deliver(w: nat) | Exit(w: nat)
    | Receive | Commit | Account | Check | CloseAhead | End

  function Init(g: Search): State {
    State(0, AtWait, [], seq(g.workers, _ => Idle), [], map[], Receiving,
          Window(0, g.workers, g.Capacity(), false), [], 0, false, false)
  }

  predicate AllExited(s: State) { forall w :: 0 <= w < |s.workers| ==> s.workers[w].Exited? }

  predicate Enabled(g: Search, s: State, a: Action) {
    match a
    case WalkAdmit => s.walk.AtWait? && s.handed < |g.files| && !s.ahead.closed && s.ahead.Admits(s.handed)
    case WalkLoad => s.walk.Admitted?
    case WalkSend => s.walk.Sending? && |s.jobs| < g.Capacity()
    case WalkEnd => s.walk.AtWait? && s.handed >= |g.files|
    case WalkAbort => (s.walk.AtWait? && (s.ahead.closed || s.cancelled)) || (s.walk.Sending? && s.cancelled)
    case Take(w) => w < |s.workers| && s.workers[w].Idle? && s.jobs != []
    case Begin(w) => w < |s.workers| && s.workers[w].Taken?
    case Finish(w, interrupted) =>
      w < |s.workers| && s.workers[w].Searching? && s.workers[w].job.num < |g.files| && (interrupted ==> s.cancelled)
    case Deliver(w) => w < |s.workers| && s.workers[w].Delivering? && |s.dones| < g.Capacity()
    case Exit(w) => w < |s.workers| && s.workers[w].Idle? && s.jobs == [] && s.walk.WalkDone?
    case Receive => s.consumer.Receiving? && s.dones != []
    case Commit => s.consumer.Committing?
    case Account => s.consumer.Accounting?
    case Check => s.consumer.Checking?
    case CloseAhead => s.cancelled && !s.ahead.closed
    case End => s.consumer.Receiving? && s.dones == [] && AllExited(s)
  }

  /** What a worker does with a job it has taken. */
  function Begun(s: State, job: Job): Worker {
    if s.cancelled then Delivering(Delivery(job.num, Interrupted)) else Searching(job)
  }

  ghost function Answered(g: Search, job: Job, interrupted: bool): Delivery
    requires job.num < |g.files|
  {
    Delivery(job.num, if interrupted then Interrupted else Searched(SearchOne(g.q, g.files[job.num], job.budget)))
  }

  /** The consumer takes a delivery; once stopped it only drains. */
  function Received(s: State): State
    requires s.dones != []
  {
    var d := s.dones[0];
    if s.stopped then s.(dones := s.dones[1..])
    else s.(dones := s.dones[1..], pending := s.pending[d.num := d], consumer := Committing)
  }

  function Committed(s: State): State {
    var next := s.ahead.committed;
    if next in s.pending then
      s.(pending := s.pending - {next}, ahead := s.ahead.Commit(), consumer := Accounting(s.pending[next]))
    else s.(consumer := Receiving)
  }

  function Accounted(s: State, d: Delivery): State {
    match d.answer
    case Interrupted => s.(consumer := Committing)
    case Searched(None) => s.(consumer := Committing)
    case Searched(Some(fr)) =>
      s.(results := s.results + [Reported(d.num, fr)], total := s.total + fr.count, consumer := Checking)
  }

  function Checked(g: Search, s: State): State {
    if Over(g.q, s.results, s.total) then s.(stopped := true, cancelled := true, consumer := Receiving)
    else s.(consumer := Committing)
  }

  ghost function Next(g: Search, s: State, a: Action): State
    requires Enabled(g, s, a)
  {
    match a
    case WalkAdmit => s.(walk := Admitted)
    case WalkLoad => s.(walk := Sending(g.q.max - s.total))
    case WalkSend => s.(walk := AtWait, handed := s.handed + 1, jobs := s.jobs + [Job(s.handed, s.walk.budget)])
    case WalkEnd => s.(walk := WalkDone)
    case WalkAbort => s.(walk := WalkDone)
    case Take(w) => s.(jobs := s.jobs[1..], workers := s.workers[w := Taken(s.jobs[0])])
    case Begin(w) => s.(workers := s.workers[w := Begun(s, s.workers[w].job)])
    case Finish(w, interrupted) => s.(workers := s.workers[w := Delivering(Answered(g, s.workers[w].job, interrupted))])
    case Deliver(w) => s.(workers := s.workers[w := Idle], dones := s.dones + [s.workers[w].d])
    case Exit(w) => s.(workers := s.workers[w := Exited])
    case Receive => Received(s)
    case Commit => Committed(s)
    case Account => Accounted(s, s.consumer.d)
    case Check => Checked(g, s)
    case CloseAhead => s.(ahead := s.ahead.(closed := true))
    case End => s.(consumer := Finished)
  }

  /** An interleaving: from the start, every state by an enabled action. */
  ghost predicate Execution(g: Search, trace: seq<State>) {
    && |trace| > 0
    && trace[0] == Init(g)
    && forall i :: 0 < i < |trace| ==> StepTo(g, trace[i - 1], trace[i])
  }

  ghost predicate StepTo(g: Search, s: State, s': State) {
    exists a :: Enabled(g, s, a) && s' == Next(g, s, a)
  }
}
