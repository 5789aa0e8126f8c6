/** The step executor (internal/agent/llm_runtime.go, parallelExec, and execToolCalls in
    llm_runtime_send.go): whatever the caps, the cancellations, the stop and the order
    in which concurrent calls finish, every call gets its one result in its own slot. */
module StepExecutor {
  import opened Wrappers
  import opened ToolBatches

  datatype Call = Call(tool: string, args: string)

  datatype Result = Unset | BadArguments | NotConverted | OverCap | OverBudget | TurnEnded | Interrupted | Ran(output: string)

  /** What a step runs under.  `canon` gives the call a name stands for, if its
      arguments convert; `stops(k)` says that the turn was ended before the k-th batch,
      `interrupted(i)` that the run was cancelled when call i was about to start,
      `output(i)` what it returned otherwise. */
  datatype Step = Step(calls: seq<Call>, canon: Call -> Option<Call>, conc: Call -> bool, cap: nat, budget: nat,
                       stops: nat -> bool, interrupted: nat -> bool, output: nat -> string)

  const AGENT := "agent"

  function Canon(s: Step, i: nat): Option<Call>
    requires i < |s.calls|
  {
    s.canon(s.calls[i])
  }

  /** Past conversion, naming and the cap on calls. */
  predicate Counted(s: Step, i: nat)
    requires i < |s.calls|
  {
    Canon(s, i).Some? && Canon(s, i).value.tool != "" && !(s.cap > 0 && i >= s.cap)
  }

  predicate IsAgent(s: Step, i: nat)
    requires i < |s.calls|
  {
    Counted(s, i) && Canon(s, i).value.tool == AGENT
  }

  /** The agent calls among the first `n`. */
  function Agents(s: Step, n: nat): nat
    requires n <= |s.calls|
  {
    if n == 0 then 0 else Agents(s, n - 1) + if IsAgent(s, n - 1) then 1 else 0
  }

  /** The result of a call that is not run at all; none when it is to run. */
  function Verdict(s: Step, i: nat): Option<Result>
    requires i < |s.calls|
  {
    if Canon(s, i).None? then Some(NotConverted)
    else if Canon(s, i).value.tool == "" then Some(Unset)
    else if s.cap > 0 && i >= s.cap then Some(OverCap)
    else if IsAgent(s, i) && Agents(s, i + 1) > s.budget then Some(OverBudget)
    else None
  }

  function Runnable(s: Step, n: nat): seq<nat>
    requires n <= |s.calls|
  {
    if n == 0 then [] else Runnable(s, n - 1) + if Verdict(s, n - 1).None? then [n - 1] else []
  }

  lemma {:induction false} RunnableIs(s: Step, n: nat)
    requires n <= |s.calls|
    ensures forall x: nat :: x in Runnable(s, n) <==> x < n && Verdict(s, x).None?
    ensures Increasing(Runnable(s, n))
  {
    if n > 0 {
      RunnableIs(s, n - 1);
      var r := Runnable(s, n - 1);
      assert forall i :: 0 <= i < |r| ==> r[i] in r;
    }
  }

  predicate Concurrent(s: Step, i: nat) {
    i < |s.calls| && Canon(s, i).Some? && s.conc(Canon(s, i).value)
  }

  /** The result of a call in the k-th batch. */
  function RunResult(s: Step, k: nat, i: nat): Result {
    if s.stops(k) then TurnEnded else if s.interrupted(i) then Interrupted else Ran(s.output(i))
  }

  // ---------------------------------------------------------------------
  // Slots

  /** The slots, with how often each was written. */
  ghost predicate Slots(s: Step, results: seq<Result>, writes: seq<nat>) {
    |results| == |s.calls| && |writes| == |s.calls|
  }

  /** A slot as the first two passes leave it. */
  ghost predicate Judged(s: Step, results: seq<Result>, writes: seq<nat>, i: nat)
    requires Slots(s, results, writes) && i < |s.calls|
  {
    if Verdict(s, i).None? || Verdict(s, i).value.Unset? then results[i] == Unset && writes[i] == 0
    else results[i] == Verdict(s, i).value && writes[i] == 1
  }

  /** A slot as its batch leaves it. */
  ghost predicate Filled(s: Step, results: seq<Result>, writes: seq<nat>, k: nat, i: nat) {
    Slots(s, results, writes) && i < |s.calls| && results[i] == RunResult(s, k, i) && writes[i] == 1
  }

  ghost predicate Untouched(s: Step, results: seq<Result>, writes: seq<nat>, i: nat) {
    Slots(s, results, writes) && i < |s.calls| && Verdict(s, i).None? && results[i] == Unset && writes[i] == 0
  }

  /** The first `k` batches have run; of the k-th, all but `open`. */
  ghost predicate RanUpTo(s: Step, batches: seq<seq<nat>>, results: seq<Result>, writes: seq<nat>, k: nat, open: set<nat>) {
    && Slots(s, results, writes) && k <= |batches|
    && (forall i :: 0 <= i < |s.calls| && Verdict(s, i).Some? ==> Judged(s, results, writes, i))
    && (forall b: nat, x: nat :: b < k && x in batches[b] ==> Filled(s, results, writes, b, x))
    && (forall x: nat :: k < |batches| && x in batches[k] && x !in open ==> Filled(s, results, writes, k, x))
    && (forall x: nat :: k < |batches| && x in batches[k] && x in open ==> Untouched(s, results, writes, x))
    && (forall b: nat, x: nat :: k < b < |batches| && x in batches[b] ==> Untouched(s, results, writes, x))
  }

  /** No call is in two batches. */
  predicate Apart(batches: seq<seq<nat>>) {
    forall b: nat, c: nat, x: nat :: b < |batches| && c < |batches| && x in batches[b] && x in batches[c] ==> b == c
  }

  lemma PlanApart(batches: seq<seq<nat>>)
    requires Increasing(Flat(batches))
    ensures Apart(batches)
  {
    forall b: nat, c: nat, x: nat | b < |batches| && c < |batches| && x in batches[b] && x in batches[c] ensures b == c {
      if b < c { LaterIsLarger(batches, b, c, x, x); }
      if c < b { LaterIsLarger(batches, c, b, x, x); }
    }
  }

  /** One call of the k-th batch fills its slot. */
  lemma FillOne(s: Step, batches: seq<seq<nat>>, results: seq<Result>, writes: seq<nat>, k: nat, open: set<nat>, x: nat)
    requires RanUpTo(s, batches, results, writes, k, open) && Apart(batches)
    requires k < |batches| && x in batches[k] && x in open
    ensures x < |results| == |writes|
    ensures RanUpTo(s, batches, results[x := RunResult(s, k, x)], writes[x := writes[x] + 1], k, open - {x})
  {
    hide Verdict, RunResult;
    assert Untouched(s, results, writes, x);
    var results', writes' := results[x := RunResult(s, k, x)], writes[x := writes[x] + 1];
    forall b: nat, y: nat | b < k && y in batches[b] ensures Filled(s, results', writes', b, y) {
      assert Filled(s, results, writes, b, y);
    }
    forall b: nat, y: nat | k < b < |batches| && y in batches[b] ensures Untouched(s, results', writes', y) {
      assert Untouched(s, results, writes, y);
    }
    forall y: nat | y in batches[k] && y !in open && y != x ensures Filled(s, results', writes', k, y) {
      assert Filled(s, results, writes, k, y);
    }
    forall y: nat | y in batches[k] && y in open - {x} ensures Untouched(s, results', writes', y) {
      assert Untouched(s, results, writes, y);
    }
  }

  lemma NextBatch(s: Step, batches: seq<seq<nat>>, results: seq<Result>, writes: seq<nat>, k: nat)
    requires RanUpTo(s, batches, results, writes, k, {}) && k < |batches|
    ensures k + 1 < |batches| ==> RanUpTo(s, batches, results, writes, k + 1, Members(batches[k + 1]))
    ensures k + 1 == |batches| ==> RanUpTo(s, batches, results, writes, k + 1, {})
  {
    hide Verdict, Judged, RunResult;
  }

  function Members(batch: seq<nat>): set<nat> { set x | x in batch }

  lemma FirstBatch(s: Step, batches: seq<seq<nat>>, results: seq<Result>, writes: seq<nat>)
    requires JudgedUpTo(s, results, writes, |s.calls|)
    requires Flat(batches) == Runnable(s, |s.calls|)
    ensures RanUpTo(s, batches, results, writes, 0, if batches == [] then {} else Members(batches[0]))
    ensures Apart(batches)
  {
    RunnableIs(s, |s.calls|);
    PlanApart(batches);
    forall b: nat, x: nat | b < |batches| && x in batches[b] ensures Untouched(s, results, writes, x) {
      InFlat(batches, b, x);
      assert Judged(s, results, writes, x);
    }
    hide Verdict, RunResult, Apart;
  }

  // ---------------------------------------------------------------------
  // The executor

  /** Converts and caps the calls, plans the rest, and runs the batches one after
      another; the calls of a batch finish in any order. */
  method ParallelExec(s: Step) returns (results: array<Result>, batches: seq<seq<nat>>, ghost writes: seq<nat>)
    ensures fresh(results) && results.Length == |writes| == |s.calls|
    ensures IsPlan(batches, Runnable(s, |s.calls|), (i: nat) => Concurrent(s, i))
    ensures RanUpTo(s, batches, results[..], writes, |batches|, {})
  {
    hide Verdict, Judged;
    var runnable: seq<nat>;
    results, runnable, writes := Judge(s);
    batches := PlanToolBatches(runnable, (i: nat) => Concurrent(s, i));
    FirstBatch(s, batches, results[..], writes);
    for k := 0 to |batches|
      invariant results.Length == |s.calls| && fresh(results)
      invariant RanUpTo(s, batches, results[..], writes, k, if k < |batches| then Members(batches[k]) else {})
    {
      var open := Members(batches[k]);
      while open != {}
        invariant results.Length == |s.calls| && fresh(results)
        invariant open <= Members(batches[k]) && RanUpTo(s, batches, results[..], writes, k, open)
        decreases open
      {
        var x :| x in open;
        FillOne(s, batches, results[..], writes, k, open, x);
        if s.stops(k) {
          results[x] := TurnEnded;
        } else if s.interrupted(x) {
          results[x] := Interrupted;
        } else {
          results[x] := Ran(s.output(x));
        }
        writes := writes[x := writes[x] + 1];
        open := open - {x};
      }
      NextBatch(s, batches, results[..], writes, k);
    }
  }

  /** Slot `i` after the conversion pass. */
  ghost predicate Converted(s: Step, results: seq<Result>, writes: seq<nat>, i: nat)
    requires Slots(s, results, writes) && i < |s.calls|
  {
    if Canon(s, i).None? then results[i] == NotConverted && writes[i] == 1 else results[i] == Unset && writes[i] == 0
  }

  /** What the second pass sees of a call. */
  function Named(s: Step, i: nat): Call
    requires i < |s.calls|
  {
    if Canon(s, i).Some? then Canon(s, i).value else Call("", "")
  }

  method Convert(s: Step) returns (results: array<Result>, calls: seq<Call>, ghost writes: seq<nat>)
    ensures fresh(results) && Slots(s, results[..], writes) && |calls| == |s.calls|
    ensures forall i :: 0 <= i < |s.calls| ==> calls[i] == Named(s, i) && Converted(s, results[..], writes, i)
  {
    results := new Result[|s.calls|](_ => Unset);
    writes := seq(|s.calls|, _ => 0);
    calls := [];
    for i := 0 to |s.calls|
      invariant Slots(s, results[..], writes) && |calls| == i
      invariant forall j :: 0 <= j < i ==> calls[j] == Named(s, j) && Converted(s, results[..], writes, j)
      invariant forall j :: i <= j < |s.calls| ==> results[j] == Unset && writes[j] == 0
    {
      var canon := s.canon(s.calls[i]);
      if canon.None? {
        results[i] := NotConverted;
        writes := writes[i := writes[i] + 1];
        calls := calls + [Call("", "")];
        continue;
      }
      calls := calls + [canon.value];
    }
  }

  /** The second pass has judged the first `n` calls. */
  ghost predicate JudgedUpTo(s: Step, results: seq<Result>, writes: seq<nat>, n: nat) {
    && Slots(s, results, writes) && n <= |s.calls|
    && (forall j :: 0 <= j < n ==> Judged(s, results, writes, j))
    && (forall j :: n <= j < |s.calls| ==> Converted(s, results, writes, j))
  }

  lemma JudgePassed(s: Step, results: seq<Result>, writes: seq<nat>, n: nat)
    requires JudgedUpTo(s, results, writes, n) && n < |s.calls|
    requires Verdict(s, n).None? || Verdict(s, n).value.Unset? || Verdict(s, n).value.NotConverted?
    ensures JudgedUpTo(s, results, writes, n + 1)
  {
    assert Converted(s, results, writes, n);
    hide Agents;
  }

  lemma JudgeRefused(s: Step, results: seq<Result>, writes: seq<nat>, n: nat, r: Result)
    requires JudgedUpTo(s, results, writes, n) && n < |s.calls| && Verdict(s, n) == Some(r)
    requires r.OverCap? || r.OverBudget?
    ensures JudgedUpTo(s, results[n := r], writes[n := writes[n] + 1], n + 1)
  {
    assert Converted(s, results, writes, n) && Canon(s, n).Some?;
    hide Verdict;
    var results', writes' := results[n := r], writes[n := writes[n] + 1];
    forall j | 0 <= j < n ensures Judged(s, results', writes', j) { assert Judged(s, results, writes, j); }
    forall j | n + 1 <= j < |s.calls| ensures Converted(s, results', writes', j) { assert Converted(s, results, writes, j); }
  }

  /** Converts every call, then caps the number of calls and of sub-agents. */
  method Judge(s: Step) returns (results: array<Result>, runnable: seq<nat>, ghost writes: seq<nat>)
    ensures fresh(results) && results.Length == |writes| == |s.calls|
    ensures runnable == Runnable(s, |s.calls|)
    ensures JudgedUpTo(s, results[..], writes, |s.calls|)
  {
    hide JudgedUpTo, Converted, Judged;
    var calls: seq<Call>;
    results, calls, writes := Convert(s);
    assert JudgedUpTo(s, results[..], writes, 0) by { JudgeNone(s, results[..], writes); }
    runnable := [];
    var agentCalls := 0;
    for i := 0 to |s.calls|
      invariant fresh(results) && results.Length == |writes| == |s.calls|
      invariant agentCalls == Agents(s, i) && runnable == Runnable(s, i) && JudgedUpTo(s, results[..], writes, i)
    {
      if calls[i].tool == "" {
        JudgePassed(s, results[..], writes, i);
        continue;
      }
      if s.cap > 0 && i >= s.cap {
        JudgeRefused(s, results[..], writes, i, OverCap);
        results[i] := OverCap;
        writes := writes[i := writes[i] + 1];
        continue;
      }
      if calls[i].tool == AGENT {
        agentCalls := agentCalls + 1;
        if agentCalls > s.budget {
          JudgeRefused(s, results[..], writes, i, OverBudget);
          results[i] := OverBudget;
          writes := writes[i := writes[i] + 1];
          continue;
        }
      }
      JudgePassed(s, results[..], writes, i);
      runnable := runnable + [i];
    }
  }

  lemma JudgeNone(s: Step, results: seq<Result>, writes: seq<nat>)
    requires Slots(s, results, writes) && forall i :: 0 <= i < |s.calls| ==> Converted(s, results, writes, i)
    ensures JudgedUpTo(s, results, writes, 0)
  {
  }

  // ---------------------------------------------------------------------
  // The promises

  lemma {:induction false} InSomeBatch(batches: seq<seq<nat>>, x: nat) returns (k: nat)
    requires x in Flat(batches)
    ensures k < |batches| && x in batches[k]
  {
    if x in batches[0] {
      k := 0;
    } else {
      k := InSomeBatch(batches[1..], x);
      k := k + 1;
    }
  }

  /** Every slot is written exactly once, except that of a call that converts to one
      without a name, which is written never. */
  lemma EverySlotOnce(s: Step, batches: seq<seq<nat>>, results: seq<Result>, writes: seq<nat>, i: nat)
    requires Flat(batches) == Runnable(s, |s.calls|) && RanUpTo(s, batches, results, writes, |batches|, {})
    requires i < |s.calls|
    ensures writes[i] == if Canon(s, i).Some? && Canon(s, i).value.tool == "" then 0 else 1
    ensures results[i] == Unset <==> writes[i] == 0
  {
    RunnableIs(s, |s.calls|);
    if Verdict(s, i).None? {
      var k := InSomeBatch(batches, i);
      assert Filled(s, results, writes, k, i);
    } else {
      assert Judged(s, results, writes, i);
    }
  }

  /** The runnable agent calls among the first `n`. */
  function RunnableAgents(s: Step, n: nat): nat
    requires n <= |s.calls|
  {
    if n == 0 then 0 else RunnableAgents(s, n - 1) + if IsAgent(s, n - 1) && Verdict(s, n - 1).None? then 1 else 0
  }

  /** The agent calls that run are the first ones, up to the budget; with a cap, no call
      from the cap on runs. */
  lemma {:induction false} AgentsWithinBudget(s: Step, n: nat)
    requires n <= |s.calls|
    ensures RunnableAgents(s, n) == if Agents(s, n) <= s.budget then Agents(s, n) else s.budget
    ensures forall x :: x in Runnable(s, n) && s.cap > 0 ==> x < s.cap
  {
    RunnableIs(s, n);
    if n > 0 { AgentsWithinBudget(s, n - 1); }
  }

  /** Converts to a call with a name, and is below the cap. */
  predicate NamedBelowCap(s: Step, i: nat) {
    && i < |s.calls| && s.canon(s.calls[i]).Some? && s.canon(s.calls[i]).value.tool != ""
    && (s.cap == 0 || i < s.cap)
  }

  predicate AgentCall(s: Step, i: nat) {
    NamedBelowCap(s, i) && s.canon(s.calls[i]).value.tool == AGENT
  }

  function AgentsBefore(s: Step, n: nat): set<nat> { set j: nat | j < n && AgentCall(s, j) }

  /** A call is run exactly when it converts to one with a name, is below the cap, and is no
      sub-agent call that has as many before it as the budget allows. */
  predicate Admitted(s: Step, i: nat) {
    NamedBelowCap(s, i) && (AgentCall(s, i) ==> |AgentsBefore(s, i)| < s.budget)
  }

  /** What a call gets that is not run. */
  predicate Refused(s: Step, i: nat, r: Result) {
    && i < |s.calls|
    && var canon := s.canon(s.calls[i]);
       match r
       case NotConverted => canon.None?
       case Unset => canon.Some? && canon.value.tool == ""
       case OverCap => canon.Some? && canon.value.tool != "" && 0 < s.cap <= i
       case OverBudget => AgentCall(s, i) && |AgentsBefore(s, i)| >= s.budget
       case _ => false
  }

  lemma {:induction false} AgentsAre(s: Step, n: nat)
    requires n <= |s.calls|
    ensures Agents(s, n) == |AgentsBefore(s, n)|
  {
    if n > 0 {
      AgentsAre(s, n - 1);
      if AgentCall(s, n - 1) {
        assert AgentsBefore(s, n) == AgentsBefore(s, n - 1) + {n - 1};
      } else {
        assert AgentsBefore(s, n) == AgentsBefore(s, n - 1);
      }
    }
  }

  lemma VerdictIs(s: Step, i: nat)
    requires i < |s.calls|
    ensures Verdict(s, i).None? <==> Admitted(s, i)
    ensures Verdict(s, i).Some? ==> Refused(s, i, Verdict(s, i).value)
  {
    AgentsAre(s, i);
    AgentsAre(s, i + 1);
    hide Agents;
    if AgentCall(s, i) { assert AgentsBefore(s, i + 1) == AgentsBefore(s, i) + {i}; }
  }

  /** A model's call: its name and arguments, and whether the arguments could not be
      decoded. */
  datatype NativeCall = NativeCall(id: string, name: string, args: string, undecoded: bool)

  function Decoded(calls: seq<NativeCall>, n: nat): seq<nat>
    requires n <= |calls|
  {
    if n == 0 then [] else Decoded(calls, n - 1) + if calls[n - 1].undecoded then [] else [n - 1]
  }

  lemma {:induction false} DecodedIs(calls: seq<NativeCall>, n: nat)
    requires n <= |calls|
    ensures forall x: nat :: x in Decoded(calls, n) <==> x < n && !calls[x].undecoded
    ensures Increasing(Decoded(calls, n)) && |Decoded(calls, n)| <= n
  {
    if n > 0 {
      DecodedIs(calls, n - 1);
      hide Increasing;
      if !calls[n - 1].undecoded { IncreasingAppend(Decoded(calls, n - 1), n - 1); }
    }
  }

  lemma IncreasingAppend(r: seq<nat>, n: nat)
    requires Increasing(r) && forall x: nat :: x in r ==> x < n
    ensures Increasing(r + [n])
  {
    forall i | 0 <= i < |r| ensures r[i] < n { assert r[i] in r; }
  }

  /** The calls the executor is given. */
  function AsCalls(calls: seq<NativeCall>, n: nat): (r: seq<Call>)
    requires n <= |calls|
    ensures |r| == |Decoded(calls, n)|
  {
    if n == 0 then []
    else AsCalls(calls, n - 1) + if calls[n - 1].undecoded then [] else [Call(calls[n - 1].name, calls[n - 1].args)]
  }

  /** The error results, and the calls that are left to run. */
  method SplitCalls(calls: seq<NativeCall>) returns (results: seq<Result>, runnable: seq<Call>, idx: seq<nat>)
    ensures |results| == |calls| && idx == Decoded(calls, |calls|) && runnable == AsCalls(calls, |calls|)
    ensures forall i :: 0 <= i < |calls| ==> results[i] == if calls[i].undecoded then BadArguments else Unset
  {
    results := seq(|calls|, _ => Unset);
    runnable, idx := [], [];
    for i := 0 to |calls|
      invariant |results| == |calls| && idx == Decoded(calls, i) && runnable == AsCalls(calls, i)
      invariant forall j :: 0 <= j < |calls| ==> results[j] == if j < i && calls[j].undecoded then BadArguments else Unset
    {
      if calls[i].undecoded {
        results := results[i := BadArguments];
        continue;
      }
      runnable, idx := runnable + [Call(calls[i].name, calls[i].args)], idx + [i];
    }
  }

  /** Puts each result of the executor in its call's place. */
  method Scatter(given: seq<Result>, idx: seq<nat>, ran: seq<Result>) returns (results: seq<Result>)
    requires |idx| == |ran| && Increasing(idx) && forall j :: 0 <= j < |idx| ==> idx[j] < |given|
    ensures |results| == |given| && forall j :: 0 <= j < |idx| ==> results[idx[j]] == ran[j]
    ensures forall i :: 0 <= i < |given| && i !in idx ==> results[i] == given[i]
  {
    results := given;
    for j := 0 to |idx|
      invariant |results| == |given| && forall m :: 0 <= m < j ==> results[idx[m]] == ran[m]
      invariant forall i :: 0 <= i < |given| && i !in idx ==> results[i] == given[i]
    {
      results := results[idx[j] := ran[j]];
    }
  }

  /** The results `ran` are those of the executor's pass over the step: its plan has run to
      the end, with every slot written as the pass says. */
  ghost predicate Executed(s: Step, ran: seq<Result>, batches: seq<seq<nat>>, writes: seq<nat>) {
    && IsPlan(batches, Runnable(s, |s.calls|), (i: nat) => Concurrent(s, i))
    && RanUpTo(s, batches, ran, writes, |batches|, {})
  }

  /** An executed step leaves a slot unset only for a call that converts to one without a
      name. */
  lemma ExecutedSets(s: Step, ran: seq<Result>, batches: seq<seq<nat>>, writes: seq<nat>)
    requires Executed(s, ran, batches, writes)
    ensures |ran| == |s.calls|
    ensures forall j :: 0 <= j < |s.calls| ==> (ran[j] == Unset <==> Canon(s, j).Some? && Canon(s, j).value.tool == "")
  {
    forall j | 0 <= j < |s.calls| ensures ran[j] == Unset <==> Canon(s, j).Some? && Canon(s, j).value.tool == "" {
      hide RanUpTo, Runnable;
      EverySlotOnce(s, batches, ran, writes, j);
    }
  }

  /** Calls that could not be decoded get their error; the others their result of the
      executor, each in its own place, so none that names a tool is left without one. */
  method ExecToolCalls(calls: seq<NativeCall>, step: seq<Call> -> Step)
      returns (results: seq<Result>, ghost ran: seq<Result>, ghost batches: seq<seq<nat>>, ghost writes: seq<nat>)
    requires forall c :: step(c).calls == c
    ensures |results| == |calls| && |ran| == |Decoded(calls, |calls|)|
    ensures forall i :: 0 <= i < |calls| && calls[i].undecoded ==> results[i] == BadArguments
    ensures ran != [] ==> Executed(step(AsCalls(calls, |calls|)), ran, batches, writes)
    ensures forall j :: 0 <= j < |ran| ==> Decoded(calls, |calls|)[j] < |calls| && results[Decoded(calls, |calls|)[j]] == ran[j]
    ensures forall j :: 0 <= j < |ran| ==>
              var canon := Canon(step(AsCalls(calls, |calls|)), j);
              ran[j] == Unset <==> canon.Some? && canon.value.tool == ""
  {
    hide RanUpTo, Runnable, IsPlan, Decoded;
    var runnable: seq<Call>, idx: seq<nat>;
    results, runnable, idx := SplitCalls(calls);
    DecodedIs(calls, |calls|);
    assert forall j :: 0 <= j < |idx| ==> idx[j] in idx;
    ran, batches, writes := [], [], [];
    if |runnable| > 0 {
      var res, plan, written := ParallelExec(step(runnable));
      ran, batches, writes := res[..], plan, written;
      ExecutedSets(step(runnable), ran, batches, writes);
      results := Scatter(results, idx, res[..]);
    }
  }

  lemma {:induction false} AsCallsAt(calls: seq<NativeCall>, n: nat, j: nat)
    requires n <= |calls| && j < |Decoded(calls, n)|
    ensures Decoded(calls, n)[j] < n
    ensures AsCalls(calls, n)[j] == Call(calls[Decoded(calls, n)[j]].name, calls[Decoded(calls, n)[j]].args)
  {
    if j < |Decoded(calls, n - 1)| { AsCallsAt(calls, n - 1, j); }
  }

  /** So in the message that answers a step no result is missing: every call whose
      arguments decode, and that converts to a call with a name, has a result that says
      what became of it. */
  lemma NoResultMissing(calls: seq<NativeCall>, s: Step, results: seq<Result>, ran: seq<Result>,
                        batches: seq<seq<nat>>, writes: seq<nat>, i: nat)
    requires s.calls == AsCalls(calls, |calls|) && |results| == |calls| && |ran| == |Decoded(calls, |calls|)|
    requires Executed(s, ran, batches, writes) && i < |calls| && !calls[i].undecoded
    requires forall j :: 0 <= j < |ran| ==>
               Decoded(calls, |calls|)[j] < |calls| && results[Decoded(calls, |calls|)[j]] == ran[j]
    ensures var canon := s.canon(Call(calls[i].name, calls[i].args));
            results[i] == Unset <==> canon.Some? && canon.value.tool == ""
  {
    DecodedIs(calls, |calls|);
    hide Executed;
    assert i in Decoded(calls, |calls|);
    var j :| 0 <= j < |Decoded(calls, |calls|)| && Decoded(calls, |calls|)[j] == i;
    AsCallsAt(calls, |calls|, j);
    ExecutedSets(s, ran, batches, writes);
  }
}
