/** How a step's calls are split into batches (internal/agent/llm_runtime.go,
    planToolBatches), and why a mutating call sees all before it and races nothing. */
module ToolBatches {

  function Flat(batches: seq<seq<nat>>): seq<nat> {
    if batches == [] then [] else batches[0] + Flat(batches[1..])
  }

  /** Batches are non-empty, only concurrent calls share one, and a run of concurrent
      calls is never cut in two. */
  ghost predicate Grouped(batches: seq<seq<nat>>, conc: nat -> bool) {
    && (forall k :: 0 <= k < |batches| ==> batches[k] != [])
    && (forall k, j :: 0 <= k < |batches| && 0 <= j < |batches[k]| && |batches[k]| > 1 ==> conc(batches[k][j]))
    && (forall k :: 0 <= k < |batches| - 1 ==> !(conc(batches[k][|batches[k]| - 1]) && conc(batches[k + 1][0])))
  }

  ghost predicate IsPlan(batches: seq<seq<nat>>, indices: seq<nat>, conc: nat -> bool) {
    Flat(batches) == indices && Grouped(batches, conc)
  }

  lemma {:induction false} FlatAppend(a: seq<seq<nat>>, b: seq<nat>)
    ensures Flat(a + [b]) == Flat(a) + b
  {
    if a == [] {
      assert Flat([b]) == b + Flat([b][1..]);
    } else {
      assert (a + [b])[1..] == a[1..] + [b];
      FlatAppend(a[1..], b);
    }
  }

  lemma GroupedAppend(a: seq<seq<nat>>, b: seq<nat>, conc: nat -> bool)
    requires Grouped(a, conc) && b != [] && (|b| > 1 ==> forall j :: 0 <= j < |b| ==> conc(b[j]))
    requires a != [] ==> a[|a| - 1] != [] && !(conc(a[|a| - 1][|a[|a| - 1]| - 1]) && conc(b[0]))
    ensures Grouped(a + [b], conc)
  {
  }

  /** The last call batched so far, if any, was not concurrent. */
  predicate EndsAlone(batches: seq<seq<nat>>, conc: nat -> bool) {
    batches != [] ==> batches[|batches| - 1] != [] && !conc(batches[|batches| - 1][|batches[|batches| - 1]| - 1])
  }

  /** The calls `done` so far: batched, or in the group that is still open. */
  ghost predicate Batched(batches: seq<seq<nat>>, group: seq<nat>, done: seq<nat>, conc: nat -> bool) {
    && Flat(batches) + group == done && Grouped(batches, conc) && EndsAlone(batches, conc)
    && forall j :: 0 <= j < |group| ==> conc(group[j])
  }

  lemma Join(batches: seq<seq<nat>>, group: seq<nat>, done: seq<nat>, conc: nat -> bool, idx: nat)
    requires Batched(batches, group, done, conc) && conc(idx)
    ensures Batched(batches, group + [idx], done + [idx], conc)
  {
    assert Flat(batches) + (group + [idx]) == Flat(batches) + group + [idx];
  }

  lemma Close(batches: seq<seq<nat>>, group: seq<nat>, done: seq<nat>, conc: nat -> bool)
    requires Batched(batches, group, done, conc) && group != []
    ensures IsPlan(batches + [group], done, conc)
  {
    FlatAppend(batches, group);
    GroupedAppend(batches, group, conc);
  }

  lemma Alone(batches: seq<seq<nat>>, done: seq<nat>, conc: nat -> bool, idx: nat)
    requires IsPlan(batches, done, conc) && !conc(idx)
    ensures Batched(batches + [[idx]], [], done + [idx], conc)
  {
    FlatAppend(batches, [idx]);
    GroupedAppend(batches, [idx], conc);
  }

  method PlanToolBatches(indices: seq<nat>, conc: nat -> bool) returns (batches: seq<seq<nat>>)
    ensures IsPlan(batches, indices, conc)
  {
    hide Flat, Grouped, EndsAlone;
    batches := [];
    var group: seq<nat> := [];
    NothingBatched(conc);
    for i := 0 to |indices|
      invariant Batched(batches, group, indices[..i], conc)
    {
      var idx := indices[i];
      assert indices[..i + 1] == indices[..i] + [idx];
      if conc(idx) {
        Join(batches, group, indices[..i], conc, idx);
        group := group + [idx];
        continue;
      }
      if |group| > 0 {
        Close(batches, group, indices[..i], conc);
        batches := batches + [group];
        group := [];
      }
      Alone(batches, indices[..i], conc, idx);
      batches := batches + [[idx]];
    }
    assert indices[..|indices|] == indices;
    if |group| > 0 {
      Close(batches, group, indices, conc);
      batches := batches + [group];
    }
  }

  lemma NothingBatched(conc: nat -> bool)
    ensures Batched([], [], [], conc)
  {
  }

  // ---------------------------------------------------------------------
  // The plan is determined

  lemma GroupedRest(a: seq<seq<nat>>, conc: nat -> bool)
    requires Grouped(a, conc) && a != []
    ensures Grouped(a[1..], conc)
  {
    var r := a[1..];
    forall k | 0 <= k < |r| - 1 ensures !(conc(r[k][|r[k]| - 1]) && conc(r[k + 1][0])) {
      assert r[k] == a[k + 1] && r[k + 1] == a[k + 2];
    }
  }

  lemma FirstOfFlat(a: seq<seq<nat>>, conc: nat -> bool)
    requires Grouped(a, conc)
    ensures a == [] <==> Flat(a) == []
    ensures a != [] ==> |Flat(a)| >= |a[0]| && Flat(a)[0] == a[0][0]
  {
    if a != [] { assert Flat(a)[0] == a[0][0]; }
  }

  lemma NextFirst(a: seq<seq<nat>>, conc: nat -> bool)
    requires Grouped(a, conc) && a != [] && |Flat(a)| > |a[0]|
    ensures |a| > 1 && Flat(a)[|a[0]|] == a[1][0]
  {
    GroupedRest(a, conc);
    FirstOfFlat(a[1..], conc);
  }

  /** A first batch is as long as the other plan's. */
  lemma FirstNotShorter(a: seq<seq<nat>>, b: seq<seq<nat>>, indices: seq<nat>, conc: nat -> bool)
    requires IsPlan(a, indices, conc) && IsPlan(b, indices, conc) && a != [] && b != []
    ensures |a[0]| >= |b[0]|
  {
    var n := |a[0]|;
    if n < |b[0]| {
      assert indices[n - 1] == a[0][n - 1] == b[0][n - 1] && indices[n] == b[0][n];
      NextFirst(a, conc);
    }
  }

  lemma {:induction false} PlanIsUnique(a: seq<seq<nat>>, b: seq<seq<nat>>, indices: seq<nat>, conc: nat -> bool)
    requires IsPlan(a, indices, conc) && IsPlan(b, indices, conc)
    ensures a == b
  {
    FirstOfFlat(a, conc);
    FirstOfFlat(b, conc);
    if a != [] {
      FirstNotShorter(a, b, indices, conc);
      FirstNotShorter(b, a, indices, conc);
      assert a[0] == indices[..|a[0]|] == b[0];
      assert Flat(a[1..]) == indices[|a[0]|..] == Flat(b[1..]);
      GroupedRest(a, conc);
      GroupedRest(b, conc);
      PlanIsUnique(a[1..], b[1..], indices[|a[0]|..], conc);
      assert a == [a[0]] + a[1..] && b == [b[0]] + b[1..];
    }
  }

  // ---------------------------------------------------------------------
  // Batches run one after another

  datatype Event = Start(call: nat) | End(call: nat)

  /** What a batch logs while it runs: each call starts once and ends once, later. */
  ghost predicate BatchLog(batch: seq<nat>, log: seq<Event>) {
    && (forall p :: 0 <= p < |log| ==> log[p].call in batch)
    && (forall p, q :: 0 <= p < q < |log| ==> log[p] != log[q])
    && (forall p, q :: 0 <= p < |log| && 0 <= q < |log| && log[p] == Start(log[q].call) && log[q].End? ==> p < q)
    && (forall j :: 0 <= j < |batch| ==> Start(batch[j]) in log && End(batch[j]) in log)
  }

  ghost predicate StepLog(batches: seq<seq<nat>>, logs: seq<seq<Event>>) {
    |logs| == |batches| && forall k :: 0 <= k < |batches| ==> BatchLog(batches[k], logs[k])
  }

  predicate Increasing(s: seq<nat>) {
    forall i, j :: 0 <= i < j < |s| ==> s[i] < s[j]
  }

  lemma {:induction false} LaterIsLarger(batches: seq<seq<nat>>, k: nat, m: nat, x: nat, y: nat)
    requires Increasing(Flat(batches)) && k < m < |batches| && x in batches[k] && y in batches[m]
    ensures x < y
  {
    var f, rest := Flat(batches), Flat(batches[1..]);
    assert forall i :: 0 <= i < |rest| ==> rest[i] == f[|batches[0]| + i];
    if k == 0 {
      InFlat(batches[1..], m - 1, y);
      var i :| 0 <= i < |batches[0]| && batches[0][i] == x;
      var j :| 0 <= j < |rest| && rest[j] == y;
      assert f[i] == x && f[|batches[0]| + j] == y;
    } else {
      LaterIsLarger(batches[1..], k - 1, m - 1, x, y);
    }
  }

  lemma {:induction false} InFlat(batches: seq<seq<nat>>, k: nat, x: nat)
    requires k < |batches| && x in batches[k]
    ensures x in Flat(batches)
  {
    if k > 0 { InFlat(batches[1..], k - 1, x); }
  }

  /** The moment an event has: its batch, then its place in the batch's log. */
  predicate Precedes(k: nat, p: nat, m: nat, q: nat) {
    k < m || (k == m && p < q)
  }

  /** However the calls of a batch interleave: when a call that is not concurrent
      starts, every call before it has ended, and none after it starts before it has
      ended. */
  lemma MutatingCallsAreSerial(batches: seq<seq<nat>>, indices: seq<nat>, conc: nat -> bool, logs: seq<seq<Event>>,
                               k: nat, p: nat, m: nat, q: nat)
    requires IsPlan(batches, indices, conc) && Increasing(indices) && StepLog(batches, logs)
    requires k < |logs| && p < |logs[k]| && m < |logs| && q < |logs[m]|
    requires !conc(logs[k][p].call)
    ensures logs[k][p].Start? && logs[m][q].call < logs[k][p].call ==> Precedes(m, q, k, p)
    ensures logs[k][p].End? && logs[m][q].call > logs[k][p].call ==> Precedes(k, p, m, q)
  {
    var i, j := logs[k][p].call, logs[m][q].call;
    assert BatchLog(batches[k], logs[k]) && BatchLog(batches[m], logs[m]);
    assert i in batches[k] && j in batches[m];
    if k < m {
      LaterIsLarger(batches, k, m, i, j);
    } else if m < k {
      LaterIsLarger(batches, m, k, j, i);
    } else {
      assert |batches[k]| == 1;
    }
  }
}
