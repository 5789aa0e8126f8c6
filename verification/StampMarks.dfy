/** Exactly when the guard's marks stand (internal/agent/file_stamps.go): over any run, what
    sets the shell mark of a file and what lifts it, whose content its stamps hold, and,
    within the budgets, which files a shell window absorbs. */
module StampMarks {
  import opened Wrappers
  import opened FileStamps
  import opened StampRuns

  // ---------------------------------------------------------------------
  // One event

  /** The agent reads the file, or writes the whole of it. */
  predicate Lifts(e: Event, key: Key) { (e.Read? && e.key == key) || (e.AgentWrite? && e.full && e.key == key) }

  /** The end of a shell window changes the file's stamp. */
  predicate Marks(before: World, e: Event, after: World, key: Key) {
    e.CloseWindow? && Lookup(after.guard.seen, key) != Lookup(before.guard.seen, key)
  }

  /** A re-stamping pass marks exactly the files whose stamp it changes, gives them the
      content on the disk, and leaves every read stamp. */
  lemma {:induction false} RestampMarks(g: Guard, disk: Disk, snap: seq<ShellStamp>, at: int, key: Key)
    ensures var g' := RestampAll(g, disk, snap, at).guard;
            && (key in g'.shell <==> key in g.shell || Lookup(g'.seen, key) != Lookup(g.seen, key))
            && (Lookup(g'.seen, key) != Lookup(g.seen, key) ==> key in disk && Lookup(g'.seen, key) == Some(disk[key].content))
            && g'.read == g.read
  {
    if snap != [] { RestampMarks(g, disk, snap[..|snap| - 1], at, key); }
  }

  /** After an event the mark stands exactly if the event does not lift it, and it stood
      before or the event sets it. */
  lemma ShellStep(w: World, e: Event, key: Key)
    requires Possible(w, e)
    ensures key in Do(w, e).guard.shell <==> !Lifts(e, key) && (key in w.guard.shell || Marks(w, e, Do(w, e), key))
  {
    hide RestampAll;
    if e.CloseWindow? { RestampMarks(w.guard, w.disk, w.window.value, w.now, key); }
  }

  /** Only reads touch what was read, and only reads, writes and marks what is stamped. */
  lemma StampStep(w: World, e: Event, key: Key)
    requires Possible(w, e)
    ensures var g, g' := w.guard, Do(w, e).guard;
            && Lookup(g'.read, key) == (if e.Read? && e.key == key then Some(e.got) else Lookup(g.read, key))
            && (e.Read? && e.key == key ==> Lookup(g'.seen, key) == Some(e.got))
            && (e.AgentWrite? && e.key == key ==> Lookup(g'.seen, key) == Some(e.wrote.content))
            && (Marks(w, e, Do(w, e), key) ==> key in w.disk && Lookup(g'.seen, key) == Some(w.disk[key].content))
            && (!Sets(w, e, Do(w, e), key) ==> Lookup(g'.seen, key) == Lookup(g.seen, key))
  {
    hide RestampAll;
    if e.CloseWindow? { RestampMarks(w.guard, w.disk, w.window.value, w.now, key); }
  }

  predicate Sets(before: World, e: Event, after: World, key: Key) {
    (e.Read? && e.key == key) || (e.AgentWrite? && e.key == key) || Marks(before, e, after, key)
  }

  // ---------------------------------------------------------------------
  // Every run

  predicate LiftedBefore(events: seq<Event>, j: nat, key: Key)
    requires j <= |events|
  {
    exists k :: 0 <= k < j && Lifts(events[k], key)
  }

  /** Lifted behind the `i`-th event and before the `j`-th. */
  predicate LiftedAfter(events: seq<Event>, i: nat, j: nat, key: Key)
    requires j <= |events|
  {
    exists k :: i < k < j && Lifts(events[k], key)
  }

  /** The `i`-th event marks the file, and nothing behind it and before the `j`-th lifts that. */
  ghost predicate MarkedAt(trace: seq<World>, events: seq<Event>, i: nat, j: nat, key: Key)
    requires |trace| == |events| + 1 && j <= |events|
  {
    i < j && Marks(trace[i], events[i], trace[i + 1], key) && !LiftedAfter(events, i, j, key)
  }

  ghost predicate MarkedSince(trace: seq<World>, events: seq<Event>, j: nat, key: Key)
    requires |trace| == |events| + 1 && j <= |events|
  {
    exists i: nat :: MarkedAt(trace, events, i, j, key)
  }

  /** In every run a file bears the shell mark -- so that overwriting it is refused -- exactly
      if a shell window changed its stamp, or it bore the mark at the start, and the agent has
      neither read it nor written the whole of it since. */
  lemma {:induction false} ShellMarkIff(trace: seq<World>, events: seq<Event>, j: nat, key: Key)
    requires Run(trace, events) && j < |trace|
    ensures key in trace[j].guard.shell <==>
            MarkedSince(trace, events, j, key) || (key in trace[0].guard.shell && !LiftedBefore(events, j, key))
  {
    hide Do, Lifts, Marks, MarkedSince, MarkedAt, LiftedBefore;
    if j == 0 {
      NothingYet(trace, events, key);
    } else {
      ShellMarkIff(trace, events, j - 1, key);
      ShellStep(trace[j - 1], events[j - 1], key);
      NotBoth(trace[j - 1], events[j - 1], trace[j], key);
      LiftedStep(events, j, key);
      MarkedStep(trace, events, j, key);
    }
  }

  lemma NothingYet(trace: seq<World>, events: seq<Event>, key: Key)
    requires |trace| == |events| + 1
    ensures !MarkedSince(trace, events, 0, key) && !LiftedBefore(events, 0, key)
  {
  }

  lemma NotBoth(before: World, e: Event, after: World, key: Key)
    ensures Lifts(e, key) ==> !Marks(before, e, after, key)
  {
  }

  lemma LiftedStep(events: seq<Event>, j: nat, key: Key)
    requires 0 < j <= |events|
    ensures LiftedBefore(events, j, key) <==> LiftedBefore(events, j - 1, key) || Lifts(events[j - 1], key)
  {
    hide Lifts;
  }

  lemma LiftedAfterStep(events: seq<Event>, i: nat, j: nat, key: Key)
    requires i < j - 1 < |events|
    ensures LiftedAfter(events, i, j, key) <==> LiftedAfter(events, i, j - 1, key) || Lifts(events[j - 1], key)
  {
    hide Lifts;
  }

  lemma MarkedAtStep(trace: seq<World>, events: seq<Event>, i: nat, j: nat, key: Key)
    requires |trace| == |events| + 1 && 0 < j <= |events|
    ensures MarkedAt(trace, events, i, j, key) <==>
            if i == j - 1 then Marks(trace[j - 1], events[j - 1], trace[j], key)
            else MarkedAt(trace, events, i, j - 1, key) && !Lifts(events[j - 1], key)
  {
    hide Lifts, Marks;
    if i < j - 1 { LiftedAfterStep(events, i, j, key); }
  }

  lemma MarkedStep(trace: seq<World>, events: seq<Event>, j: nat, key: Key)
    requires |trace| == |events| + 1 && 0 < j <= |events|
    ensures MarkedSince(trace, events, j, key) <==>
            Marks(trace[j - 1], events[j - 1], trace[j], key) ||
            (MarkedSince(trace, events, j - 1, key) && !Lifts(events[j - 1], key))
  {
    hide Lifts, Marks;
    MarkedAtStep(trace, events, j - 1, j, key);
    forall i: nat | i != j - 1
      ensures MarkedAt(trace, events, i, j, key) <==> MarkedAt(trace, events, i, j - 1, key) && !Lifts(events[j - 1], key)
    {
      MarkedAtStep(trace, events, i, j, key);
    }
    SinceStep(trace, events, j, key);
  }

  lemma SinceStep(trace: seq<World>, events: seq<Event>, j: nat, key: Key)
    requires |trace| == |events| + 1 && 0 < j <= |events|
    requires forall i: nat :: i != j - 1 ==>
               (MarkedAt(trace, events, i, j, key) <==> MarkedAt(trace, events, i, j - 1, key) && !Lifts(events[j - 1], key))
    ensures MarkedSince(trace, events, j, key) <==>
            MarkedAt(trace, events, j - 1, j, key) || (MarkedSince(trace, events, j - 1, key) && !Lifts(events[j - 1], key))
  {
    NotYet(trace, events, j - 1, key);
    hide MarkedAt, Lifts;
    if MarkedSince(trace, events, j, key) {
      var i: nat :| MarkedAt(trace, events, i, j, key);
      if i != j - 1 { assert MarkedAt(trace, events, i, j - 1, key); }
    }
    if MarkedSince(trace, events, j - 1, key) && !Lifts(events[j - 1], key) {
      var i: nat :| MarkedAt(trace, events, i, j - 1, key);
      assert MarkedAt(trace, events, i, j, key);
    }
  }

  lemma NotYet(trace: seq<World>, events: seq<Event>, j: nat, key: Key)
    requires |trace| == |events| + 1 && j <= |events|
    ensures !MarkedAt(trace, events, j, j, key)
  {
  }

  predicate IsRead(e: Event, key: Key) { e.Read? && e.key == key }

  /** The read stamp is what the last read of the file got. */
  lemma {:induction false} ReadStampIs(trace: seq<World>, events: seq<Event>, i: nat, j: nat, key: Key)
    requires Run(trace, events) && i < j < |trace| && IsRead(events[i], key)
    requires forall k :: i < k < j ==> !IsRead(events[k], key)
    ensures Lookup(trace[j].guard.read, key) == Some(events[i].got)
    decreases j
  {
    hide Do;
    StampStep(trace[j - 1], events[j - 1], key);
    if i < j - 1 { ReadStampIs(trace, events, i, j - 1, key); }
  }

  /** The stamp is what the last read got, the last write wrote, or the disk held at the end
      of the last shell window that changed it, whichever came last. */
  lemma {:induction false} StampIs(trace: seq<World>, events: seq<Event>, i: nat, j: nat, key: Key)
    requires Run(trace, events) && i < j < |trace| && Sets(trace[i], events[i], trace[i + 1], key)
    requires forall k :: i < k < j ==> !Sets(trace[k], events[k], trace[k + 1], key)
    ensures Lookup(trace[j].guard.seen, key) ==
            if events[i].Read? then Some(events[i].got)
            else if events[i].AgentWrite? then Some(events[i].wrote.content)
            else if key in trace[i].disk then Some(trace[i].disk[key].content) else None
    decreases j
  {
    hide Do;
    assert trace[j] == Do(trace[j - 1], events[j - 1]);
    StampStep(trace[j - 1], events[j - 1], key);
    if i < j - 1 { StampIs(trace, events, i, j - 1, key); }
  }

  // ---------------------------------------------------------------------
  // What a shell window absorbs, within the budgets

  function SizeOf(disk: Disk, key: Key): nat { if key in disk then disk[key].id.size else 0 }

  function Sizes(disk: Disk, keys: seq<Key>): nat {
    if keys == [] then 0 else Sizes(disk, keys[..|keys| - 1]) + SizeOf(disk, keys[|keys| - 1])
  }

  lemma {:induction false} SizesGrow(disk: Disk, keys: seq<Key>, n: nat)
    requires n <= |keys|
    ensures Sizes(disk, keys[..n]) <= Sizes(disk, keys)
  {
    if n == |keys| {
      assert keys[..n] == keys;
    } else {
      SizesGrow(disk, keys[..|keys| - 1], n);
      assert keys[..|keys| - 1][..n] == keys[..n];
    }
  }

  predicate Holds(w: World, key: Key) { key in w.disk && key in w.guard.seen && w.disk[key].content == w.guard.seen[key] }

  /** Up to 32 files of up to 8 MB together: the snapshot takes exactly the stamped files that
      hold their stamped content. */
  lemma {:induction false} SnapshotTakes(w: World, keys: seq<Key>)
    requires AllIdentities(w) && (forall k :: k in keys ==> k in w.guard.seen)
    requires |keys| <= MAX_VERIFY_FILES && Sizes(w.disk, keys) <= MAX_VERIFY_BYTES
    ensures var s := SnapAll(w.guard, w.disk, keys, w.now);
            && s.files <= |keys| && s.bytes <= Sizes(w.disk, keys)
            && forall key :: Covers(s.out, key) <==> key in keys && Holds(w, key)
  {
    hide IdentityHolds;
    if keys != [] {
      var init, last := keys[..|keys| - 1], keys[|keys| - 1];
      SnapshotTakes(w, init);
      var s0 := SnapAll(w.guard, w.disk, init, w.now);
      var _ := SnapSound(w, keys);
      var s := SnapAll(w.guard, w.disk, keys, w.now);
      SnapOneTakes(w, s0, last);
      forall key ensures Covers(s.out, key) <==> key in keys && Holds(w, key) {
        assert Covers(s0.out, key) <==> key in init && Holds(w, key);
        assert key in keys <==> key in init || key == last;
        if Covers(s.out, key) && !Covers(s0.out, key) {
          var i :| 0 <= i < |s.out| && s.out[i].key == key;
          assert Holding(w, s.out[i]);
        }
        CoversMore(s0.out, s.out, key);
      }
    }
  }

  lemma SnapOneTakes(w: World, s0: Snap, key: Key)
    requires key in w.guard.seen && s0.guard.seen == w.guard.seen
    requires s0.files < MAX_VERIFY_FILES && s0.bytes + SizeOf(w.disk, key) <= MAX_VERIFY_BYTES
    ensures var s := SnapOne(s0, w.disk, key, w.now);
            && s.files <= s0.files + 1 && s.bytes <= s0.bytes + SizeOf(w.disk, key)
            && s0.out <= s.out && (|s.out| > |s0.out| ==> |s.out| == |s0.out| + 1 && s.out[|s0.out|].key == key)
            && (Holds(w, key) ==> |s.out| > |s0.out|)
  {
  }

  lemma CoversMore(a: seq<ShellStamp>, b: seq<ShellStamp>, key: Key)
    requires a <= b && |b| <= |a| + 1
    ensures Covers(b, key) <==> Covers(a, key) || (|b| > |a| && b[|a|].key == key)
  {
    if Covers(a, key) {
      var i :| 0 <= i < |a| && a[i].key == key;
      assert b[i].key == key;
    }
    if |b| > |a| && b[|a|].key == key { assert Covers(b, key); }
    if Covers(b, key) {
      var i :| 0 <= i < |b| && b[i].key == key;
      if i < |a| { assert a[i].key == key; }
    }
  }

  function SnapSizes(disk: Disk, snap: seq<ShellStamp>): nat {
    if snap == [] then 0 else SnapSizes(disk, snap[..|snap| - 1]) + SizeOf(disk, snap[|snap| - 1].key)
  }

  /** Up to 32 MB together: behind the command every taken file that is there with another
      identity, and whose stamp nothing replaced meanwhile, is stamped with what it holds now,
      and marked if that is something else. */
  lemma {:induction false} RestampTakes(g: Guard, disk: Disk, snap: seq<ShellStamp>, at: int, i: nat)
    requires SnapSizes(disk, snap) <= MAX_RESTAMP_BYTES && i < |snap|
    requires snap[i].key in disk && disk[snap[i].key].id != snap[i].before && Lookup(g.seen, snap[i].key) == Some(snap[i].sum)
    ensures var r := RestampAll(g, disk, snap, at);
            && r.budget >= MAX_RESTAMP_BYTES - SnapSizes(disk, snap)
            && Lookup(r.guard.seen, snap[i].key) == Some(disk[snap[i].key].content)
            && (disk[snap[i].key].content != snap[i].sum ==> snap[i].key in r.guard.shell)
  {
    var init, last := snap[..|snap| - 1], snap[|snap| - 1];
    BudgetLeft(g, disk, init, at);
    RestampMarks(g, disk, snap, at, snap[i].key);
    RestampMarks(g, disk, init, at, snap[i].key);
    if i < |init| {
      RestampTakes(g, disk, init, at, i);
      RestampKeeps(RestampAll(g, disk, init, at), disk, last, at, snap[i].key);
    }
  }

  lemma {:induction false} BudgetLeft(g: Guard, disk: Disk, snap: seq<ShellStamp>, at: int)
    ensures RestampAll(g, disk, snap, at).budget >= MAX_RESTAMP_BYTES - SnapSizes(disk, snap)
  {
    if snap != [] { BudgetLeft(g, disk, snap[..|snap| - 1], at); }
  }

  lemma RestampKeeps(r: Restamp, disk: Disk, s: ShellStamp, at: int, key: Key)
    requires key in disk && Lookup(r.guard.seen, key) == Some(disk[key].content)
    ensures Lookup(RestampOne(r, disk, s, at).guard.seen, key) == Some(disk[key].content)
  {
  }
}
