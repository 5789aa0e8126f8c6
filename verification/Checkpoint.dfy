/** The step checkpoints of a run (internal/agent/checkpoint_policy.go and
    checkpoint_speculative.go): at most one snapshot a step, before its first mutating
    call, either taken then or prepared during generation and claimed. */
module Checkpoint {
  import opened Wrappers
  import opened FileStamps
  import StampHistory

  /** Thirty seconds in nanoseconds. */
  const MAX_AGE: int := 30_000_000_000

  /** What the stats of the known files gave; an absent file has none. */
  type Stats = map<Key, Option<Identity>>

  /** A prepared (or preparing) snapshot; `ok` is what preparing comes to. */
  datatype Preparation = Preparation(id: nat, started: int, ok: bool, known: Stats, incomplete: bool)

  /** The surroundings of an operation: the clock, background work, whether a
      preparation has finished and will succeed, the stats of the stamped files and
      whether there were too many, and whether the host accepts a claim. */
  datatype Env = Env(now: int, background: bool, finished: bool, ok: bool, stamped: seq<Key>, tooMany: bool,
                     stats: map<Key, Identity>, accepts: bool)

  /** What happened, in order.  `Dropped` gives up what is prepared, if anything is; `Wrote`
      is a call that may write the tree, about to run;
      a claim names its preparation by the preparation's place in the log, and says
      whether the tracked files were staged again. */
  datatype Event =
    | NewStep
    | Prepared(result: Preparation, env: Env)
    | Dropped
    | Wrote(mutating: bool)
    | Took(tool: string)
    | Claimed(prep: nat, env: Env, refreshed: bool)

  type Log = seq<Event>

  datatype Machine = Machine(speculative: Option<Preparation>, dirty: bool, runDone: bool, stepDone: bool, log: Log)

  const INITIAL := Machine(None, false, false, false, [])

  function Stat(e: Env, key: Key): Option<Identity> {
    if key in e.stats then Some(e.stats[key]) else None
  }

  predicate LastChangedBefore(id: Identity, t: int) {
    id.ctime != 0 && Max(id.mtime, id.ctime) <= t - RACY_WINDOW
  }

  /** Every known file is as it was, as far as a stat can tell. */
  predicate Unchanged(p: Preparation, e: Env) {
    && !p.incomplete && (forall key :: key in p.known ==> Stat(e, key) == p.known[key])
    && !e.tooMany
    && (forall key :: key in e.stamped && key !in p.known ==>
          Stat(e, key).Some? && LastChangedBefore(Stat(e, key).value, p.started))
  }

  predicate Reusable(p: Preparation, e: Env) {
    e.now - p.started < MAX_AGE && (!e.finished || p.ok)
  }

  function KnownFiles(e: Env): Stats { map key | key in e.stamped :: Stat(e, key) }

  // ---------------------------------------------------------------------
  // The operations

  function Prepare(m: Machine, e: Env): Machine {
    if !m.runDone || (m.speculative.Some? && !m.dirty && Reusable(m.speculative.value, e)) then m
    else if e.background then m.(speculative := None, dirty := false, log := m.log + [Dropped])
    else
      var p := Preparation(|m.log|, e.now, e.ok, KnownFiles(e), e.tooMany);
      m.(speculative := Some(p), dirty := false, log := m.log + [Prepared(p, e)])
  }

  predicate MayClaim(m: Machine, e: Env) {
    && m.speculative.Some? && !m.dirty && m.speculative.value.ok
    && e.now - m.speculative.value.started < MAX_AGE && !e.background && e.accepts
  }

  function Take(m: Machine, tool: string, e: Env): Machine {
    if m.stepDone then m
    else
      var p := m.speculative;
      Machine(None, m.dirty, true, true,
              m.log + [if MayClaim(m, e) then Claimed(p.value.id, e, !Unchanged(p.value, e)) else Took(tool)])
  }

  function Use(m: Machine, readOnly: bool, mutating: bool): Machine {
    if readOnly then m else m.(dirty := true, log := m.log + [Wrote(mutating)])
  }

  function Reset(m: Machine): Machine {
    m.(stepDone := false, log := m.log + [NewStep])
  }

  /** A call about to run: its checkpoint, if it needs one, then the note of its use. */
  function Execute(m: Machine, tool: string, mutating: bool, readOnly: bool, e: Env): Machine {
    Use(if mutating then Take(m, tool, e) else m, readOnly, mutating)
  }

  // ---------------------------------------------------------------------
  // What a log must be like

  predicate Takes(e: Event) { e.Took? || e.Claimed? }

  /** No event of the log strictly between two places is a new step. */
  predicate SameStep(log: Log, p: nat, q: nat) {
    forall r :: p < r < q && r < |log| ==> !log[r].NewStep?
  }

  /** A preparation begins with no background work, and holds what the stats of the
      stamped files gave as it began. */
  predicate PreparationIsSound(log: Log, q: nat)
    requires q < |log| && log[q].Prepared?
  {
    var p, e := log[q].result, log[q].env;
    && p == Preparation(q, e.now, e.ok, KnownFiles(e), e.tooMany) && !e.background
    && exists r :: 0 <= r < q && Takes(log[r])
  }

  /** A claim is of a successful preparation under 30 s old, with no background work, that
      nothing claimed before and no possible write followed; the tracked files are staged
      again unless the stats of the known files show nothing changed. */
  predicate ClaimIsSound(log: Log, q: nat)
    requires q < |log| && log[q].Claimed?
  {
    var c := log[q];
    && c.prep < q && log[c.prep].Prepared? && log[c.prep].result.ok
    && c.env.now - log[c.prep].result.started < MAX_AGE && !c.env.background && c.env.accepts
    && (c.refreshed <==> !Unchanged(log[c.prep].result, c.env))
    && (forall r :: c.prep < r < q ==> !log[r].Wrote?)
    && (forall r :: 0 <= r < q && log[r].Claimed? ==> log[r].prep != c.prep)
  }

  /** At most one snapshot a step, and before every mutating call of the step. */
  predicate SnapshotIsFirst(log: Log, q: nat)
    requires q < |log| && Takes(log[q])
  {
    forall p :: 0 <= p < q && (Takes(log[p]) || log[p] == Wrote(true)) ==> !SameStep(log, p, q)
  }

  predicate SnapshotBefore(log: Log, q: nat)
    requires q < |log|
  {
    exists p :: 0 <= p < q && Takes(log[p]) && SameStep(log, p, q)
  }

  /** Preparing ahead begins only after a first snapshot. */
  predicate Sound(log: Log) {
    && (forall q: nat :: q < |log| && log[q].Claimed? ==> ClaimIsSound(log, q))
    && (forall q: nat :: q < |log| && Takes(log[q]) ==> SnapshotIsFirst(log, q))
    && (forall q: nat :: q < |log| && log[q] == Wrote(true) ==> SnapshotBefore(log, q))
    && (forall q: nat :: q < |log| && log[q].Prepared? ==> PreparationIsSound(log, q))
  }

  // ---------------------------------------------------------------------
  // The invariant

  predicate PreparationFits(m: Machine) {
    m.speculative.Some? ==>
      var p := m.speculative.value;
      && p.id < |m.log| && m.log[p.id].Prepared? && m.log[p.id].result == p
      && (!m.dirty ==> forall r :: p.id < r < |m.log| ==> !m.log[r].Wrote?)
      && (forall r :: 0 <= r < |m.log| && m.log[r].Claimed? ==> m.log[r].prep != p.id)
  }

  predicate StepFits(m: Machine) {
    if m.stepDone then exists p :: 0 <= p < |m.log| && Takes(m.log[p]) && SameStep(m.log, p, |m.log|)
    else forall p :: 0 <= p < |m.log| && (Takes(m.log[p]) || m.log[p] == Wrote(true)) ==> !SameStep(m.log, p, |m.log|)
  }

  predicate Inv(m: Machine) {
    && Sound(m.log) && PreparationFits(m) && StepFits(m)
    && (m.runDone ==> exists p :: 0 <= p < |m.log| && Takes(m.log[p]))
  }

  /** Appending keeps what the log already says, and asks only of the new event. */
  lemma SoundAppend(log: Log, e: Event)
    requires Sound(log)
    requires e.Claimed? ==> ClaimIsSound(log + [e], |log|)
    requires Takes(e) ==> SnapshotIsFirst(log + [e], |log|)
    requires e == Wrote(true) ==> SnapshotBefore(log + [e], |log|)
    requires e.Prepared? ==> PreparationIsSound(log + [e], |log|)
    ensures Sound(log + [e])
  {
    var l := log + [e];
    forall q: nat | q < |log| && log[q].Claimed? ensures ClaimIsSound(l, q) { assert ClaimIsSound(log, q); }
    forall q: nat | q < |log| && Takes(log[q]) ensures SnapshotIsFirst(l, q) {
      assert SnapshotIsFirst(log, q);
      forall p: nat | p < q && (Takes(l[p]) || l[p] == Wrote(true)) ensures !SameStep(l, p, q) { SameStepAppend(log, e, p, q); }
    }
    forall q: nat | q < |log| && log[q] == Wrote(true) ensures SnapshotBefore(l, q) {
      var p: nat :| p < q && Takes(log[p]) && SameStep(log, p, q);
      SameStepAppend(log, e, p, q);
      assert Takes(l[p]) && SameStep(l, p, q);
    }
    forall q: nat | q < |log| && log[q].Prepared? ensures PreparationIsSound(l, q) {
      assert PreparationIsSound(log, q);
      var p :| 0 <= p < q && Takes(log[p]);
      assert Takes(l[p]);
    }
  }

  lemma SameStepAppend(log: Log, e: Event, p: nat, q: nat)
    requires q <= |log|
    ensures SameStep(log + [e], p, q) == SameStep(log, p, q)
  {
    if SameStep(log + [e], p, q) {
      forall r | p < r < q ensures !log[r].NewStep? { assert !(log + [e])[r].NewStep?; }
    }
  }

  /** An event other than a new step keeps the step open at the end. */
  lemma StepGoesOn(log: Log, e: Event, p: nat)
    requires p < |log|
    ensures SameStep(log + [e], p, |log| + 1) <==> SameStep(log, p, |log|) && !e.NewStep?
  {
    SameStepAppend(log, e, p, |log|);
    assert (log + [e])[|log|] == e;
    if SameStep(log + [e], p, |log| + 1) {
      forall r | p < r < |log| ensures !(log + [e])[r].NewStep? {}
    }
  }

  /** An event that neither snapshots nor starts a step leaves the step as it is. */
  lemma StepFitsAppend(m: Machine, m': Machine, e: Event)
    requires StepFits(m) && m'.log == m.log + [e] && m'.stepDone == m.stepDone
    requires !e.NewStep? && !Takes(e) && (e == Wrote(true) ==> m.stepDone)
    ensures StepFits(m')
  {
    hide SameStep;
    forall p: nat | p < |m.log| ensures SameStep(m'.log, p, |m'.log|) == SameStep(m.log, p, |m.log|) {
      StepGoesOn(m.log, e, p);
    }
    if m.stepDone {
      var p: nat :| p < |m.log| && Takes(m.log[p]) && SameStep(m.log, p, |m.log|);
      assert Takes(m'.log[p]) && SameStep(m'.log, p, |m'.log|);
    }
  }

  lemma RunFitsAppend(m: Machine, m': Machine, e: Event)
    requires m.runDone ==> exists p :: 0 <= p < |m.log| && Takes(m.log[p])
    requires m'.log == m.log + [e] && m'.runDone == m.runDone
    ensures m'.runDone ==> exists p :: 0 <= p < |m'.log| && Takes(m'.log[p])
  {
    if m.runDone {
      var p :| 0 <= p < |m.log| && Takes(m.log[p]);
      assert Takes(m'.log[p]);
    }
  }

  /** A new preparation is one that no claim names. */
  lemma ClaimsAreOlder(log: Log)
    requires Sound(log)
    ensures forall r: nat :: r < |log| && log[r].Claimed? ==> log[r].prep < |log|
  {
    forall r: nat | r < |log| && log[r].Claimed? ensures log[r].prep < |log| { assert ClaimIsSound(log, r); }
  }

  lemma PrepareKeeps(m: Machine, e: Env)
    requires Inv(m)
    ensures Inv(Prepare(m, e))
  {
    hide Reusable, KnownFiles, Sound, StepFits;
    var m' := Prepare(m, e);
    if m'.log == m.log {
      StepFitsSame(m, m');
    } else {
      var event := if e.background then Dropped else Prepared(m'.speculative.value, e);
      RunFitsAppend(m, m', event);
      SoundAppend(m.log, event);
      StepFitsAppend(m, m', event);
      ClaimsAreOlder(m.log);
    }
  }

  lemma StepFitsSame(m: Machine, m': Machine)
    requires StepFits(m) && m'.log == m.log && m'.stepDone == m.stepDone
    ensures StepFits(m')
  {
  }

  /** The first snapshot of a step follows nothing in the step that it should precede. */
  lemma TakeIsFirst(m: Machine, e: Event)
    requires StepFits(m) && !m.stepDone && Takes(e)
    ensures SnapshotIsFirst(m.log + [e], |m.log|)
  {
    hide SameStep;
    var l := m.log + [e];
    forall p: nat | p < |m.log| && (Takes(l[p]) || l[p] == Wrote(true)) ensures !SameStep(l, p, |m.log|) {
      SameStepAppend(m.log, e, p, |m.log|);
    }
  }

  lemma TakeKeeps(m: Machine, tool: string, e: Env)
    requires Inv(m)
    ensures Inv(Take(m, tool, e)) && Take(m, tool, e).stepDone
  {
    hide Unchanged, Sound, SnapshotIsFirst, SnapshotBefore;
    if !m.stepDone {
      var m' := Take(m, tool, e);
      var event := m'.log[|m.log|];
      assert m'.log == m.log + [event] && Takes(event);
      TakeIsFirst(m, event);
      SoundAppend(m.log, event);
      assert Takes(m'.log[|m.log|]) && SameStep(m'.log, |m.log|, |m'.log|);
    }
  }

  lemma UseKeeps(m: Machine, readOnly: bool, mutating: bool)
    requires Inv(m) && (mutating ==> m.stepDone)
    ensures Inv(Use(m, readOnly, mutating))
  {
    hide Sound;
    var event := Wrote(mutating);
    if !readOnly {
      if mutating { StepHasSnapshot(m, event); }
      SoundAppend(m.log, event);
      StepFitsAppend(m, Use(m, readOnly, mutating), event);
      RunFitsAppend(m, Use(m, readOnly, mutating), event);
    }
  }

  lemma StepHasSnapshot(m: Machine, e: Event)
    requires StepFits(m) && m.stepDone
    ensures SnapshotBefore(m.log + [e], |m.log|)
  {
    hide SameStep;
    var p: nat :| p < |m.log| && Takes(m.log[p]) && SameStep(m.log, p, |m.log|);
    SameStepAppend(m.log, e, p, |m.log|);
    assert Takes((m.log + [e])[p]);
  }

  lemma ResetKeeps(m: Machine)
    requires Inv(m)
    ensures Inv(Reset(m))
  {
    hide Sound;
    var m' := Reset(m);
    SoundAppend(m.log, NewStep);
    RunFitsAppend(m, m', NewStep);
    assert m'.log[|m.log|].NewStep?;
  }

  lemma ExecuteKeeps(m: Machine, tool: string, mutating: bool, readOnly: bool, e: Env)
    requires Inv(m)
    ensures Inv(Execute(m, tool, mutating, readOnly, e))
  {
    hide Inv, Take;
    if mutating { TakeKeeps(m, tool, e); }
    UseKeeps(if mutating then Take(m, tool, e) else m, readOnly, mutating);
  }

  // ---------------------------------------------------------------------
  // What the stats prove

  function Shown(f: Option<File>): Option<Identity> {
    if f.Some? then Some(f.value.id) else None
  }

  function Held(f: Option<File>): Option<Content> {
    if f.Some? then Some(f.value.content) else None
  }

  /** How a file's history may lie around a preparation and a claim: `k` changes before
      the preparation began, `w` when it stat'ed the file, if it was known then, `g` when
      it staged it, `m` at the claim's stat. */
  ghost predicate Timeline(p: Preparation, e: Env, key: Key, h: seq<StampHistory.Change>, k: nat, w: nat, g: nat, m: nat) {
    && k <= w <= g <= m <= |h| && StampHistory.Legal(h) && StampHistory.Since(h, k, p.started)
    && (key in p.known ==> p.known[key] == Shown(StampHistory.After(h, w)))
    && Stat(e, key) == Shown(StampHistory.After(h, m))
  }

  /** In every such history the staged content is the content at the claim. */
  ghost predicate StagedIsCurrent(p: Preparation, e: Env, key: Key) {
    forall h: seq<StampHistory.Change>, k: nat, w: nat, g: nat, m: nat :: Timeline(p, e, key, h, k, w, g, m) ==>
      Held(StampHistory.After(h, g)) == Held(StampHistory.After(h, m))
  }

  /** A file that was known when the preparation began was there, and had settled. */
  predicate SettledIfKnown(p: Preparation, key: Key) {
    key in p.known ==> p.known[key].Some? && StampHistory.Settled(p.known[key].value, p.started)
  }

  lemma SettledIsCurrent(p: Preparation, e: Env, key: Key, h: seq<StampHistory.Change>, k: nat, w: nat, g: nat, m: nat)
    requires Unchanged(p, e) && (key in p.known || key in e.stamped)
    requires Timeline(p, e, key, h, k, w, g, m) && SettledIfKnown(p, key)
    ensures StampHistory.After(h, g) == StampHistory.After(h, m)
  {
    StampHistory.ChangedMoves(h, p.started, k, m);
  }

  /** A known file that had not settled can change before the staging and change back
      after it, all within the granularity of its ctime: for any size, the empty file's
      included, since the content staged lies between the two stats. */
  lemma YoungFileMayChange(p: Preparation, e: Env, key: Key) returns (h: seq<StampHistory.Change>)
    requires Unchanged(p, e) && key in p.known && p.known[key].Some? && !SettledIfKnown(p, key)
    ensures Timeline(p, e, key, h, 1, 1, 2, 3)
    ensures Held(StampHistory.After(h, 2)) != Held(StampHistory.After(h, 3))
  {
    var id := p.known[key].value;
    var time := Max(p.started, id.ctime);
    var file := File(StampHistory.Filled('a', id.size), id);
    var other := File(StampHistory.Filled('a', id.size + 1), id.(size := id.size + 1));
    h := [StampHistory.Change(time, Some(file)), StampHistory.Change(time, Some(other)), StampHistory.Change(time, Some(file))];
  }

  /** A file known to be absent can be created, staged and deleted. */
  lemma AbsentFileMayBeStaged(p: Preparation, e: Env, key: Key) returns (h: seq<StampHistory.Change>)
    requires Unchanged(p, e) && key in p.known && p.known[key].None?
    ensures Timeline(p, e, key, h, 0, 0, 1, 2)
    ensures Held(StampHistory.After(h, 1)).Some? && Held(StampHistory.After(h, 2)).None?
  {
    var made := File("", Identity(0, p.started, p.started, 0));
    h := [StampHistory.Change(p.started, Some(made)), StampHistory.Change(p.started, None)];
  }

  /** When the stats show nothing changed, the preparation is sure to hold a stamped
      file's current content if and only if the file was not among the known ones, or was
      there with a ctime at least two seconds old when preparing began. */
  lemma ContentIffSettled(p: Preparation, e: Env, key: Key)
    requires Unchanged(p, e) && (key in p.known || key in e.stamped)
    ensures StagedIsCurrent(p, e, key) <==> SettledIfKnown(p, key)
  {
    if SettledIfKnown(p, key) {
      forall h: seq<StampHistory.Change>, k: nat, w: nat, g: nat, m: nat | Timeline(p, e, key, h, k, w, g, m)
        ensures Held(StampHistory.After(h, g)) == Held(StampHistory.After(h, m))
      {
        SettledIsCurrent(p, e, key, h, k, w, g, m);
      }
    } else if p.known[key].Some? {
      var h := YoungFileMayChange(p, e, key);
      assert Timeline(p, e, key, h, 1, 1, 2, 3);
    } else {
      var h := AbsentFileMayBeStaged(p, e, key);
      assert Timeline(p, e, key, h, 0, 0, 1, 2);
    }
  }

  // ---------------------------------------------------------------------
  // The runtime

  lemma PrepareCases(m: Machine, e: Env)
    ensures !m.runDone || (m.speculative.Some? && !m.dirty && Reusable(m.speculative.value, e)) ==> Prepare(m, e) == m
    ensures m.runDone && !(m.speculative.Some? && !m.dirty && Reusable(m.speculative.value, e)) ==>
              var p := Preparation(|m.log|, e.now, e.ok, KnownFiles(e), e.tooMany);
              Prepare(m, e) == if e.background then m.(speculative := None, dirty := false, log := m.log + [Dropped])
                               else m.(speculative := Some(p), dirty := false, log := m.log + [Prepared(p, e)])
  {
    hide Reusable, KnownFiles;
  }

  class StepCheckpoints {
    var speculative: Option<Preparation>
    var speculativeDirty: bool
    var runCheckpointed: bool
    var stepCheckpointed: bool
    // For the statements only: what has happened so far.
    var log: Log

    ghost function View(): Machine reads this {
      Machine(speculative, speculativeDirty, runCheckpointed, stepCheckpointed, log)
    }

    ghost predicate Valid() reads this { Inv(View()) }

    constructor ()
      ensures View() == INITIAL && Valid()
    {
      speculative, speculativeDirty, runCheckpointed, stepCheckpointed, log := None, false, false, false, [];
    }

    /** As the step's request is sent. */
    method PrepareStepCheckpoint(e: Env)
      requires Valid()
      modifies this
      ensures Valid() && View() == Prepare(old(View()), e)
    {
      ghost var m := View();
      PrepareKeeps(m, e);
      PrepareCases(m, e);
      hide Inv, Reusable, KnownFiles, Prepare;
      if !runCheckpointed || (speculative.Some? && !speculativeDirty && Reusable(speculative.value, e)) { return; }
      speculativeDirty := false;
      if e.background {
        speculative := None;
        log := log + [Dropped];
        assert View() == m.(speculative := None, dirty := false, log := m.log + [Dropped]);
      } else {
        var p := Preparation(|log|, e.now, e.ok, KnownFiles(e), e.tooMany);
        speculative := Some(p);
        log := log + [Prepared(p, e)];
        assert View() == m.(speculative := Some(p), dirty := false, log := m.log + [Prepared(p, e)]);
      }
    }

    /** Whether the prepared snapshot became the checkpoint; it is given up either way. */
    method ClaimSpeculativeLocked(e: Env) returns (claimed: bool)
      modifies this
      ensures claimed == MayClaim(old(View()), e)
      ensures View() == old(View()).(speculative := None, log := log)
      ensures claimed ==>
        log == old(log) + [Claimed(old(speculative).value.id, e, !Unchanged(old(speculative).value, e))]
      ensures !claimed ==> log == old(log)
    {
      if speculative.None? { return false; }
      var sc := speculative.value;
      speculative := None;
      if speculativeDirty { return false; }
      if !sc.ok || e.now - sc.started >= MAX_AGE || e.background { return false; }
      if !e.accepts { return false; }
      log := log + [Claimed(sc.id, e, !Unchanged(sc, e))];
      return true;
    }

    /** Before a mutating call: the step's snapshot, unless it has one. */
    method CheckpointStep(tool: string, e: Env)
      requires Valid()
      modifies this
      ensures Valid() && View() == Take(old(View()), tool, e)
    {
      TakeKeeps(View(), tool, e);
      hide Inv;
      if stepCheckpointed { return; }
      var claimed := ClaimSpeculativeLocked(e);
      if !claimed {
        log := log + [Took(tool)];
        assert log == old(log) + [Took(tool)];
      }
      stepCheckpointed := true;
      runCheckpointed := true;
      assert View() == Take(old(View()), tool, e);
    }

    /** A call that is about to run. */
    method NoteTreeUse(readOnly: bool, mutating: bool)
      requires Valid() && (mutating ==> stepCheckpointed)
      modifies this
      ensures Valid() && View() == Use(old(View()), readOnly, mutating)
    {
      UseKeeps(View(), readOnly, mutating);
      hide Inv;
      if readOnly { return; }
      speculativeDirty := true;
      log := log + [Wrote(mutating)];
    }

    method ResetStepCheckpoint()
      requires Valid()
      modifies this
      ensures Valid() && View() == Reset(old(View()))
    {
      ResetKeeps(View());
      hide Inv;
      stepCheckpointed := false;
      log := log + [NewStep];
    }

    /** One tool call, up to where its own work begins. */
    method ExecuteCall(tool: string, mutating: bool, readOnly: bool, e: Env)
      requires Valid()
      modifies this
      ensures Valid() && View() == Execute(old(View()), tool, mutating, readOnly, e)
    {
      if mutating { CheckpointStep(tool, e); }
      NoteTreeUse(readOnly, mutating);
    }
  }

  // ---------------------------------------------------------------------
  // Every run

  datatype Operation =
    | DoPrepare(env: Env)
    | DoExecute(tool: string, mutating: bool, readOnly: bool, env: Env)
    | DoReset

  function Apply(m: Machine, op: Operation): Machine {
    match op
    case DoPrepare(e) => Prepare(m, e)
    case DoExecute(tool, mutating, readOnly, e) => Execute(m, tool, mutating, readOnly, e)
    case DoReset => Reset(m)
  }

  function ApplyAll(m: Machine, ops: seq<Operation>): Machine {
    if ops == [] then m else Apply(ApplyAll(m, ops[..|ops| - 1]), ops[|ops| - 1])
  }

  /** However steps, calls and preparations follow each other, and whatever the clock,
      the background work and the host do, the log is sound. */
  lemma {:induction false} EveryRunIsSound(ops: seq<Operation>)
    ensures Inv(ApplyAll(INITIAL, ops)) && Sound(ApplyAll(INITIAL, ops).log)
  {
    hide Sound, StepFits, PreparationFits;
    if ops == [] {
      InitialIsSound();
    } else {
      EveryRunIsSound(ops[..|ops| - 1]);
      var m := ApplyAll(INITIAL, ops[..|ops| - 1]);
      match ops[|ops| - 1] {
        case DoPrepare(e) => PrepareKeeps(m, e);
        case DoExecute(tool, mutating, readOnly, e) => ExecuteKeeps(m, tool, mutating, readOnly, e);
        case DoReset => ResetKeeps(m);
      }
    }
  }

  lemma InitialIsSound()
    ensures Inv(INITIAL)
  {
  }

  /** A claim that staged nothing again is sure to hold a stamped file's current content
      exactly where the preparation did not stat the file, or it was there and had settled. */
  ghost predicate ClaimHolds(log: Log, q: nat, key: Key)
    requires q < |log| && log[q].Claimed? && ClaimIsSound(log, q)
  {
    var p, e := log[log[q].prep].result, log[q].env;
    !log[q].refreshed && (key in p.known || key in e.stamped) ==> (StagedIsCurrent(p, e, key) <==> SettledIfKnown(p, key))
  }

  /** So it is at every claim of every run, and what the preparation stat'ed is every file
      stamped when it began. */
  lemma EveryClaimHolds(ops: seq<Operation>, q: nat, key: Key)
    requires q < |ApplyAll(INITIAL, ops).log| && ApplyAll(INITIAL, ops).log[q].Claimed?
    ensures ClaimIsSound(ApplyAll(INITIAL, ops).log, q) && ClaimHolds(ApplyAll(INITIAL, ops).log, q, key)
    ensures PreparationIsSound(ApplyAll(INITIAL, ops).log, ApplyAll(INITIAL, ops).log[q].prep)
  {
    EveryRunIsSound(ops);
    var log := ApplyAll(INITIAL, ops).log;
    hide ApplyAll, Unchanged, Inv, StagedIsCurrent, SettledIfKnown;
    assert ClaimIsSound(log, q);
    var p, e := log[log[q].prep].result, log[q].env;
    if !log[q].refreshed && (key in p.known || key in e.stamped) { ContentIffSettled(p, e, key); }
  }
}
