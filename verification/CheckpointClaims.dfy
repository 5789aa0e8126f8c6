/** When a step's snapshot is a prepared one, and when one is prepared
    (internal/agent/checkpoint_speculative.go): over every run, exactly if the log so far
    holds a preparation that nothing has undone and that is fit for it. */
module CheckpointClaims {
  import opened Wrappers
  import opened FileStamps
  import opened Checkpoint

  /** What leaves no preparation standing: a possible write, a snapshot, another preparation,
      or that background work runs when the next one is due. */
  predicate Undoes(e: Event) { e.Wrote? || Takes(e) || e.Prepared? || e.Dropped? }

  predicate Standing(log: Log, i: nat) {
    i < |log| && log[i].Prepared? && forall r :: i < r < |log| ==> !Undoes(log[r])
  }

  /** The machine holds a clean preparation exactly when one is standing, and that one; and it
      knows whether the run has taken a snapshot. */
  ghost predicate Tracks(m: Machine) {
    && (forall i: nat :: Standing(m.log, i) <==> m.speculative.Some? && !m.dirty && m.speculative.value.id == i)
    && (m.runDone <==> exists p :: 0 <= p < |m.log| && Takes(m.log[p]))
  }

  lemma StandingAppend(log: Log, e: Event, i: nat)
    ensures Standing(log + [e], i) <==> if i == |log| then e.Prepared? else Standing(log, i) && !Undoes(e)
  {
    var l := log + [e];
    if i < |log| {
      assert l[i] == log[i] && l[|log|] == e;
      if Standing(log, i) && !Undoes(e) {
        forall r | i < r < |l| ensures !Undoes(l[r]) { assert r < |log| ==> l[r] == log[r]; }
      }
      if Standing(l, i) {
        forall r | i < r < |log| ensures !Undoes(log[r]) { assert l[r] == log[r]; }
      }
    }
  }

  /** One more event, and what the machine makes of it. */
  lemma TracksAppend(m: Machine, m': Machine, e: Event)
    requires Tracks(m) && m'.log == m.log + [e] && (m'.runDone <==> m.runDone || Takes(e))
    requires m'.speculative.Some? && !m'.dirty <==>
             e.Prepared? || (m.speculative.Some? && !m.dirty && !Undoes(e))
    requires m'.speculative.Some? && !m'.dirty ==>
               if e.Prepared? then m'.speculative.value.id == |m.log| else m'.speculative == m.speculative
    requires m.speculative.Some? && !m.dirty ==> m.speculative.value.id < |m.log|
    ensures Tracks(m')
  {
    forall i: nat ensures Standing(m'.log, i) <==> m'.speculative.Some? && !m'.dirty && m'.speculative.value.id == i {
      StandingAppend(m.log, e, i);
    }
    if m.runDone {
      var p :| 0 <= p < |m.log| && Takes(m.log[p]);
      assert Takes(m'.log[p]);
    }
    assert m'.log[|m.log|] == e;
  }

  lemma PrepareTracks(m: Machine, e: Env)
    requires Inv(m) && Tracks(m)
    ensures Tracks(Prepare(m, e))
  {
    hide Tracks, Sound, StepFits, Reusable, KnownFiles;
    var m' := Prepare(m, e);
    PrepareCases(m, e);
    if m' != m { TracksAppend(m, m', if e.background then Dropped else Prepared(m'.speculative.value, e)); }
  }

  lemma TakeTracks(m: Machine, tool: string, e: Env)
    requires Inv(m) && Tracks(m)
    ensures Tracks(Take(m, tool, e))
  {
    hide Tracks, Sound, StepFits, Unchanged;
    if !m.stepDone {
      var m' := Take(m, tool, e);
      TracksAppend(m, m', m'.log[|m.log|]);
    }
  }

  lemma UseTracks(m: Machine, readOnly: bool, mutating: bool)
    requires Inv(m) && Tracks(m)
    ensures Tracks(Use(m, readOnly, mutating))
  {
    hide Tracks, Sound, StepFits;
    if !readOnly { TracksAppend(m, Use(m, readOnly, mutating), Wrote(mutating)); }
  }

  lemma ResetTracks(m: Machine)
    requires Inv(m) && Tracks(m)
    ensures Tracks(Reset(m))
  {
    hide Tracks, Sound, StepFits;
    TracksAppend(m, Reset(m), NewStep);
  }

  lemma ApplyTracks(m: Machine, op: Operation)
    requires Inv(m) && Tracks(m)
    ensures Tracks(Apply(m, op))
  {
    hide Tracks, Inv, Prepare, Take, Use, Reset;
    match op
    case DoPrepare(e) => PrepareTracks(m, e);
    case DoExecute(tool, mutating, readOnly, e) =>
      if mutating {
        TakeKeeps(m, tool, e);
        TakeTracks(m, tool, e);
      }
      UseTracks(if mutating then Take(m, tool, e) else m, readOnly, mutating);
    case DoReset => ResetTracks(m);
  }

  lemma {:induction false} EveryRunTracks(ops: seq<Operation>)
    ensures Inv(ApplyAll(INITIAL, ops)) && Tracks(ApplyAll(INITIAL, ops))
  {
    EveryRunIsSound(ops);
    if ops == [] {
      NothingStands();
    } else {
      EveryRunTracks(ops[..|ops| - 1]);
      hide Inv, Tracks, Apply;
      ApplyTracks(ApplyAll(INITIAL, ops[..|ops| - 1]), ops[|ops| - 1]);
    }
  }

  lemma NothingStands()
    ensures Tracks(INITIAL)
  {
  }

  // ---------------------------------------------------------------------
  // What every run does next

  /** The step under way has a snapshot. */
  predicate StepHasOne(log: Log) { exists p :: 0 <= p < |log| && Takes(log[p]) && SameStep(log, p, |log|) }

  /** A standing preparation that succeeded, began less than 30 s ago, and is accepted, with
      no background work. */
  predicate Claimable(log: Log, i: nat, e: Env) {
    && Standing(log, i) && log[i].result.ok && e.now - log[i].result.started < 30_000_000_000
    && !e.background && e.accepts
  }

  /** The stats show that a file the agent knows may not be as it was: not all were known or
      can be looked at, a known one has another identity, or one stamped since is gone or
      changed later than two seconds before the preparation began. */
  predicate MayHaveMoved(p: Preparation, e: Env) {
    || p.incomplete || e.tooMany
    || (exists key :: key in p.known && Stat(e, key) != p.known[key])
    || (exists key :: key in e.stamped && key !in p.known && !Settled(Stat(e, key), p.started))
  }

  predicate Settled(id: Option<Identity>, t: int) {
    id.Some? && id.value.ctime != 0 && id.value.ctime <= t - 2_000_000_000 && id.value.mtime <= t - 2_000_000_000
  }

  /** Before a mutating call a step without a snapshot gets one: the standing preparation, if
      it can be claimed -- staged again if a file may have moved -- and else a new one. */
  lemma SnapshotIs(ops: seq<Operation>, tool: string, readOnly: bool, e: Env)
    ensures var log := ApplyAll(INITIAL, ops).log;
            var log' := Apply(ApplyAll(INITIAL, ops), DoExecute(tool, true, readOnly, e)).log;
            var wrote := if readOnly then [] else [Wrote(true)];
            && (StepHasOne(log) ==> log' == log + wrote)
            && (!StepHasOne(log) && !(exists i: nat :: Claimable(log, i, e)) ==> log' == log + [Took(tool)] + wrote)
            && (forall i: nat :: !StepHasOne(log) && Claimable(log, i, e) ==>
                  log' == log + [Claimed(i, e, MayHaveMoved(log[i].result, e))] + wrote)
  {
    EveryRunTracks(ops);
    var m := ApplyAll(INITIAL, ops);
    StepDoneIff(m);
    hide ApplyAll, SameStep, StepHasOne, Unchanged, Standing, Sound, StepFits, MayHaveMoved;
    if m.speculative.Some? { MovedIff(m.speculative.value, e); }
    assert MayClaim(m, e) <==> m.speculative.Some? && !m.dirty && Claimable(m.log, m.speculative.value.id, e);
    forall i: nat | Claimable(m.log, i, e) ensures MayClaim(m, e) && i == m.speculative.value.id {}
  }

  lemma StepDoneIff(m: Machine)
    requires Inv(m)
    ensures m.stepDone <==> StepHasOne(m.log)
  {
    hide SameStep, Sound;
  }

  lemma MovedIff(p: Preparation, e: Env)
    ensures MayHaveMoved(p, e) <==> !Unchanged(p, e)
  {
  }

  /** As a step's request is sent, a snapshot is prepared exactly when the run has taken one,
      none stands that is under 30 s old and has not failed, and no background work runs. */
  lemma PreparedWhen(ops: seq<Operation>, e: Env)
    ensures var log, log' := ApplyAll(INITIAL, ops).log, Apply(ApplyAll(INITIAL, ops), DoPrepare(e)).log;
            if (forall p :: 0 <= p < |log| ==> !Takes(log[p])) || exists i: nat :: StandsFor(log, i, e) then log' == log
            else if e.background then log' == log + [Dropped]
            else |log'| == |log| + 1 && log'[..|log|] == log && IsNew(log'[|log|], |log|, e)
  {
    EveryRunTracks(ops);
    var m := ApplyAll(INITIAL, ops);
    PrepareCases(m, e);
    hide ApplyAll, Standing, Inv, Prepare;
    assert m.speculative.Some? && !m.dirty && Reusable(m.speculative.value, e) <==> exists i: nat :: StandsFor(m.log, i, e) by {
      StandsIff(m, e);
    }
  }

  predicate StandsFor(log: Log, i: nat, e: Env) {
    Standing(log, i) && e.now - log[i].result.started < 30_000_000_000 && (e.finished ==> log[i].result.ok)
  }

  lemma StandsIff(m: Machine, e: Env)
    requires Inv(m) && Tracks(m)
    ensures m.speculative.Some? && !m.dirty && Reusable(m.speculative.value, e) <==> exists i: nat :: StandsFor(m.log, i, e)
  {
    hide Standing, Sound, StepFits;
    if m.speculative.Some? && !m.dirty && Reusable(m.speculative.value, e) {
      assert StandsFor(m.log, m.speculative.value.id, e);
    }
  }

  /** A preparation begun now, that knows the stats of exactly the stamped files. */
  predicate IsNew(event: Event, id: nat, e: Env) {
    && event.Prepared? && event.env == e
    && var p := event.result;
       && p.id == id && p.started == e.now && p.ok == e.ok && p.incomplete == e.tooMany
       && p.known.Keys == (set key | key in e.stamped)
       && forall key :: key in p.known ==> p.known[key] == if key in e.stats then Some(e.stats[key]) else None
  }
}
