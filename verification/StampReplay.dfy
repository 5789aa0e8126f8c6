/** A conversation carries the stamps: each results message the ones changed since the
    last, a compaction summary all of them.  Replaying what a conversation still
    carries rebuilds the marks (internal/agent/file_stamps.go, llm_runtime.go). */
module StampReplay {
  import opened Wrappers
  import opened FileStamps

  /** The runtime's guard and the records its conversation carries, in order. */
  datatype Session = Session(guard: Guard, log: seq<Record>)

  /** A stamp is set; identities move; a results message takes the delta; compaction
      keeps the messages from the `kept`-th record on behind a summary with every
      stamp; a later run starts from the conversation alone. */
  datatype Event =
    | Stamp(key: Key, sum: Content, src: Source, si: Option<Stamped>)
    | Identify(ids: map<Key, Stamped>)
    | Carry(keys: seq<Key>)
    | Compact(keys: seq<Key>, kept: nat)
    | Resume

  function Elements(keys: seq<Key>): set<Key> { set k | k in keys }

  predicate Possible(s: Session, e: Event) {
    match e
    case Carry(keys) => Elements(keys) == s.guard.changed
    case Compact(keys, kept) => Elements(keys) == s.guard.seen.Keys && kept <= |s.log|
    case Resume => s.guard.changed == {}
    case _ => true
  }

  function Do(s: Session, e: Event): Session
    requires Possible(s, e)
  {
    match e
    case Stamp(key, sum, src, si) => s.(guard := SetStamp(s.guard, key, sum, src, si))
    case Identify(ids) => s.(guard := s.guard.(ids := ids))
    case Carry(keys) => Session(s.guard.(changed := {}), s.log + Records(s.guard, keys))
    case Compact(keys, kept) => s.(log := Records(s.guard, keys) + s.log[kept..])
    case Resume => s.(guard := Restore(EMPTY, s.log))
  }

  ghost predicate Run(trace: seq<Session>, events: seq<Event>) {
    && |trace| == |events| + 1 && trace[0] == Session(EMPTY, [])
    && forall i :: 0 <= i < |events| ==> Possible(trace[i], events[i]) && trace[i + 1] == Do(trace[i], events[i])
  }

  // ---------------------------------------------------------------------
  // The last record of a path decides

  function Last(log: seq<Record>, key: Key): Option<Record> {
    if log == [] then None
    else if log[|log| - 1].path == key then Some(log[|log| - 1])
    else Last(log[..|log| - 1], key)
  }

  lemma {:induction false} LastOfAppend(a: seq<Record>, b: seq<Record>, key: Key)
    ensures Last(a + b, key) == if Last(b, key).Some? then Last(b, key) else Last(a, key)
  {
    if b == [] {
      assert a + b == a;
    } else {
      assert (a + b)[..|a + b| - 1] == a + b[..|b| - 1];
      LastOfAppend(a, b[..|b| - 1], key);
    }
  }

  lemma {:induction false} LastOfRecords(g: Guard, keys: seq<Key>, key: Key)
    ensures Last(Records(g, keys), key) == if key in keys then Some(RecordOf(g, key)) else None
  {
    if keys != [] {
      var init := keys[..|keys| - 1];
      LastOfRecords(g, init, key);
      assert Records(g, keys)[..|keys| - 1] == Records(g, init);
      assert keys == init + [keys[|keys| - 1]];
    }
  }

  /** Every record is a path's whole state, and read marks never go away. */
  ghost predicate WellFormed(log: seq<Record>, g: Guard) {
    forall i :: 0 <= i < |log| ==> log[i].seen.Some? && (log[i].read.Some? ==> log[i].path in g.read)
  }

  /** The marks of `key` that a restored guard has. */
  ghost predicate Restored(g: Guard, key: Key, last: Option<Record>) {
    && Lookup(g.seen, key) == (if last.Some? then last.value.seen else None)
    && (key in g.shell <==> last.Some? && last.value.shell)
    && (last.Some? && last.value.read.Some? ==> Lookup(g.read, key) == last.value.read)
  }

  lemma {:induction false} RestoreGives(log: seq<Record>, g: Guard, key: Key)
    requires WellFormed(log, g)
    ensures Restored(Restore(EMPTY, log), key, Last(log, key))
    ensures key !in g.read ==> key !in Restore(EMPTY, log).read
  {
    if log != [] {
      assert WellFormed(log[..|log| - 1], g);
      RestoreGives(log[..|log| - 1], g, key);
    }
  }

  /** A replay leaves no identity and no change to carry. */
  lemma {:induction false} RestoreIsClean(log: seq<Record>)
    ensures Restore(EMPTY, log).ids == map[] && Restore(EMPTY, log).changed == {}
  {
    if log != [] { RestoreIsClean(log[..|log| - 1]); }
  }

  // ---------------------------------------------------------------------
  // The invariant

  /** What the last record must say of a key whose change has been carried. */
  ghost predicate Carried(s: Session, key: Key) {
    key !in s.guard.changed ==>
      Last(s.log, key) == if key in s.guard.seen then Some(RecordOf(s.guard, key)) else None
  }

  predicate MarksAreSeen(g: Guard) {
    g.read.Keys <= g.seen.Keys && g.shell <= g.seen.Keys && g.changed <= g.seen.Keys
  }

  ghost predicate Inv(s: Session) {
    MarksAreSeen(s.guard) && WellFormed(s.log, s.guard) && forall key :: Carried(s, key)
  }

  /** The seen, read and shell marks agree. */
  predicate SameMarks(g: Guard, h: Guard) {
    g.seen == h.seen && g.read == h.read && g.shell == h.shell
  }

  /** The three marks of one key agree. */
  predicate SameMark(g: Guard, h: Guard, key: Key) {
    Lookup(g.seen, key) == Lookup(h.seen, key) && Lookup(g.read, key) == Lookup(h.read, key) &&
    (key in g.shell <==> key in h.shell)
  }

  lemma ReplayOne(s: Session, key: Key)
    requires Inv(s) && key !in s.guard.changed
    ensures SameMark(Restore(EMPTY, s.log), s.guard, key)
  {
    hide Restore, Last;
    assert Carried(s, key);
    RestoreGives(s.log, s.guard, key);
  }

  lemma ReplayAll(s: Session)
    requires Inv(s) && s.guard.changed == {}
    ensures SameMarks(Restore(EMPTY, s.log), s.guard)
  {
    hide Restore, Inv;
    var r := Restore(EMPTY, s.log);
    forall key ensures SameMark(r, s.guard, key) { ReplayOne(s, key); }
    forall key ensures key in r.seen <==> key in s.guard.seen { assert SameMark(r, s.guard, key); }
    forall key | key in r.seen ensures r.seen[key] == s.guard.seen[key] { assert SameMark(r, s.guard, key); }
    forall key ensures key in r.read <==> key in s.guard.read { assert SameMark(r, s.guard, key); }
    forall key | key in r.read ensures r.read[key] == s.guard.read[key] { assert SameMark(r, s.guard, key); }
    forall key ensures key in r.shell <==> key in s.guard.shell { assert SameMark(r, s.guard, key); }
  }

  lemma KeepInv(s: Session, e: Event)
    requires Inv(s) && Possible(s, e)
    ensures Inv(Do(s, e))
  {
    hide Restore, Last;
    var s' := Do(s, e);
    match e {
      case Stamp(_, _, _, _) => forall key ensures Carried(s', key) { assert Carried(s, key); }
      case Identify(_) => forall key ensures Carried(s', key) { assert Carried(s, key); }
      case Carry(keys) => CarryKeeps(s, keys);
      case Compact(keys, kept) => CompactKeeps(s, keys, kept);
      case Resume =>
        ReplayAll(s);
        RestoreIsClean(s.log);
        forall key ensures Carried(s', key) { assert Carried(s, key); }
    }
  }

  lemma CarryKeeps(s: Session, keys: seq<Key>)
    requires Inv(s) && Possible(s, Carry(keys))
    ensures Inv(Do(s, Carry(keys)))
  {
    hide Last;
    var s' := Do(s, Carry(keys));
    forall key ensures Carried(s', key) {
      assert Carried(s, key);
      LastOfAppend(s.log, Records(s.guard, keys), key);
      LastOfRecords(s.guard, keys, key);
      assert key in keys <==> key in Elements(keys);
    }
    RecordsWellFormed(s.guard, keys);
  }

  lemma RecordsWellFormed(g: Guard, keys: seq<Key>)
    requires Elements(keys) <= g.seen.Keys
    ensures WellFormed(Records(g, keys), g)
  {
    forall i | 0 <= i < |keys| ensures keys[i] in g.seen { assert keys[i] in Elements(keys); }
  }

  lemma CompactKeeps(s: Session, keys: seq<Key>, kept: nat)
    requires Inv(s) && Possible(s, Compact(keys, kept))
    ensures Inv(Do(s, Compact(keys, kept)))
  {
    hide Last;
    var s' := Do(s, Compact(keys, kept));
    forall key ensures Carried(s', key) {
      assert Carried(s, key);
      LastOfAppend(Records(s.guard, keys), s.log[kept..], key);
      LastOfRecords(s.guard, keys, key);
      assert s.log == s.log[..kept] + s.log[kept..];
      LastOfAppend(s.log[..kept], s.log[kept..], key);
      assert key in keys <==> key in Elements(keys);
    }
    RecordsWellFormed(s.guard, keys);
  }

  lemma {:induction false} RunInv(trace: seq<Session>, events: seq<Event>, i: nat)
    requires Run(trace, events) && i < |trace|
    ensures Inv(trace[i])
  {
    if i > 0 {
      RunInv(trace, events, i - 1);
      KeepInv(trace[i - 1], events[i - 1]);
    }
  }

  // ---------------------------------------------------------------------
  // The promises

  /** In every run of stamps, deltas, compactions and resumptions, replaying what the
      conversation still carries gives every path whose changes were carried exactly
      its seen, read and shell marks; with nothing left to carry, all of them. */
  lemma ReplayIsExact(trace: seq<Session>, events: seq<Event>, i: nat)
    requires Run(trace, events) && i < |trace|
    ensures forall key :: key !in trace[i].guard.changed ==> SameMark(Restore(EMPTY, trace[i].log), trace[i].guard, key)
    ensures trace[i].guard.changed == {} ==> SameMarks(Restore(EMPTY, trace[i].log), trace[i].guard)
  {
    hide Restore, Inv, Run, SameMark, SameMarks;
    RunInv(trace, events, i);
    forall key | key !in trace[i].guard.changed ensures SameMark(Restore(EMPTY, trace[i].log), trace[i].guard, key) {
      ReplayOne(trace[i], key);
    }
    if trace[i].guard.changed == {} { ReplayAll(trace[i]); }
  }

  /** A full snapshot in front of any suffix of the older deltas replays as exactly as
      all the deltas do: the older records agree with the snapshot or are absent. */
  lemma SnapshotWithOlderDeltas(trace: seq<Session>, events: seq<Event>, i: nat, keys: seq<Key>, kept: nat)
    requires Run(trace, events) && i < |trace| && trace[i].guard.changed == {}
    requires Elements(keys) == trace[i].guard.seen.Keys && kept <= |trace[i].log|
    ensures SameMarks(Restore(EMPTY, Records(trace[i].guard, keys) + trace[i].log[kept..]), Restore(EMPTY, trace[i].log))
  {
    hide Restore, Inv, Run;
    RunInv(trace, events, i);
    CompactKeeps(trace[i], keys, kept);
    ReplayAll(trace[i]);
    ReplayAll(Do(trace[i], Compact(keys, kept)));
  }

  /** Of two records of one path, the later decides. */
  lemma LaterDecides(first: Record, second: Record)
    requires first.path == second.path && first.seen.Some? && second.seen.Some?
    ensures Lookup(Restore(EMPTY, [first, second]).seen, first.path) == second.seen
  {
    RestoreGives([first, second], EMPTY.(read := map[first.path := ""]), first.path);
  }

  lemma RunOfFour(trace: seq<Session>, events: seq<Event>)
    requires |trace| == 5 && |events| == 4 && trace[0] == Session(EMPTY, [])
    requires Possible(trace[0], events[0]) && trace[1] == Do(trace[0], events[0])
    requires Possible(trace[1], events[1]) && trace[2] == Do(trace[1], events[1])
    requires Possible(trace[2], events[2]) && trace[3] == Do(trace[2], events[2])
    requires Possible(trace[3], events[3]) && trace[4] == Do(trace[3], events[3])
    ensures Run(trace, events)
  {
    forall i | 0 <= i < 4 ensures Possible(trace[i], events[i]) && trace[i + 1] == Do(trace[i], events[i]) {
      assert i == 0 || i == 1 || i == 2 || i == 3;
    }
  }

  lemma OneKey(g: Guard, key: Key)
    ensures Records(g, [key]) == [RecordOf(g, key)] && Elements([key]) == {key}
  {
  }

  /** Carrying, and compacting, a conversation about one path. */
  lemma CarryOne(g: Guard, key: Key)
    requires g.changed == {key}
    ensures Possible(Session(g, []), Carry([key]))
    ensures Do(Session(g, []), Carry([key])) == Session(g.(changed := {}), [RecordOf(g, key)])
  {
    OneKey(g, key);
    assert [] + [RecordOf(g, key)] == [RecordOf(g, key)];
  }

  lemma CompactOne(g: Guard, key: Key, r: Record)
    requires g.seen.Keys == {key}
    ensures Possible(Session(g, [r]), Compact([key], 0))
    ensures Do(Session(g, [r]), Compact([key], 0)) == Session(g, [RecordOf(g, key), r])
  {
    OneKey(g, key);
    assert [RecordOf(g, key)] + [r][0..] == [RecordOf(g, key), r];
  }

  lemma StampOne(g: Guard, key: Key, sum: Content, log: seq<Record>)
    requires g.seen.Keys <= {key} && g.changed == {}
    ensures var h := SetStamp(g, key, sum, FromWrite, None);
            && h.seen.Keys == {key} == h.changed && RecordOf(h, key).seen == Some(sum) && RecordOf(h, key).path == key
            && Lookup(h.seen, key) == Some(sum)
    ensures Possible(Session(g, log), Stamp(key, sum, FromWrite, None))
    ensures Do(Session(g, log), Stamp(key, sum, FromWrite, None)) == Session(SetStamp(g, key, sum, FromWrite, None), log)
  {
  }

  /** The carrying matters: a change that compaction would see before any results message
      carried it is overridden by the older delta kept behind the summary.  The events here
      leave the order of changes, carrying and compaction free; the loop itself carries the
      delta on each results message, before it can compact again, so this run is one that
      its order rules out. */
  lemma UncarriedChangeIsLost(key: Key, older: Content, newer: Content) returns (trace: seq<Session>, events: seq<Event>)
    requires older != newer
    ensures Run(trace, events) && |events| == 4 && events[3].Compact?
    ensures Lookup(trace[4].guard.seen, key) == Some(newer)
    ensures Lookup(Restore(EMPTY, trace[4].log).seen, key) == Some(older)
  {
    assert EMPTY == Guard(map[], map[], map[], {}, {});
    hide *;
    events := [Stamp(key, older, FromWrite, None), Carry([key]), Stamp(key, newer, FromWrite, None), Compact([key], 0)];
    var s1 := Session(SetStamp(EMPTY, key, older, FromWrite, None), []);
    StampOne(EMPTY, key, older, []);
    CarryOne(s1.guard, key);
    var s2 := Session(s1.guard.(changed := {}), [RecordOf(s1.guard, key)]);
    var s3 := Session(SetStamp(s2.guard, key, newer, FromWrite, None), s2.log);
    StampOne(s2.guard, key, newer, s2.log);
    CompactOne(s3.guard, key, s2.log[0]);
    var s4 := Session(s3.guard, [RecordOf(s3.guard, key), s2.log[0]]);
    trace := [Session(EMPTY, []), s1, s2, s3, s4];
    RunOfFour(trace, events);
    LaterDecides(RecordOf(s3.guard, key), s2.log[0]);
  }
}
