/** Runs of reads, agent writes, outside writes and shell windows: the guard keeps
    firing for a file changed behind the agent's back, and a file only a shell
    command changed is not overwritten blindly. */
module StampRuns {
  import opened Wrappers
  import opened FileStamps

  /** The disk, the clock, the guard, the open shell window, and (for the statement
      only) the keys whose stamp an outside write has made stale. */
  datatype World = World(now: int, disk: Disk, guard: Guard, window: Option<seq<ShellStamp>>, stale: set<Key>)

  datatype Event =
    | Pass(dt: nat)
    | Write(key: Key, file: Option<File>)
    | Read(key: Key, got: Content, si: Option<Stamped>)
    | AgentWrite(key: Key, wrote: File, full: bool, si: Option<Stamped>)
    | OpenWindow(keys: seq<Key>)
    | CloseWindow
    | Resume

  predicate InWindow(w: World, key: Key) {
    w.window.Some? && exists i :: 0 <= i < |w.window.value| && w.window.value[i].key == key
  }

  /** A write sets a ctime within the granularity before now, or none. */
  predicate LegalWrite(w: World, file: File) {
    file.id.ctime == 0 || w.now - RACY_WINDOW < file.id.ctime <= w.now
  }

  /** A change after `si` was recorded leaves a ctime within the granularity of it, or
      a later one; a file that changes while it is read may be seen as it was. */
  predicate ChangedSince(file: File, si: Option<Stamped>) {
    si.Some? ==> file.id.ctime == 0 || file.id.ctime > si.value.verifiedAt - RACY_WINDOW
  }

  predicate Possible(w: World, e: Event) {
    match e
    case Pass(_) => true
    case Write(key, file) => file.Some? ==> LegalWrite(w, file.value)
    case Read(key, got, si) =>
      && key in w.disk && (si.Some? ==> si.value.verifiedAt <= w.now)
      && (got == w.disk[key].content || ChangedSince(w.disk[key], si))
    case AgentWrite(key, file, _, si) => LegalWrite(w, file) && (si.Some? ==> si.value.verifiedAt <= w.now)
    case OpenWindow(keys) => w.window.None? && forall k :: k in keys ==> k in w.guard.seen
    case CloseWindow => w.window.Some?
    case Resume => w.window.None?
  }

  /** A write by anyone but the agent's tools.  Outside a shell window that covers
      the key, it makes the stamp stale, unless it puts the stamped content back. */
  function Written(w: World, key: Key, file: Option<File>): World {
    var disk := if file.Some? then w.disk[key := file.value] else w.disk - {key};
    var restored := file.Some? && key in w.guard.seen && file.value.content == w.guard.seen[key];
    w.(disk := disk,
       stale := if restored then w.stale - {key}
                else if key in w.guard.seen && !InWindow(w, key) then w.stale + {key} else w.stale)
  }

  function Do(w: World, e: Event): World
    requires Possible(w, e)
  {
    match e
    case Pass(dt) => w.(now := w.now + dt)
    case Write(key, file) => Written(w, key, file)
    case Read(key, got, si) =>
      w.(guard := SetStamp(w.guard, key, got, FromRead, si),
         stale := if got == w.disk[key].content then w.stale - {key} else if InWindow(w, key) then w.stale else w.stale + {key})
    case AgentWrite(key, file, full, si) =>
      w.(disk := w.disk[key := file], stale := w.stale - {key},
         guard := SetStamp(w.guard, key, file.content, if full then FromFullWrite else FromWrite, si))
    case OpenWindow(keys) =>
      var s := SnapAll(w.guard, w.disk, keys, w.now);
      w.(guard := s.guard, window := Some(s.out))
    case CloseWindow =>
      w.(guard := RestampAll(w.guard, w.disk, w.window.value, w.now).guard, window := None)
    // A later turn restores the marks from the conversation, without identities.
    case Resume => w.(guard := w.guard.(ids := map[], changed := {}))
  }

  ghost predicate Run(trace: seq<World>, events: seq<Event>) {
    && |trace| == |events| + 1
    && forall i :: 0 <= i < |events| ==> Possible(trace[i], events[i]) && trace[i + 1] == Do(trace[i], events[i])
  }

  // ---------------------------------------------------------------------
  // The invariant

  /** An identity either belongs to a file that still holds the stamped content, or
      the file's ctime has moved past what any trusted identity can show. */
  predicate IdentityHolds(w: World, key: Key) {
    key in w.guard.ids ==>
      && key in w.guard.seen && w.guard.ids[key].verifiedAt <= w.now
      && (key in w.disk ==>
            || w.disk[key].content == w.guard.seen[key] || w.disk[key].id.ctime == 0
            || w.disk[key].id.ctime > w.guard.ids[key].verifiedAt - RACY_WINDOW)
  }

  predicate StaleIsRefused(w: World, key: Key) {
    key in w.stale ==> key in w.guard.seen && (key in w.disk ==> w.disk[key].content != w.guard.seen[key])
  }

  predicate WindowIsClean(w: World) {
    w.window.Some? ==> forall i :: 0 <= i < |w.window.value| ==> w.window.value[i].key !in w.stale
  }

  ghost predicate AllIdentities(w: World) {
    forall key :: IdentityHolds(w, key)
  }

  /** A snapshot entry whose file holds its stamped content. */
  predicate Holding(w: World, s: ShellStamp) {
    s.key in w.guard.seen && s.key in w.disk && w.disk[s.key].content == w.guard.seen[s.key] == s.sum
  }

  /** How a turn starts: with any restored marks but no identity, and with the stamped
      files that no longer hold their stamped content counted as stale. */
  ghost predicate Starts(w: World) {
    && w.guard.ids == map[] && w.window == None
    && forall key :: key in w.stale <==>
                     key in w.guard.seen && !(key in w.disk && w.disk[key].content == w.guard.seen[key])
  }

  ghost predicate Inv(w: World) {
    && AllIdentities(w)
    && (forall key :: StaleIsRefused(w, key))
    && WindowIsClean(w)
  }

  /** The snapshot takes only files that hold their stamped content. */
  lemma {:induction false} SnapSound(w: World, keys: seq<Key>) returns (s: Snap)
    requires AllIdentities(w) && forall k :: k in keys ==> k in w.guard.seen
    ensures s == SnapAll(w.guard, w.disk, keys, w.now)
    ensures forall i :: 0 <= i < |s.out| ==> Holding(w, s.out[i])
    ensures AllIdentities(w.(guard := s.guard))
  {
    if keys == [] {
      s := Snap(w.guard, [], 0, 0);
      assert w.(guard := s.guard) == w;
    } else {
      var s0 := SnapSound(w, keys[..|keys| - 1]);
      s := SnapOneSound(w, w.(guard := s0.guard), s0, keys[|keys| - 1]);
    }
  }

  lemma SnapOneSound(w: World, w0: World, s0: Snap, key: Key) returns (s: Snap)
    requires w0 == w.(guard := s0.guard) && s0.guard == w.guard.(ids := s0.guard.ids) && key in w.guard.seen
    requires AllIdentities(w0) && forall i :: 0 <= i < |s0.out| ==> Holding(w, s0.out[i])
    ensures s == SnapOne(s0, w.disk, key, w.now)
    ensures forall i :: 0 <= i < |s.out| ==> Holding(w, s.out[i])
    ensures AllIdentities(w.(guard := s.guard))
  {
    assert IdentityHolds(w0, key);
    s := SnapOne(s0, w.disk, key, w.now);
    forall k ensures IdentityHolds(w.(guard := s.guard), k) { assert IdentityHolds(w0, k); }
  }

  /** What a re-stamping pass may do: mark the files whose stamp it changes, all of
      them in the window, and leave the rest of the stamps and every read stamp. */
  ghost predicate Restamped(g: Guard, snap: seq<ShellStamp>, g': Guard) {
    && g.seen.Keys <= g'.seen.Keys && g.shell <= g'.shell && g'.read == g.read
    && forall key :: key in g.seen && g'.seen[key] != g.seen[key] ==> key in g'.shell && Covers(snap, key)
  }

  predicate Covers(snap: seq<ShellStamp>, key: Key) {
    exists i :: 0 <= i < |snap| && snap[i].key == key
  }

  lemma {:induction false} RestampSound(w: World, snap: seq<ShellStamp>) returns (r: Restamp)
    requires AllIdentities(w)
    ensures r == RestampAll(w.guard, w.disk, snap, w.now)
    ensures Restamped(w.guard, snap, r.guard) && AllIdentities(w.(guard := r.guard))
  {
    if snap == [] {
      r := RestampAll(w.guard, w.disk, snap, w.now);
      assert w.(guard := r.guard) == w;
    } else {
      var init, last := snap[..|snap| - 1], snap[|snap| - 1];
      var r0 := RestampSound(w, init);
      r := RestampOneSound(w.(guard := r0.guard), r0, last);
      forall key | key in w.guard.seen && r.guard.seen[key] != w.guard.seen[key]
        ensures key in r.guard.shell && Covers(snap, key)
      {
        if r0.guard.seen[key] != w.guard.seen[key] {
          var i :| 0 <= i < |init| && init[i].key == key;
          assert snap[i].key == key;
        } else {
          assert snap[|snap| - 1].key == key;
        }
      }
    }
  }

  lemma RestampOneSound(w: World, r: Restamp, s: ShellStamp) returns (r': Restamp)
    requires r.guard == w.guard && AllIdentities(w)
    ensures r' == RestampOne(r, w.disk, s, w.now)
    ensures AllIdentities(w.(guard := r'.guard)) && Restamped(w.guard, [s], r'.guard)
  {
    r' := RestampOne(r, w.disk, s, w.now);
    forall k ensures IdentityHolds(w.(guard := r'.guard), k) { assert IdentityHolds(w, k); }
    assert [s][0].key == s.key;
  }

  lemma KeepInv(w: World, e: Event)
    requires Inv(w) && Possible(w, e)
    ensures Inv(Do(w, e))
  {
    var w' := Do(w, e);
    match e {
      case OpenWindow(keys) => OpenKeeps(w, keys);
      case CloseWindow => CloseKeeps(w);
      case _ =>
        forall key ensures IdentityHolds(w', key) && StaleIsRefused(w', key) {
          assert IdentityHolds(w, key) && StaleIsRefused(w, key);
        }
    }
  }

  lemma OpenKeeps(w: World, keys: seq<Key>)
    requires Inv(w) && Possible(w, OpenWindow(keys))
    ensures Inv(Do(w, OpenWindow(keys)))
  {
    hide IdentityHolds, SnapAll;
    var s := SnapSound(w, keys);
    var w' := Do(w, OpenWindow(keys));
    SameIdentities(w.(guard := s.guard), w');
    forall key ensures StaleIsRefused(w', key) { assert StaleIsRefused(w, key); }
    forall i | 0 <= i < |s.out| ensures s.out[i].key !in w'.stale {
      assert Holding(w, s.out[i]) && StaleIsRefused(w, s.out[i].key);
    }
  }

  lemma SameIdentities(w: World, w': World)
    requires AllIdentities(w) && w'.guard == w.guard && w'.disk == w.disk && w'.now == w.now
    ensures AllIdentities(w')
  {
    forall key ensures IdentityHolds(w', key) { assert IdentityHolds(w, key); }
  }

  lemma CloseKeeps(w: World)
    requires Inv(w) && Possible(w, CloseWindow)
    ensures Inv(Do(w, CloseWindow))
  {
    hide IdentityHolds, RestampAll;
    var r := RestampSound(w, w.window.value);
    var w' := Do(w, CloseWindow);
    SameIdentities(w.(guard := r.guard), w');
    forall key ensures StaleIsRefused(w', key) { assert StaleIsRefused(w, key); }
  }

  lemma {:induction false} RunInv(trace: seq<World>, events: seq<Event>, i: nat)
    requires Run(trace, events) && Starts(trace[0]) && i < |trace|
    ensures Inv(trace[i])
  {
    if i > 0 {
      RunInv(trace, events, i - 1);
      KeepInv(trace[i - 1], events[i - 1]);
    }
  }

  // ---------------------------------------------------------------------
  // The promises

  /** What takes a stale mark away: only the agent's own read or write of the file,
      or a write that puts the stamped content back. */
  lemma StaleEndsOnlyBy(w: World, e: Event, key: Key)
    requires Possible(w, e) && key in w.stale && key !in Do(w, e).stale
    ensures (e.Read? || e.AgentWrite? || e.Write?) && e.key == key
    ensures e.Write? ==> e.file.Some? && key in w.guard.seen && e.file.value.content == w.guard.seen[key]
  {
  }

  /** The event may end the stale mark of `key`: the agent reads or writes the file, or
      its stamped content is put back. */
  predicate Clears(w: World, e: Event, key: Key) {
    match e
    case Read(k, _, _) => k == key
    case AgentWrite(k, _, _, _) => k == key
    case Write(k, file) => k == key && file.Some? && key in w.guard.seen && file.value.content == w.guard.seen[key]
    case _ => false
  }

  /** In every run, over any number of turns: a file that was stale at some moment -- left
      so by an earlier turn, or made so by an outside write outside any shell window -- is
      refused from then on, however many snapshot and re-stamp rounds pass, until the
      agent reads or writes it or its stamped content is put back. */
  lemma {:induction false} StaleStaysRefused(trace: seq<World>, events: seq<Event>, i: nat, j: nat, key: Key)
    requires Run(trace, events) && Starts(trace[0]) && i <= j < |trace| && key in trace[i].stale
    requires forall k :: i <= k < j ==> !Clears(trace[k], events[k], key)
    ensures key in trace[j].stale
    ensures key in trace[j].disk ==> !StampAllows(trace[j].guard, key, trace[j].disk[key].content)
    decreases j
  {
    hide IdentityHolds, Do;
    RunInv(trace, events, j);
    assert StaleIsRefused(trace[j], key);
    if i < j {
      StaleStaysRefused(trace, events, i, j - 1, key);
      assert !Clears(trace[j - 1], events[j - 1], key);
      if key !in trace[j].stale { StaleEndsOnlyBy(trace[j - 1], events[j - 1], key); }
    }
  }

  /** An outside write outside any shell window, or a deletion, makes a stamped file stale
      unless it writes the stamped content. */
  lemma OutsideWriteIsStale(w: World, key: Key, file: Option<File>)
    requires Possible(w, Write(key, file)) && key in w.guard.seen && !InWindow(w, key)
    ensures key in Do(w, Write(key, file)).stale <==> !(file.Some? && file.value.content == w.guard.seen[key])
  {
  }

  /** The mark of a shell command's change stays until the file is read or written
      whole. */
  lemma {:induction false} ShellMarkStays(trace: seq<World>, events: seq<Event>, i: nat, j: nat, key: Key)
    requires Run(trace, events) && Starts(trace[0]) && i <= j < |trace|
    requires key in trace[i].guard.shell
    requires forall k :: i <= k < j ==> !(events[k].Read? && events[k].key == key) &&
                                        !(events[k].AgentWrite? && events[k].full && events[k].key == key)
    ensures key in trace[j].guard.shell
    decreases j
  {
    if i < j {
      ShellMarkStays(trace, events, i, j - 1, key);
      RunInv(trace, events, j - 1);
      if events[j - 1].CloseWindow? { var r := RestampSound(trace[j - 1], trace[j - 1].window.value); }
    }
  }

  /** A shell window that changes a stamp marks the file, so from then on an
      overwrite is refused until a file-read or a write of the whole content; the
      stamp of what the model last read stays as it was. */
  lemma ShellChangeRefusesOverwrite(trace: seq<World>, events: seq<Event>, i: nat, j: nat, key: Key)
    requires Run(trace, events) && Starts(trace[0]) && i < j < |trace|
    requires events[i].CloseWindow? && key in trace[i].guard.seen
    requires Lookup(trace[i + 1].guard.seen, key) != Lookup(trace[i].guard.seen, key)
    requires forall k :: i < k < j ==> !(events[k].Read? && events[k].key == key) &&
                                       !(events[k].AgentWrite? && events[k].full && events[k].key == key)
    ensures key in trace[j].guard.shell
    ensures trace[i + 1].guard.read == trace[i].guard.read
  {
    RunInv(trace, events, i);
    var r := RestampSound(trace[i], trace[i].window.value);
    ShellMarkStays(trace, events, i + 1, j, key);
  }
}
