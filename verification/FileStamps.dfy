/** The stale-read guard (internal/agent/file_stamps.go): what the agent has seen of
    each file, the identities that let a stat stand for a hash, and the marks its
    own shell commands leave.  A content hash stands for the content itself. */
module FileStamps {
  import opened Wrappers

  /** A file's real path, and a file's content. */
  type Key = string
  type Content = string

  /** What a stat shows; ctime is 0 where the platform has none. */
  datatype Identity = Identity(size: nat, mtime: int, ctime: int, inode: nat)

  /** An identity and the time, taken before the stat, at which the file was known
      to hold the stamped content. */
  datatype Stamped = Stamped(id: Identity, verifiedAt: int)

  datatype File = File(content: Content, id: Identity)

  type Disk = map<Key, File>

  /** Two seconds in nanoseconds: the coarsest common timestamp granularity. */
  const RACY_WINDOW: int := 2_000_000_000

  function Max(x: int, y: int): int { if x > y then x else y }

  predicate IdentityTrusted(si: Stamped) {
    si.id.ctime != 0 && si.verifiedAt - Max(si.id.mtime, si.id.ctime) >= RACY_WINDOW
  }

  // ---------------------------------------------------------------------
  // The guard's state

  datatype Guard = Guard(seen: map<Key, Content>, ids: map<Key, Stamped>, read: map<Key, Content>,
                         shell: set<Key>, changed: set<Key>)

  const EMPTY := Guard(map[], map[], map[], {}, {})

  /** Where a new stamp's content came from. */
  datatype Source = FromWrite | FromFullWrite | FromRead | FromShell

  function SetStamp(g: Guard, key: Key, sum: Content, src: Source, si: Option<Stamped>): Guard {
    Guard(
      g.seen[key := sum],
      if si.Some? then g.ids[key := si.value] else g.ids - {key},
      if src.FromRead? then g.read[key := sum] else g.read,
      if src.FromRead? || src.FromFullWrite? then g.shell - {key} else if src.FromShell? then g.shell + {key} else g.shell,
      g.changed + {key})
  }

  /** A write is refused when the file no longer holds what was stamped. */
  predicate StampAllows(g: Guard, key: Key, current: Content) {
    key in g.seen ==> g.seen[key] == current
  }

  // ---------------------------------------------------------------------
  // The shell window

  const MAX_STAMP_FILES := 1024
  const MAX_VERIFY_FILES := 32
  const MAX_VERIFY_BYTES := 0x80_0000
  const MAX_RESTAMP_BYTES := 0x200_0000

  /** A stamped file a shell command may re-stamp: its stamp and identity when the
      command started. */
  datatype ShellStamp = ShellStamp(key: Key, sum: Content, before: Identity)

  /** The work a snapshot has done: eligible files, hashed files and bytes. */
  datatype Snap = Snap(guard: Guard, out: seq<ShellStamp>, files: nat, bytes: nat)

  /** One stamped file of a snapshot: eligible by its identity, or by a hash within
      the budgets, which also records the identity. */
  function SnapOne(s: Snap, disk: Disk, key: Key, at: int): Snap
    requires key in s.guard.seen
  {
    var g := s.guard;
    if key !in disk then s
    else
      var now, sum := disk[key].id, g.seen[key];
      if key in g.ids && g.ids[key].id == now && IdentityTrusted(g.ids[key]) then
        s.(out := s.out + [ShellStamp(key, sum, now)])
      else if s.files >= MAX_VERIFY_FILES || s.bytes + now.size > MAX_VERIFY_BYTES then s
      else if disk[key].content != sum then s.(files := s.files + 1, bytes := s.bytes + now.size)
      else Snap(g.(ids := g.ids[key := Stamped(now, at)]), s.out + [ShellStamp(key, sum, now)],
                s.files + 1, s.bytes + now.size)
  }

  /** A snapshot over the keys in the order the map yields them. */
  function SnapAll(g: Guard, disk: Disk, keys: seq<Key>, at: int): (s: Snap)
    requires forall k :: k in keys ==> k in g.seen
    ensures s.guard == g.(ids := s.guard.ids)
  {
    if keys == [] then Snap(g, [], 0, 0)
    else SnapOne(SnapAll(g, disk, keys[..|keys| - 1], at), disk, keys[|keys| - 1], at)
  }

  /** A re-stamping pass: the guard, the re-stamped keys and the bytes left. */
  datatype Restamp = Restamp(guard: Guard, changed: seq<Key>, budget: int)

  /** One eligible file after the command. */
  function RestampOne(r: Restamp, disk: Disk, s: ShellStamp, at: int): Restamp {
    var g := r.guard;
    if s.key !in disk || disk[s.key].id == s.before || disk[s.key].id.size > r.budget then r
    else
      var now, sum := disk[s.key].id, disk[s.key].content;
      var r' := r.(budget := r.budget - now.size);
      if s.key !in g.seen || g.seen[s.key] != s.sum then r'
      else if sum == s.sum then r'.(guard := g.(ids := g.ids[s.key := Stamped(now, at)]))
      else r'.(guard := SetStamp(g, s.key, sum, FromShell, Some(Stamped(now, at))), changed := r.changed + [s.key])
  }

  function RestampAll(g: Guard, disk: Disk, snap: seq<ShellStamp>, at: int): Restamp {
    if snap == [] then Restamp(g, [], MAX_RESTAMP_BYTES)
    else RestampOne(RestampAll(g, disk, snap[..|snap| - 1], at), disk, snap[|snap| - 1], at)
  }

  // ---------------------------------------------------------------------
  // Records carried by the conversation

  /** One path's whole guard state, as a message carries it. */
  datatype Record = Record(path: Key, seen: Option<Content>, read: Option<Content>, shell: bool)

  function Lookup(m: map<Key, Content>, k: Key): Option<Content> {
    if k in m then Some(m[k]) else None
  }

  function RecordOf(g: Guard, k: Key): Record {
    Record(k, Lookup(g.seen, k), Lookup(g.read, k), k in g.shell)
  }

  function Records(g: Guard, keys: seq<Key>): (r: seq<Record>)
    ensures |r| == |keys| && forall i :: 0 <= i < |r| ==> r[i] == RecordOf(g, keys[i])
  {
    seq(|keys|, i requires 0 <= i < |keys| => RecordOf(g, keys[i]))
  }

  function RestoreOne(g: Guard, r: Record): Guard {
    var g1 := if r.seen.None? then g else
      g.(seen := g.seen[r.path := r.seen.value], ids := g.ids - {r.path},
         shell := if r.shell then g.shell + {r.path} else g.shell - {r.path});
    if r.read.None? then g1 else g1.(read := g1.read[r.path := r.read.value])
  }

  function Restore(g: Guard, log: seq<Record>): Guard {
    if log == [] then g else RestoreOne(Restore(g, log[..|log| - 1]), log[|log| - 1])
  }

  // ---------------------------------------------------------------------
  // The runtime

  class ToolRuntime {
    var fileStamps: map<Key, Content>
    var stampIDs: map<Key, Stamped>
    var readStamps: map<Key, Content>
    var shellStamped: set<Key>
    var stampsChanged: set<Key>

    function View(): Guard reads this {
      Guard(fileStamps, stampIDs, readStamps, shellStamped, stampsChanged)
    }

    constructor ()
      ensures View() == EMPTY
    {
      fileStamps, stampIDs, readStamps, shellStamped, stampsChanged := map[], map[], map[], {}, {};
    }

    method SetStampLocked(key: Key, sum: Content, src: Source, si: Option<Stamped>)
      modifies this
      ensures View() == SetStamp(old(View()), key, sum, src, si)
      ensures key in shellStamped <==> src.FromShell? || (src.FromWrite? && key in old(shellStamped))
      ensures Lookup(fileStamps, key) == Some(sum)
      ensures Lookup(readStamps, key) == if src.FromRead? then Some(sum) else old(Lookup(readStamps, key))
      ensures forall k :: k != key ==>
                && (k in shellStamped <==> k in old(shellStamped)) && Lookup(fileStamps, k) == old(Lookup(fileStamps, k))
                && Lookup(readStamps, k) == old(Lookup(readStamps, k))
    {
      fileStamps := fileStamps[key := sum];
      if si.Some? {
        stampIDs := stampIDs[key := si.value];
      } else {
        stampIDs := stampIDs - {key};
      }
      match src {
        case FromRead =>
          readStamps := readStamps[key := sum];
          shellStamped := shellStamped - {key};
        case FromFullWrite =>
          shellStamped := shellStamped - {key};
        case FromShell =>
          shellStamped := shellStamped + {key};
        case FromWrite =>
      }
      stampsChanged := stampsChanged + {key};
    }

    /** False: the write is refused as stale. */
    method CheckFileStamp(key: Key, current: Content) returns (ok: bool)
      ensures ok <==> StampAllows(View(), key, current)
      ensures ok <==> (key in fileStamps ==> fileStamps[key] == current)
    {
      if key !in fileStamps { return true; }
      ok := fileStamps[key] == current;
    }

    /** False: the overwrite is refused until the file is read again. */
    method CheckOverwriteSeen(key: Key) returns (ok: bool)
      ensures ok <==> key !in View().shell
    {
      ok := key !in shellStamped;
    }

    /** Before a foreground shell command: the stamped files that still hold their
        stamped content, in the order `keys` the map yields them. */
    method SnapshotStampsForShell(disk: Disk, keys: seq<Key>, at: int) returns (out: seq<ShellStamp>)
      requires |keys| <= MAX_STAMP_FILES && forall k :: k in keys ==> k in fileStamps
      modifies this`stampIDs
      ensures var s := SnapAll(old(View()), disk, keys, at); View() == s.guard && out == s.out
    {
      out := [];
      var verifiedFiles: nat, verifiedBytes: nat := 0, 0;
      for i := 0 to |keys|
        invariant SnapAll(old(View()), disk, keys[..i], at) == Snap(View(), out, verifiedFiles, verifiedBytes)
      {
        assert keys[..i + 1][..i] == keys[..i];
        var key := keys[i];
        var sum := fileStamps[key];
        if key !in disk { continue; }
        var now := disk[key].id;
        if key in stampIDs && now == stampIDs[key].id && IdentityTrusted(stampIDs[key]) {
          out := out + [ShellStamp(key, sum, now)];
          continue;
        }
        if verifiedFiles >= MAX_VERIFY_FILES || verifiedBytes + now.size > MAX_VERIFY_BYTES { continue; }
        verifiedFiles := verifiedFiles + 1;
        verifiedBytes := verifiedBytes + now.size;
        if disk[key].content != sum { continue; }
        stampIDs := stampIDs[key := Stamped(now, at)];
        out := out + [ShellStamp(key, sum, now)];
      }
      assert keys[..|keys|] == keys;
    }

    /** Right after the command: re-stamps the eligible files it changed. */
    method RestampAfterShell(disk: Disk, snap: seq<ShellStamp>, at: int) returns (changed: seq<Key>)
      modifies this
      ensures var r := RestampAll(old(View()), disk, snap, at); View() == r.guard && changed == r.changed
    {
      changed := [];
      var budget := MAX_RESTAMP_BYTES;
      for i := 0 to |snap|
        invariant RestampAll(old(View()), disk, snap[..i], at) == Restamp(View(), changed, budget)
      {
        assert snap[..i + 1][..i] == snap[..i];
        var s := snap[i];
        if s.key !in disk || disk[s.key].id == s.before || disk[s.key].id.size > budget { continue; }
        var now, sum := disk[s.key].id, disk[s.key].content;
        budget := budget - now.size;
        if s.key in fileStamps && fileStamps[s.key] == s.sum {
          if sum == s.sum {
            stampIDs := stampIDs[s.key := Stamped(now, at)];
          } else {
            SetStampLocked(s.key, sum, FromShell, Some(Stamped(now, at)));
            changed := changed + [s.key];
          }
        }
      }
      assert snap[..|snap|] == snap;
    }

    /** The stamps changed since the last call, in the order `keys` gives them. */
    method TakeStampDelta(keys: seq<Key>) returns (records: seq<Record>)
      requires (set k | k in keys) == stampsChanged
      modifies this`stampsChanged
      ensures records == Records(old(View()), keys) && View() == old(View()).(changed := {})
    {
      stampsChanged := {};
      records := [];
      for i := 0 to |keys|
        invariant |records| == i && forall j :: 0 <= j < i ==> records[j] == RecordOf(old(View()), keys[j])
      {
        records := records + [RecordOf(View(), keys[i])];
      }
    }

    /** Rebuilds the stamps from the records of a conversation, in order. */
    method RestoreStamps(log: seq<Record>)
      modifies this
      ensures View() == Restore(old(View()), log)
    {
      for i := 0 to |log|
        invariant View() == Restore(old(View()), log[..i])
      {
        assert log[..i + 1][..i] == log[..i];
        var fs := log[i];
        if fs.seen.Some? {
          fileStamps := fileStamps[fs.path := fs.seen.value];
          stampIDs := stampIDs - {fs.path};
          if fs.shell {
            shellStamped := shellStamped + {fs.path};
          } else {
            shellStamped := shellStamped - {fs.path};
          }
        }
        if fs.read.Some? {
          readStamps := readStamps[fs.path := fs.read.value];
        }
      }
      assert log[..|log|] == log;
    }
  }
}
