/** Why a trusted identity stands for content: the clock-granularity argument of
    internal/agent/file_stamps.go, and where it stops. */
module StampHistory {
  import opened Wrappers
  import opened FileStamps

  /** One change of a file: when, and what it left (nothing, when it deleted the file);
      a touch leaves the content. */
  datatype Change = Change(time: int, left: Option<File>)

  /** A stat shows the size of the content, and a ctime within the granularity before
      the change, or 0 where the platform has none. */
  predicate Leaves(time: int, f: File) {
    f.id.size == |f.content| && (f.id.ctime == 0 || time - RACY_WINDOW < f.id.ctime <= time)
  }

  /** The identity has a ctime, and it was at least the granularity old at `t`. */
  predicate Settled(id: Identity, t: int) { id.ctime != 0 && t - id.ctime >= RACY_WINDOW }

  /** The timestamp model: changes in time order. */
  ghost predicate Legal(h: seq<Change>) {
    && (forall i :: 0 <= i < |h| && h[i].left.Some? ==> Leaves(h[i].time, h[i].left.value))
    && (forall i, j :: 0 <= i < j < |h| ==> h[i].time <= h[j].time)
  }

  /** The file after its first `k` changes. */
  function After(h: seq<Change>, k: nat): Option<File>
    requires k <= |h|
  {
    if k == 0 then None else h[k - 1].left
  }

  /** Changes from the `k`-th on happened at `t` or later. */
  ghost predicate Since(h: seq<Change>, k: nat, t: int) {
    forall i :: k <= i < |h| ==> h[i].time >= t
  }

  /** The file is there, with this identity. */
  predicate Shows(f: Option<File>, id: Identity) {
    f.Some? && f.value.id == id
  }

  /** A change since `t` leaves an identity that was not settled at `t`. */
  lemma ChangedMoves(h: seq<Change>, t: int, k: nat, m: nat)
    requires Legal(h) && k <= m <= |h| && Since(h, k, t)
    ensures k < m && After(h, m).Some? ==> !Settled(After(h, m).value.id, t)
  {
    if k < m && After(h, m).Some? { assert Leaves(h[m - 1].time, After(h, m).value); }
  }

  /** A trusted identity that the file still (or again) shows proves that nothing
      has changed since the content was verified, so what the file held at any
      moment from then on is what it holds. */
  lemma TrustedProvesContent(h: seq<Change>, si: Stamped, k: nat, w: nat, m: nat)
    requires Legal(h) && k <= w <= m <= |h|
    requires Since(h, k, si.verifiedAt)
    requires IdentityTrusted(si) && Shows(After(h, m), si.id)
    ensures k == m && After(h, m) == After(h, w)
  {
    ChangedMoves(h, si.verifiedAt, k, m);
  }

  /** Without the margin a stat proves nothing: for any identity too young to be
      trusted, or without a ctime, and any two contents of its size, there is a history in which the file
      changes from one to the other and the identity stays, although no ctime ever goes
      back. */
  lemma YoungProvesNothing(si: Stamped, before: Content, after: Content) returns (h: seq<Change>)
    requires !Settled(si.id, si.verifiedAt) && |before| == |after| == si.id.size
    ensures Legal(h) && |h| == 2 && Since(h, 1, si.verifiedAt)
    ensures After(h, 1) == Some(File(before, si.id)) && After(h, 2) == Some(File(after, si.id))
  {
    var time := Max(si.verifiedAt, si.id.ctime);
    h := [Change(time, Some(File(before, si.id))), Change(time, Some(File(after, si.id)))];
  }

  /** Unchanged content follows from an equal identity: of a file that showed it at a
      moment before which all but changes since `verifiedAt` had happened, and shows it
      later. */
  ghost predicate Proves(si: Stamped) {
    forall h: seq<Change>, k: nat, w: nat, m: nat {:trigger Since(h, k, si.verifiedAt), After(h, w), After(h, m)} ::
      Legal(h) && k <= w <= m <= |h| && Since(h, k, si.verifiedAt) && Shows(After(h, w), si.id) && Shows(After(h, m), si.id) ==>
        After(h, w).value.content == After(h, m).value.content
  }

  function Filled(c: char, n: nat): (s: Content)
    ensures |s| == n && forall i :: 0 <= i < n ==> s[i] == c
  {
    seq(n, _ => c)
  }

  /** The test is exact: an identity proves content if and only if it has a ctime that was
      at least the granularity old when it was recorded, or the file is empty. */
  lemma ProofIffSettled(si: Stamped)
    ensures Proves(si) <==> Settled(si.id, si.verifiedAt) || si.id.size == 0
  {
    if !Settled(si.id, si.verifiedAt) && si.id.size > 0 {
      var a, b := Filled('a', si.id.size), Filled('b', si.id.size);
      var h := YoungProvesNothing(si, a, b);
      assert Since(h, 1, si.verifiedAt) && After(h, 1).value.content[0] != After(h, 2).value.content[0];
    } else {
      forall h: seq<Change>, k: nat, w: nat, m: nat {:trigger Since(h, k, si.verifiedAt), After(h, w), After(h, m)} |
        Legal(h) && k <= w <= m <= |h| && Since(h, k, si.verifiedAt) && Shows(After(h, w), si.id) && Shows(After(h, m), si.id)
        ensures After(h, w).value.content == After(h, m).value.content
      {
        EqualIdentities(h, si, k, w, m);
      }
    }
  }

  lemma EqualIdentities(h: seq<Change>, si: Stamped, k: nat, w: nat, m: nat)
    requires Legal(h) && k <= w <= m <= |h| && Since(h, k, si.verifiedAt)
    requires Shows(After(h, w), si.id) && Shows(After(h, m), si.id)
    requires Settled(si.id, si.verifiedAt) || si.id.size == 0
    ensures After(h, w).value.content == After(h, m).value.content
  {
    if si.id.size == 0 {
      assert Leaves(h[w - 1].time, After(h, w).value) && Leaves(h[m - 1].time, After(h, m).value);
    } else {
      ChangedMoves(h, si.verifiedAt, k, m);
    }
  }
}
