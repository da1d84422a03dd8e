// Reconciling the local branch with its remote: fetch, classify, fast-forward, push.
module Sync {
  import opened Base
  import opened Git

  datatype Synced = UpToDate | FastForwarded | LocalAhead | RemoteBranchMissing | Unavailable

  datatype SyncError = UnrelatedHistories | DivergedHistories | DirtyAndBehind | CheckoutInterrupted

  // A successful fetch. Nothing is pruned, so a branch that disappeared from
  // the remote keeps its last known tracking commit.
  function Fetch(r: Repo, remote: Option<Commit>): Repo {
    r.(tracking := if remote.Some? then remote else r.tracking)
  }

  // Forced checkout of `tree`: the index becomes the tree, every file the old
  // index tracked is overwritten or removed, untracked files elsewhere stay.
  function ForcedCheckout(r: Repo, tree: Tree): Repo {
    r.(index := tree, work := (r.work - r.index.Keys) + tree)
  }

  // Move the branch first, then check it out; a kill can fall in between.
  function MoveBranch(r: Repo, target: Commit, killed: bool): (Repo, Result<Synced, SyncError>) {
    var moved := r.(head := Some(target));
    if killed then (moved, Err(CheckoutInterrupted))
    else (ForcedCheckout(moved, target.tree), Ok(FastForwarded))
  }

  // merge_base succeeds: some ancestor of `c` is contained in `d` too.
  predicate MergeBaseExists(c: Commit, d: Commit)
    decreases c
  {
    Reaches(d, c) || exists p | p in c.parents :: MergeBaseExists(p, d)
  }

  // The part of sync after the fetch.
  function Integrate(r: Repo, killed: bool): (Repo, Result<Synced, SyncError>) {
    if r.tracking.None? then (r, Ok(RemoteBranchMissing)) else
    var remote := r.tracking.value;
    if r.head.None? then MoveBranch(r, remote, killed) else
    var local := r.head.value;
    if local == remote then (r, Ok(UpToDate)) else
    if DescendantOf(local, remote) then (r, Ok(LocalAhead)) else
    if !DescendantOf(remote, local) then
      (r, Err(if MergeBaseExists(local, remote) then DivergedHistories else UnrelatedHistories)) else
    if Dirty(r) then (r, Err(DirtyAndBehind)) else
    MoveBranch(r, remote, killed)
  }

  function SyncWith(r: Repo, remote: Option<Commit>, reachable: bool, killed: bool): (Repo, Result<Synced, SyncError>) {
    if !reachable then (r, Ok(Unavailable)) else Integrate(Fetch(r, remote), killed)
  }

  datatype PushError = NothingToPush | Rejected | Unreachable

  // An unforced push: the remote moves only if its head is already contained
  // in ours, and libgit2 then refreshes the tracking reference.
  function PushTo(r: Repo, remote: Option<Commit>, reachable: bool): (Repo, Option<Commit>, Result<(), PushError>) {
    if !reachable then (r, remote, Err(Unreachable)) else
    if r.head.None? then (r, remote, Err(NothingToPush)) else
    if !Extends(r.head, remote) then (r, remote, Err(Rejected)) else
    (r.(tracking := r.head), r.head, Ok(()))
  }

  // --------------------------------------------------------------------------
  // The classification, on every pair of histories
  // --------------------------------------------------------------------------

  // Each verdict corresponds to exactly one relation between the two heads.
  lemma SyncClassifies(r: Repo)
    requires r.head.Some? && r.tracking.Some?
    ensures var local, remote := r.head.value, r.tracking.value;
            var verdict := Integrate(r, false).1;
            && (verdict == Ok(UpToDate) <==> local == remote)
            && (verdict == Ok(LocalAhead) <==> Reaches(local, remote) && !Reaches(remote, local))
            && (verdict == Ok(FastForwarded) <==> Reaches(remote, local) && !Reaches(local, remote) && !Dirty(r))
            && (verdict == Err(DirtyAndBehind) <==> Reaches(remote, local) && !Reaches(local, remote) && Dirty(r))
            && (verdict == Err(DivergedHistories) <==>
                 !Reaches(local, remote) && !Reaches(remote, local) && Related(local, remote))
            && (verdict == Err(UnrelatedHistories) <==> !Related(local, remote))
  {
    var local, remote := r.head.value, r.tracking.value;
    if Reaches(local, remote) && Reaches(remote, local) {
      ReachesAntisymmetric(local, remote);
    }
    MergeBaseMeansRelated(local, remote);
    assert Reaches(local, local) && Reaches(remote, remote);
  }

  // What every sync answers, and what it knows of the remote afterwards: an
  // unreachable remote is no error, a branch the remote does not have is
  // missing, a repository without commits takes over what there is, and two
  // histories are compared as above.
  lemma SyncAnswers(r: Repo, remote: Option<Commit>, reachable: bool, killed: bool)
    ensures var (s, verdict) := SyncWith(r, remote, reachable, killed);
            var known := if reachable && remote.Some? then remote else r.tracking;
            var both := reachable && known.Some? && r.head.Some?;
            var behind := both && Reaches(known.value, r.head.value) && !Reaches(r.head.value, known.value);
            var moves := (reachable && known.Some? && r.head.None?) || (behind && !Dirty(r));
            && s.tracking == known
            && (verdict == Ok(Unavailable) <==> !reachable)
            && (verdict == Ok(RemoteBranchMissing) <==> reachable && known.None?)
            && (verdict == Ok(FastForwarded) <==> moves && !killed)
            && (verdict == Err(CheckoutInterrupted) <==> moves && killed)
            && (verdict == Ok(FastForwarded) ==> s.head == known)
            && (verdict == Ok(UpToDate) <==> both && r.head == known)
            && (verdict == Ok(LocalAhead) <==> both && Reaches(r.head.value, known.value) && !Reaches(known.value, r.head.value))
            && (verdict == Err(DirtyAndBehind) <==> behind && Dirty(r))
            && (verdict == Err(DivergedHistories) <==>
                 both && Related(r.head.value, known.value) && !Reaches(r.head.value, known.value) && !Reaches(known.value, r.head.value))
            && (verdict == Err(UnrelatedHistories) <==> both && !Related(r.head.value, known.value))
  {
    var f := Fetch(r, remote);
    if reachable && f.head.Some? && f.tracking.Some? {
      SyncClassifies(f);
    }
  }

  lemma {:induction false} MergeBaseMeansRelated(c: Commit, d: Commit)
    ensures MergeBaseExists(c, d) <==> Related(c, d)
    decreases c
  {
    assert Reaches(c, c);
    forall p | p in c.parents
      ensures MergeBaseExists(p, d) <==> Related(p, d)
    {
      MergeBaseMeansRelated(p, d);
    }
    if p :| p in c.parents && Related(p, d) {
      var base :| Reaches(p, base) && Reaches(d, base);
      assert Reaches(c, base);
    }
    if Related(c, d) {
      var base :| Reaches(c, base) && Reaches(d, base);
      if base != c {
        var p :| p in c.parents && Reaches(p, base);
        assert Related(p, d);
      }
    }
  }

  // Whatever sync answers, the branch keeps every commit it had; and unless
  // it fast-forwarded (or was killed doing so) nothing local moved at all.
  lemma SyncKeepsLocal(r: Repo, remote: Option<Commit>, reachable: bool, killed: bool)
    ensures var (s, verdict) := SyncWith(r, remote, reachable, killed);
            && Extends(s.head, r.head)
            && (verdict != Ok(FastForwarded) && verdict != Err(CheckoutInterrupted) ==>
                 s.head == r.head && s.index == r.index && s.work == r.work)
            && (verdict == Ok(FastForwarded) ==> s.head == s.tracking && s.index == HeadTree(s.head))
            && (verdict == Ok(FastForwarded) && !Dirty(r) ==> !Dirty(s))
  {
    var f := Fetch(r, remote);
    if reachable && f.head.Some? && f.tracking.Some? {
      assert Reaches(f.head.value, f.head.value);
    }
    if !Dirty(r) {
      assert r.work - r.index.Keys == map[];
    }
  }

  // A fast-forward puts the remote's tree in place of the tracked files, and
  // leaves untracked files elsewhere alone.
  lemma CheckoutReplaces(r: Repo, remote: Option<Commit>, p: Path)
    requires SyncWith(r, remote, true, false).1 == Ok(FastForwarded)
    ensures var s := SyncWith(r, remote, true, false).0;
            var tree := HeadTree(if remote.Some? then remote else r.tracking);
            && At(HeadTree(s.head), p) == At(s.index, p) == At(tree, p)
            && At(s.work, p) == if p in tree || p in r.index then At(tree, p) else At(r.work, p)
  {
  }

  // After an error-free exchange with a reachable remote that has the branch,
  // the local branch contains the remote one, so a push cannot be rejected.
  lemma SyncedCanPush(r: Repo, remote: Option<Commit>)
    requires remote.Some?
    ensures var (s, verdict) := SyncWith(r, remote, true, false);
            && (verdict.Ok? ==> Extends(s.head, remote) && PushTo(s, remote, true).2.Ok?)
            && (verdict.Ok? && verdict.value != LocalAhead ==> s.head == remote)
  {
  }
}
