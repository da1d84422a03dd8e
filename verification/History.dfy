// The change history of one file: which commits of a walk it shows, and that
// in a repository kept clean those are exactly the stores of that file.
module History {
  import opened Base
  import opened Git
  import opened CrashRecovery

  function FirstParentTree(c: Commit): Tree {
    if c.parents == [] then map[] else c.parents[0].tree
  }

  predicate Touches(c: Commit, p: Path) {
    At(c.tree, p) != At(FirstParentTree(c), p)
  }

  function Touching(walk: seq<Commit>, p: Path): seq<Commit> {
    if walk == [] then []
    else
      var n := |walk| - 1;
      Touching(walk[..n], p) + if Touches(walk[n], p) then [walk[n]] else []
  }

  function Entries(walk: seq<Commit>, p: Path, limit: nat): seq<Commit> {
    var all := Touching(walk, p);
    if |all| <= limit then all else all[..limit]
  }

  // What a revision walk from `head` hands out: every commit of the branch, once.
  ghost predicate IsWalk(walk: seq<Commit>, head: Option<Commit>) {
    && (forall c :: c in walk <==> BranchHas(head, c))
    && (forall i, j | 0 <= i < j < |walk| :: walk[i] != walk[j])
  }

  lemma {:induction false} TouchingPrefix(walk: seq<Commit>, p: Path, k: nat)
    requires k <= |walk|
    ensures Touching(walk[..k], p) <= Touching(walk, p)
    decreases |walk|
  {
    if k == |walk| {
      assert walk[..k] == walk;
    } else {
      var n := |walk| - 1;
      TouchingPrefix(walk[..n], p, k);
      assert walk[..n][..k] == walk[..k];
    }
  }

  // Stopping the walk at the limit loses nothing that would have been shown.
  lemma EntriesFromPrefix(walk: seq<Commit>, p: Path, limit: nat, k: nat)
    requires k <= |walk| && |Touching(walk[..k], p)| <= limit
    requires k == |walk| || |Touching(walk[..k], p)| == limit
    ensures Entries(walk, p, limit) == Touching(walk[..k], p)
  {
    TouchingPrefix(walk, p, k);
    if k == |walk| {
      assert walk[..k] == walk;
    }
  }

  lemma {:induction false} TouchingIsTouched(walk: seq<Commit>, p: Path, c: Commit)
    ensures c in Touching(walk, p) <==> c in walk && Touches(c, p)
  {
    if walk != [] {
      var n := |walk| - 1;
      TouchingIsTouched(walk[..n], p, c);
      assert walk == walk[..n] + [walk[n]];
    }
  }

  // Below the limit, history shows a commit exactly if it is part of the
  // branch and changed the file against its first parent.
  lemma HistoryIsComplete(walk: seq<Commit>, p: Path, limit: nat, c: Commit)
    requires |Entries(walk, p, limit)| < limit
    ensures c in Entries(walk, p, limit) <==> c in walk && Touches(c, p)
  {
    TouchingIsTouched(walk, p, c);
  }

  // --------------------------------------------------------------------------
  // A branch made by stores alone
  // --------------------------------------------------------------------------

  // The walk of a branch without merges: newest first, down the first parents.
  function Chain(head: Option<Commit>): seq<Commit>
    decreases head
  {
    if head.None? then []
    else [head.value] + ChainOf(head.value)
  }

  function ChainOf(c: Commit): seq<Commit> {
    if c.parents == [] then [] else [c.parents[0]] + ChainOf(c.parents[0])
  }

  // The commits returned by the stores of `p`, newest first.
  function CommitsOf(r: Repo, history: seq<Attempt>, p: Path): seq<Commit> {
    if history == [] then []
    else
      var n := |history| - 1;
      OwnCommit(Replay(r, history[..n]), history[n], p) + CommitsOf(r, history[..n], p)
  }

  // The commit a single store makes, when it is a store of `p`.
  function OwnCommit(r: Repo, a: Attempt, p: Path): seq<Commit> {
    var did := Try(r, a).1;
    if a.path == p && did.Ok? && did.value.Committed? then [did.value.commit] else []
  }

  ghost predicate CrashFree(history: seq<Attempt>) {
    forall a | a in history :: a.fault.NoFault? && Resolves(a.path)
  }

  lemma {:induction false} TouchingCons(c: Commit, walk: seq<Commit>, p: Path)
    ensures Touching([c] + walk, p) == (if Touches(c, p) then [c] else []) + Touching(walk, p)
    decreases |walk|
  {
    if walk == [] {
      assert [c] + walk == [c] && [c][..0] == [];
    } else {
      var n := |walk| - 1;
      assert ([c] + walk)[..n + 1] == [c] + walk[..n];
      TouchingCons(c, walk[..n], p);
    }
  }

  // One crash-free store in a clean repository adds its own commit, if any.
  lemma StoreShowsInHistory(r: Repo, a: Attempt, p: Path)
    requires !Dirty(r) && a.fault.NoFault? && Resolves(a.path)
    ensures var (s, did) := Try(r, a);
            && did.Ok? && !Dirty(s)
            && Touching(Chain(s.head), p) == OwnCommit(r, a, p) + Touching(Chain(r.head), p)
  {
    CleanStore(r, a.path, a.contents, a.meta);
    var did := Try(r, a).1;
    if did.value.Committed? {
      TipTouches(r.head, did.value.commit, p);
      TouchesOnly(r.head, did.value.commit, a.path, a.contents, p);
    }
  }

  lemma TipTouches(head: Option<Commit>, c: Commit, p: Path)
    requires c.parents == if head.Some? then [head.value] else []
    ensures Touching(Chain(Some(c)), p) == (if Touches(c, p) then [c] else []) + Touching(Chain(head), p)
    ensures FirstParentTree(c) == HeadTree(head)
  {
    assert Chain(Some(c)) == [c] + Chain(head);
    TouchingCons(c, Chain(head), p);
  }

  lemma TouchesOnly(head: Option<Commit>, c: Commit, q: Path, contents: Blob, p: Path)
    requires FirstParentTree(c) == HeadTree(head) && c.tree == HeadTree(head)[q := contents] && At(HeadTree(head), q) != Some(contents)
    ensures Touches(c, p) <==> q == p
  {
  }

  // One commit per change: from any clean repository, after any crash-free
  // stores, the history of a file is the commits its own stores returned,
  // newest first, followed by the history it already had.
  lemma {:induction false} HistoryIsTheStores(r: Repo, history: seq<Attempt>, p: Path)
    requires !Dirty(r) && CrashFree(history)
    ensures !Dirty(Replay(r, history))
    ensures Touching(Chain(Replay(r, history).head), p) == CommitsOf(r, history, p) + Touching(Chain(r.head), p)
  {
    if history == [] {
      assert CommitsOf(r, history, p) == [];
    } else {
      var before, a := history[..|history| - 1], history[|history| - 1];
      assert history == before + [a];
      CrashFreePrefix(before, a);
      HistoryIsTheStores(r, before, p);
      HistoryStep(r, before, a, p);
    }
  }

  lemma CrashFreePrefix(before: seq<Attempt>, a: Attempt)
    requires CrashFree(before + [a])
    ensures CrashFree(before) && a.fault.NoFault? && Resolves(a.path)
  {
    assert a in before + [a];
    assert forall x | x in before :: x in before + [a];
  }

  lemma HistoryStep(r: Repo, before: seq<Attempt>, a: Attempt, p: Path)
    requires a.fault.NoFault? && Resolves(a.path) && !Dirty(Replay(r, before))
    requires Touching(Chain(Replay(r, before).head), p) == CommitsOf(r, before, p) + Touching(Chain(r.head), p)
    ensures var s := Replay(r, before + [a]);
            !Dirty(s) && Touching(Chain(s.head), p) == CommitsOf(r, before + [a], p) + Touching(Chain(r.head), p)
  {
    var s := Replay(r, before);
    StoreShowsInHistory(s, a, p);
    OneMoreCommit(r, before, a, p);
    Reassociate(OwnCommit(s, a, p), CommitsOf(r, before, p), Touching(Chain(r.head), p));
  }

  lemma Reassociate(a: seq<Commit>, b: seq<Commit>, c: seq<Commit>)
    ensures a + (b + c) == a + b + c
  {
  }

  // What the last of several stores adds.
  lemma OneMoreCommit(r: Repo, before: seq<Attempt>, a: Attempt, p: Path)
    ensures Replay(r, before + [a]) == Try(Replay(r, before), a).0
    ensures CommitsOf(r, before + [a], p) == OwnCommit(Replay(r, before), a, p) + CommitsOf(r, before, p)
  {
    assert (before + [a])[..|before|] == before;
  }

  // Every ancestor has at most one parent.
  predicate Linear(c: Commit) {
    c.parents == [] || (|c.parents| == 1 && Linear(c.parents[0]))
  }

  // On such a branch the chain is the whole branch.
  lemma {:induction false} ChainIsTheBranch(c: Commit, a: Commit)
    requires Linear(c)
    ensures a in Chain(Some(c)) <==> Reaches(c, a)
    decreases c
  {
    if c.parents != [] {
      ChainIsTheBranch(c.parents[0], a);
    }
  }

  // So it is a walk.
  lemma ChainIsWalk(head: Option<Commit>)
    requires head.Some? ==> Linear(head.value)
    ensures IsWalk(Chain(head), head)
  {
    if head.Some? {
      forall c ensures c in Chain(head) <==> BranchHas(head, c) {
        ChainIsTheBranch(head.value, c);
      }
      ChainGoesDown(head.value);
    }
  }

  lemma {:induction false} ChainGoesDown(c: Commit)
    requires Linear(c)
    ensures var walk := Chain(Some(c)); forall i, j | 0 <= i < j < |walk| :: walk[i] != walk[j]
    decreases c
  {
    if c.parents != [] {
      var p := c.parents[0];
      ChainGoesDown(p);
      var walk := Chain(Some(p));
      forall j | 0 <= j < |walk| ensures walk[j] != c {
        assert walk[j] in walk;
        ChainIsTheBranch(p, walk[j]);
        if walk[j] != p {
          AncestorIsSmaller(p, walk[j]);
        }
        assert p < c;
      }
      assert Chain(Some(c)) == [c] + walk;
    }
  }

  // Stores keep a branch free of merges.
  lemma StoreKeepsLinear(r: Repo, a: Attempt)
    requires r.head.Some? ==> Linear(r.head.value)
    ensures var s := Try(r, a).0; s.head.Some? ==> Linear(s.head.value)
  {
  }
}
