// Histories of stores on one working tree, each of which may be cut short anywhere.
module CrashRecovery {
  import opened Base
  import opened Git

  datatype Attempt = Attempt(path: Path, contents: Blob, meta: Meta, fault: Fault)

  function Try(r: Repo, a: Attempt): (Repo, Result<Stored, StoreError>) {
    Store(r, a.path, a.contents, a.meta, a.fault)
  }

  function Replay(r: Repo, history: seq<Attempt>): Repo {
    if history == [] then r
    else Try(Replay(r, history[..|history| - 1]), history[|history| - 1]).0
  }

  ghost predicate Succeeded(r: Repo, history: seq<Attempt>, k: nat)
    requires k < |history|
  {
    Try(Replay(r, history[..k]), history[k]).1.Ok?
  }

  lemma {:induction false} ReplayConcat(r: Repo, first: seq<Attempt>, second: seq<Attempt>)
    ensures Replay(r, first + second) == Replay(Replay(r, first), second)
  {
    if second == [] {
      assert first + second == first;
    } else {
      var whole := first + second;
      assert whole[..|whole| - 1] == first + second[..|second| - 1];
      ReplayConcat(r, first, second[..|second| - 1]);
    }
  }

  // Once settled, a path stays settled while other paths are stored,
  // however those stores end.
  lemma {:induction false} SettledPersists(r: Repo, history: seq<Attempt>, p: Path, b: Blob)
    requires Settled(r, p, b)
    requires forall a | a in history :: a.path != p
    ensures Settled(Replay(r, history), p, b)
  {
    if history != [] {
      var before, a := history[..|history| - 1], history[|history| - 1];
      SettledPersists(r, before, p, b);
      StoreFrame(Replay(r, before), a.path, a.contents, a.meta, a.fault, p);
    }
  }

  // Crash recovery: after any history of interrupted and completed stores, the
  // last store of a path that returned Ok decides the branch, the index and
  // the working tree there, as long as that path is not touched again.
  lemma OkStoreDecides(r: Repo, history: seq<Attempt>, k: nat)
    requires k < |history| && Succeeded(r, history, k)
    requires forall j | k < j < |history| :: history[j].path != history[k].path
    ensures Settled(Replay(r, history), history[k].path, history[k].contents)
  {
    var a, rest := history[k], history[k + 1..];
    assert history[..k + 1][..k] == history[..k];
    StoreSettles(Replay(r, history[..k]), a.path, a.contents, a.meta, a.fault);
    assert history == history[..k + 1] + rest;
    ReplayConcat(r, history[..k + 1], rest);
    SettledPersists(Replay(r, history[..k + 1]), rest, a.path, a.contents);
  }

  // `found` is what the branch or the index may legitimately hold at `q`:
  // something they already held, or the complete contents of some attempt.
  ghost predicate Vouched(r: Repo, history: seq<Attempt>, q: Path, found: Option<Blob>) {
    || found == At(HeadTree(r.head), q)
    || found == At(r.index, q)
    || (found.Some? && exists a | a in history :: a.path == q && a.contents == found.value)
  }

  // One step: the branch takes what was staged or the attempt's contents, the
  // index takes nothing but the attempt's contents.
  lemma TryStagesOnlyCaptures(r: Repo, a: Attempt, q: Path)
    ensures var s := Try(r, a).0;
            && (At(s.index, q) == At(r.index, q) || (a.path == q && At(s.index, q) == Some(a.contents)))
            && (At(HeadTree(s.head), q) == At(HeadTree(r.head), q) || At(HeadTree(s.head), q) == At(s.index, q))
  {
  }

  // Torn writes never reach history: no sequence of interrupted stores can
  // stage or commit anything but complete captures.
  lemma {:induction false} NothingTornIsCommitted(r: Repo, history: seq<Attempt>, q: Path)
    ensures var s := Replay(r, history);
            Vouched(r, history, q, At(HeadTree(s.head), q)) && Vouched(r, history, q, At(s.index, q))
  {
    if history != [] {
      var before, a := history[..|history| - 1], history[|history| - 1];
      NothingTornIsCommitted(r, before, q);
      TryStagesOnlyCaptures(Replay(r, before), a, q);
      VouchedGrows(r, before, history, q, At(HeadTree(Replay(r, before).head), q));
      VouchedGrows(r, before, history, q, At(Replay(r, before).index, q));
      assert a in history;
    }
  }

  lemma VouchedGrows(r: Repo, shorter: seq<Attempt>, longer: seq<Attempt>, q: Path, found: Option<Blob>)
    requires shorter <= longer && Vouched(r, shorter, q, found)
    ensures Vouched(r, longer, q, found)
  {
  }

  // A path never goes back behind its last successful store.
  lemma NoRegression(r: Repo, history: seq<Attempt>, k: nat)
    requires k < |history| && Succeeded(r, history, k)
    ensures var found := At(HeadTree(Replay(r, history).head), history[k].path);
            && found.Some?
            && exists j :: k <= j < |history| && history[j].path == history[k].path && history[j].contents == found.value
  {
    var a, rest := history[k], history[k + 1..];
    var s := Replay(r, history[..k + 1]);
    assert history[..k + 1][..k] == history[..k];
    StoreSettles(Replay(r, history[..k]), a.path, a.contents, a.meta, a.fault);
    assert history == history[..k + 1] + rest;
    ReplayConcat(r, history[..k + 1], rest);
    NothingTornIsCommitted(s, rest, a.path);
    var found := At(HeadTree(Replay(s, rest).head), a.path);
    if found != Some(a.contents) {
      var x :| x in rest && x.path == a.path && x.contents == found.value;
      var i :| 0 <= i < |rest| && rest[i] == x;
      assert history[k + 1 + i] == x;
    }
  }

  // A kill between index write and commit leaves a staged path, and the next
  // commit of any other path carries exactly that staged file along.
  lemma StagedFileRidesAlong(r: Repo, p: Path, b: Blob, q: Path, contents: Blob, meta: Meta)
    requires p != q && Resolves(p) && At(HeadTree(r.head), p) != Some(b) && At(r.work, p) != Some(b)
    ensures var killed := Store(r, p, b, meta, AfterIndex).0;
            var (s, did) := Store(killed, q, contents, meta, NoFault);
            && killed.head == r.head
            && (did.Ok? && did.value.Committed? ==> Settled(s, p, b))
            && (did.Ok? && did.value.Unchanged? ==> At(HeadTree(s.head), p) == At(HeadTree(r.head), p))
  {
    assert r.work[p := b][p] == b;
  }

  // The commit of a store shows no difference at its path, which happens while
  // recovering, exactly when the branch already held the capture there and the
  // index or the working tree did not. It is altogether empty exactly when, in
  // addition, nothing was staged elsewhere.
  lemma EmptyDiffs(r: Repo, p: Path, b: Blob, meta: Meta)
    requires Resolves(p)
    ensures var (s, did) := Store(r, p, b, meta, NoFault);
            && did.Ok?
            && (did.value.Committed? && At(did.value.commit.tree, p) == At(HeadTree(r.head), p) <==>
                At(HeadTree(r.head), p) == Some(b) && !(At(r.index, p) == At(r.work, p) == Some(b)))
            && (did.value.Committed? && did.value.commit.tree == HeadTree(r.head) <==>
                && At(HeadTree(r.head), p) == Some(b) && !(At(r.index, p) == At(r.work, p) == Some(b))
                && forall q | q != p :: At(r.index, q) == At(HeadTree(r.head), q))
  {
    var (s, did) := Store(r, p, b, meta, NoFault);
    StoreMatchesWouldChange(r, p, b, meta);
    if did.value.Committed? {
      var tree, held := did.value.commit.tree, HeadTree(r.head);
      assert tree == r.index[p := b];
      if At(held, p) == Some(b) && forall q | q != p :: At(r.index, q) == At(held, q) {
        forall q ensures At(tree, q) == At(held, q) {
          assert q != p ==> At(tree, q) == At(r.index, q);
        }
        SameTree(tree, held);
      }
      forall q | q != p ensures At(tree, q) == At(r.index, q) {
      }
    }
  }

  lemma SameTree(s: Tree, t: Tree)
    requires forall q :: At(s, q) == At(t, q)
    ensures s == t
  {
    forall q ensures q in s <==> q in t {
      assert At(s, q) == At(t, q);
    }
    forall q | q in s ensures s[q] == t[q] {
      assert At(s, q) == At(t, q);
    }
  }
}
