// The backup repository of src/git/mod.rs as a value: commits, the branch,
// the index, the working tree, and the pure meaning of every operation on them.
module Git {
  import opened Base

  // Components of a path relative to the working tree; "/" stands for a root
  // component and ".." for a parent component.
  type Path = seq<string>

  type Tree = map<Path, Blob>

  // What a commit did to its own path. Line counts are a function of this pair.
  datatype Change = Change(before: Option<Blob>, after: Blob)

  datatype Meta = Meta(device: string, capturedAt: int, details: string)

  // Commits made by the pipeline describe one capture; everyone else's text is opaque.
  datatype Note = CaptureNote(path: Path, meta: Meta, change: Change, initial: bool) | Foreign(text: string)

  // A commit is its content: two commits with the same tree, parents and note
  // have the same id. The graph below a commit is therefore finite and acyclic.
  datatype Commit = Commit(tree: Tree, parents: seq<Commit>, note: Note)

  // --------------------------------------------------------------------------
  // Ancestry
  // --------------------------------------------------------------------------

  // `a` is `c` itself or one of its ancestors.
  predicate Reaches(c: Commit, a: Commit)
    decreases c
  {
    a == c || exists p | p in c.parents :: Reaches(p, a)
  }

  // libgit2's graph_descendant_of: a commit is not a descendant of itself.
  predicate DescendantOf(c: Commit, a: Commit) {
    a != c && Reaches(c, a)
  }

  ghost predicate Related(c: Commit, d: Commit) {
    exists base :: Reaches(c, base) && Reaches(d, base)
  }

  lemma {:induction false} ReachesTransitive(c: Commit, b: Commit, a: Commit)
    requires Reaches(c, b) && Reaches(b, a)
    ensures Reaches(c, a)
    decreases c
  {
    if b != c {
      var p :| p in c.parents && Reaches(p, b);
      ReachesTransitive(p, b, a);
    }
  }

  // A strict ancestor is a proper part of the commit, so ancestry has no cycle.
  lemma {:induction false} AncestorIsSmaller(c: Commit, a: Commit)
    requires DescendantOf(c, a)
    ensures a < c
    decreases c
  {
    var p :| p in c.parents && Reaches(p, a);
    if p != a {
      AncestorIsSmaller(p, a);
    }
  }

  lemma ReachesAntisymmetric(c: Commit, d: Commit)
    requires Reaches(c, d) && Reaches(d, c)
    ensures c == d
  {
    if c != d {
      AncestorIsSmaller(c, d);
      AncestorIsSmaller(d, c);
    }
  }

  // The branch `later` still contains everything the branch `earlier` contained.
  predicate Extends(later: Option<Commit>, earlier: Option<Commit>) {
    earlier.None? || (later.Some? && Reaches(later.value, earlier.value))
  }

  predicate BranchHas(branch: Option<Commit>, c: Commit) {
    branch.Some? && Reaches(branch.value, c)
  }

  lemma ExtendsTransitive(c: Option<Commit>, b: Option<Commit>, a: Option<Commit>)
    requires Extends(c, b) && Extends(b, a)
    ensures Extends(c, a)
  {
    if a.Some? {
      ReachesTransitive(c.value, b.value, a.value);
    }
  }

  lemma ExtendsKeepsCommits(later: Option<Commit>, earlier: Option<Commit>, c: Commit)
    requires Extends(later, earlier) && BranchHas(earlier, c)
    ensures BranchHas(later, c)
  {
    ReachesTransitive(later.value, earlier.value, c);
  }

  // --------------------------------------------------------------------------
  // The repository
  // --------------------------------------------------------------------------

  datatype Repo = Repo(head: Option<Commit>, index: Tree, work: Tree, tracking: Option<Commit>)

  function HeadTree(head: Option<Commit>): Tree {
    if head.Some? then head.value.tree else map[]
  }

  function At(t: Tree, p: Path): Option<Blob> {
    if p in t then Some(t[p]) else None
  }

  // A non-empty libgit2 status for one path.
  predicate PathDirty(r: Repo, p: Path) {
    !(At(HeadTree(r.head), p) == At(r.index, p) == At(r.work, p))
  }

  // Any status at all, untracked files included.
  predicate Dirty(r: Repo) {
    !(HeadTree(r.head) == r.index == r.work)
  }

  predicate Resolves(p: Path) {
    (p == [] || p[0] != "/") && ".." !in p
  }

  // Where a store is cut short, by a kill or by a failing system call.
  // A torn write leaves arbitrary bytes in the file.
  datatype Fault = NoFault | BeforeWrite | TornWrite(left: Blob) | AfterWrite | AfterIndex

  datatype Stored = Unchanged | Committed(commit: Commit)

  datatype StoreError = PathEscapes | Interrupted

  // Everything from the index write to the moved branch.
  function CommitPath(r: Repo, p: Path, meta: Meta, initial: bool, fault: Fault): (Repo, Result<Stored, StoreError>)
    requires p in r.work
  {
    var staged := r.(index := r.index[p := r.work[p]]);
    if fault.AfterIndex? then (staged, Err(Interrupted)) else
    var change := Change(At(HeadTree(r.head), p), staged.index[p]);
    var parents := if r.head.Some? then [r.head.value] else [];
    var commit := Commit(staged.index, parents, CaptureNote(p, meta, change, initial));
    (staged.(head := Some(commit)), Ok(Committed(commit)))
  }

  function Store(r: Repo, p: Path, contents: Blob, meta: Meta, fault: Fault): (Repo, Result<Stored, StoreError>) {
    if !Resolves(p) then (r, Err(PathEscapes)) else
    if fault.BeforeWrite? then (r, Err(Interrupted)) else
    var changed := At(r.work, p) != Some(contents);
    if changed && fault.TornWrite? then (r.(work := r.work[p := fault.left]), Err(Interrupted)) else
    var written := r.(work := r.work[p := contents]);
    if !changed && !PathDirty(written, p) then (r, Ok(Unchanged)) else
    if fault.AfterWrite? then (written, Err(Interrupted)) else
    CommitPath(written, p, meta, p !in HeadTree(r.head), fault)
  }

  function WouldChange(r: Repo, p: Path, contents: Blob): Result<bool, StoreError> {
    if !Resolves(p) then Err(PathEscapes)
    else Ok(At(r.work, p) != Some(contents) || PathDirty(r, p))
  }

  // --------------------------------------------------------------------------
  // What one store guarantees, from any state whatever
  // --------------------------------------------------------------------------

  // All three places hold `b` at `p`.
  predicate Settled(r: Repo, p: Path, b: Blob) {
    At(HeadTree(r.head), p) == At(r.index, p) == At(r.work, p) == Some(b)
  }

  // A store that returns Ok has settled its path, whatever earlier kills left behind.
  lemma StoreSettles(r: Repo, p: Path, contents: Blob, meta: Meta, fault: Fault)
    requires Store(r, p, contents, meta, fault).1.Ok?
    ensures Settled(Store(r, p, contents, meta, fault).0, p, contents)
  {
    assert r.work[p := contents][p] == contents;
  }

  // Any store, completed or cut short, only ever adds to the branch.
  lemma StoreExtends(r: Repo, p: Path, contents: Blob, meta: Meta, fault: Fault)
    ensures Extends(Store(r, p, contents, meta, fault).0.head, r.head)
  {
    var s := Store(r, p, contents, meta, fault).0;
    if s.head != r.head && r.head.Some? {
      assert r.head.value in s.head.value.parents;
    }
  }

  // A store touches no other path, except that its commit carries along
  // whatever an interrupted store had already staged.
  lemma StoreFrame(r: Repo, p: Path, contents: Blob, meta: Meta, fault: Fault, q: Path)
    requires q != p
    ensures var s := Store(r, p, contents, meta, fault).0;
            && At(s.work, q) == At(r.work, q)
            && At(s.index, q) == At(r.index, q)
            && At(HeadTree(s.head), q) == (if s.head == r.head then At(HeadTree(r.head), q) else At(r.index, q))
  {
  }

  // Nothing is written outside the repository: a path that begins at the root,
  // or climbs anywhere, is refused by stores and questions alike, whatever the
  // fault, and no other path is.
  lemma EscapesAreRefused(r: Repo, p: Path, contents: Blob, meta: Meta, fault: Fault)
    ensures Store(r, p, contents, meta, fault).1 == Err(PathEscapes) <==> ".." in p || (p != [] && p[0] == "/")
    ensures Store(r, p, contents, meta, fault).1 == Err(PathEscapes) ==> Store(r, p, contents, meta, fault).0 == r
    ensures WouldChange(r, p, contents).Err? <==> ".." in p || (p != [] && p[0] == "/")
  {
  }

  // Without a fault a store commits exactly when the file or its status says so.
  lemma StoreMatchesWouldChange(r: Repo, p: Path, contents: Blob, meta: Meta)
    ensures var would := WouldChange(r, p, contents);
            var did := Store(r, p, contents, meta, NoFault).1;
            && (would.Err? <==> did.Err?)
            && (would.Ok? ==> (would.value <==> did.value.Committed?))
  {
    if At(r.work, p) == Some(contents) {
      assert r.work[p := contents] == r.work;
    }
  }

  // In a clean repository one commit changes one path, and only when the
  // contents differ from the branch; the repository stays clean.
  lemma CleanStore(r: Repo, p: Path, contents: Blob, meta: Meta)
    requires !Dirty(r) && Resolves(p)
    ensures var (s, did) := Store(r, p, contents, meta, NoFault);
            && !Dirty(s)
            && did.Ok?
            && (did.value.Committed? <==> At(HeadTree(r.head), p) != Some(contents))
            && (did.value.Unchanged? ==> s == r)
            && (did.value.Committed? ==>
                 && s.head == Some(did.value.commit)
                 && did.value.commit.parents == (if r.head.Some? then [r.head.value] else [])
                 && did.value.commit.tree == HeadTree(r.head)[p := contents]
                 && did.value.commit.note == CaptureNote(p, meta, Change(At(HeadTree(r.head), p), contents), p !in HeadTree(r.head)))
  {
    if At(r.work, p) == Some(contents) {
      assert r.work[p := contents] == r.work;
    }
  }
}
