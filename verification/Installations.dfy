// Several installations, each with its own clone, sharing one remote branch.
// Their steps interleave in any order; people and other programs may act too.
module Installations {
  import opened Base
  import opened Git
  import opened Sync

  type SiteId = nat

  datatype System = System(sites: map<SiteId, Repo>, remote: Option<Commit>)

  datatype Action =
    | FetchRemote(site: SiteId)
    | IntegrateFetched(site: SiteId, killed: bool)
    | StoreFile(site: SiteId, path: Path, contents: Blob, meta: Meta, fault: Fault)
    | PushBranch(site: SiteId, replyLost: bool)
    // Whatever a person does to a clone by hand: rebase, reset, edit, delete.
    | OperatorEdits(site: SiteId, result: Repo)
    // Another git client pushing to the same branch.
    | OtherClientPushes(commit: Commit)

  // The server accepts an unforced push only as a fast-forward.
  function Accept(remote: Option<Commit>, pushed: Commit): Option<Commit> {
    if Extends(Some(pushed), remote) then Some(pushed) else remote
  }

  function Step(s: System, a: Action): System {
    if a.OtherClientPushes? then s.(remote := Accept(s.remote, a.commit))
    else if a.site !in s.sites then s
    else
      var r := s.sites[a.site];
      match a
      case FetchRemote(i) => s.(sites := s.sites[i := Fetch(r, s.remote)])
      case IntegrateFetched(i, killed) => s.(sites := s.sites[i := Integrate(r, killed).0])
      case StoreFile(i, p, contents, meta, fault) => s.(sites := s.sites[i := Store(r, p, contents, meta, fault).0])
      case PushBranch(i, replyLost) =>
        var (after, remote, _) := PushTo(r, s.remote, true);
        System(s.sites[i := if replyLost then r else after], remote)
      case OperatorEdits(i, result) => s.(sites := s.sites[i := result])
  }

  function Run(s: System, actions: seq<Action>): System
    decreases actions
  {
    if actions == [] then s else Run(Step(s, actions[0]), actions[1..])
  }

  // Installation `i` is left to the program throughout `actions`.
  ghost predicate Unattended(i: SiteId, actions: seq<Action>) {
    forall a | a in actions :: !(a.OperatorEdits? && a.site == i)
  }

  lemma StepMovesRemoteForward(s: System, a: Action)
    ensures Extends(Step(s, a).remote, s.remote)
  {
  }

  // Safety of the shared branch: whatever the installations, their operators
  // and other clients do, in any order, the remote head only ever moves to
  // descendants of where it was.
  lemma {:induction false} RemoteOnlyMovesForward(s: System, actions: seq<Action>)
    ensures Extends(Run(s, actions).remote, s.remote)
    decreases actions
  {
    if actions != [] {
      StepMovesRemoteForward(s, actions[0]);
      RemoteOnlyMovesForward(Step(s, actions[0]), actions[1..]);
      ExtendsTransitive(Run(s, actions).remote, Step(s, actions[0]).remote, s.remote);
    }
  }

  // A push that was accepted is permanent: every commit the pusher's branch
  // contained stays in the remote history for ever after.
  lemma PushedCommitsArePermanent(s: System, i: SiteId, replyLost: bool, later: seq<Action>, c: Commit)
    requires i in s.sites && Extends(s.sites[i].head, s.remote) && BranchHas(s.sites[i].head, c)
    ensures BranchHas(Run(Step(s, PushBranch(i, replyLost)), later).remote, c)
  {
    var pushed := Step(s, PushBranch(i, replyLost));
    RemoteOnlyMovesForward(pushed, later);
    ExtendsKeepsCommits(Run(pushed, later).remote, pushed.remote, c);
  }

  lemma StepKeepsLocalBranch(s: System, a: Action, i: SiteId)
    requires i in s.sites && !(a.OperatorEdits? && a.site == i)
    ensures i in Step(s, a).sites && Extends(Step(s, a).sites[i].head, s.sites[i].head)
  {
    var r := s.sites[i];
    if r.head.Some? {
      assert Reaches(r.head.value, r.head.value);
    }
    match a
    case StoreFile(j, p, contents, meta, fault) =>
      if j == i {
        StoreExtends(r, p, contents, meta, fault);
      }
    case _ =>
  }

  // No step of the program, in any interleaving with everyone else, makes a
  // commit of an unattended installation unreachable from its own branch.
  lemma {:induction false} LocalBranchNeverLosesCommits(s: System, actions: seq<Action>, i: SiteId)
    requires i in s.sites && Unattended(i, actions)
    ensures i in Run(s, actions).sites && Extends(Run(s, actions).sites[i].head, s.sites[i].head)
    decreases actions
  {
    if actions != [] {
      var next := Step(s, actions[0]);
      StepKeepsLocalBranch(s, actions[0], i);
      LocalBranchNeverLosesCommits(next, actions[1..], i);
      ExtendsTransitive(Run(s, actions).sites[i].head, next.sites[i].head, s.sites[i].head);
    }
  }

  // What an installation believes about the remote is always a part of what
  // the remote really contains.
  lemma {:induction false} TrackingIsPartOfRemote(s: System, actions: seq<Action>, i: SiteId)
    requires i in s.sites && Unattended(i, actions)
    requires Extends(s.remote, s.sites[i].tracking)
    ensures var t := Run(s, actions); i in t.sites && Extends(t.remote, t.sites[i].tracking)
    decreases actions
  {
    if actions != [] {
      var next := Step(s, actions[0]);
      StepMovesRemoteForward(s, actions[0]);
      ExtendsTransitive(next.remote, s.remote, s.sites[i].tracking);
      if next.remote.Some? {
        assert Reaches(next.remote.value, next.remote.value);
      }
      StoreKeepsTracking(s, actions[0], i);
      TrackingIsPartOfRemote(next, actions[1..], i);
    }
  }

  lemma StoreKeepsTracking(s: System, a: Action, i: SiteId)
    requires i in s.sites && !(a.OperatorEdits? && a.site == i)
    ensures var next := Step(s, a);
            i in next.sites && next.sites[i].tracking in {s.sites[i].tracking, s.remote, next.remote}
  {
  }

  // If an installation has synced, a later push of it is refused only because
  // someone else moved the remote in between.
  lemma RejectionMeansAnotherWriter(s: System, actions: seq<Action>, i: SiteId)
    requires i in s.sites && Unattended(i, actions)
    requires s.sites[i].head.Some? && Extends(s.sites[i].head, s.remote)
    requires var t := Run(s, actions); i in t.sites && PushTo(t.sites[i], t.remote, true).2.Err?
    ensures Run(s, actions).remote != s.remote
  {
    var t := Run(s, actions);
    LocalBranchNeverLosesCommits(s, actions, i);
    if t.remote == s.remote {
      ExtendsTransitive(t.sites[i].head, s.sites[i].head, s.remote);
    }
  }

  // --------------------------------------------------------------------------
  // Divergence needs a person
  // --------------------------------------------------------------------------

  // Both branches gained commits the other lacks.
  ghost predicate Diverged(local: Option<Commit>, remote: Option<Commit>) {
    local.Some? && remote.Some? && !Extends(local, remote) && !Extends(remote, local)
  }

  ghost predicate Stuck(s: System, i: SiteId) {
    && i in s.sites
    && Diverged(s.sites[i].head, s.remote)
    && Extends(s.remote, s.sites[i].tracking)
  }

  ghost predicate OnlyProgramOf(i: SiteId, a: Action) {
    !a.OtherClientPushes? && !a.OperatorEdits? && a.site == i
  }

  lemma StuckStep(s: System, a: Action, i: SiteId)
    requires Stuck(s, i) && OnlyProgramOf(i, a)
    ensures Stuck(Step(s, a), i) && Step(s, a).remote == s.remote
  {
    var r := s.sites[i];
    match a
    case FetchRemote(_) =>
      assert Reaches(s.remote.value, s.remote.value);
    case IntegrateFetched(_, killed) =>
      var after := Integrate(r, killed).0;
      if after.head != r.head {
        assert Extends(r.tracking, r.head);
        ExtendsTransitive(s.remote, r.tracking, r.head);
      }
    case StoreFile(_, p, contents, meta, fault) =>
      var after := Store(r, p, contents, meta, fault).0;
      StoreExtends(r, p, contents, meta, fault);
      if Extends(s.remote, after.head) {
        ExtendsTransitive(s.remote, after.head, r.head);
      }
      if after.head != r.head {
        assert after.head.value.parents == [r.head.value];
      }
    case PushBranch(_, _) =>
  }

  // An installation that has diverged from the remote stays diverged, and
  // leaves the remote untouched, however often it syncs, commits and pushes:
  // neither history is ever dropped to make them agree.
  lemma {:induction false} DivergenceIsNeverResolvedAlone(s: System, actions: seq<Action>, i: SiteId)
    requires Stuck(s, i) && forall a | a in actions :: OnlyProgramOf(i, a)
    ensures Stuck(Run(s, actions), i) && Run(s, actions).remote == s.remote
    decreases actions
  {
    if actions != [] {
      StuckStep(s, actions[0], i);
      DivergenceIsNeverResolvedAlone(Step(s, actions[0]), actions[1..], i);
    }
  }
}
