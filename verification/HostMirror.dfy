/**
  The host mirror: a three-way comparison of a recorded baseline, the local mirror and the host, over
  two dimensions (content and mode), and the pull and push commands it guards. A path is an integer,
  ordered as the original orders its strings.
 */
module HostMirror {
  import opened Wrappers

  type Path = int

  datatype Meta = Meta(sha: int, mode: int)

  type Tree = map<Path, Meta>

  /** Which paths a profile manages, which of them may be pushed, and which need a private mode. */
  datatype Profile = Profile(allowed: Path -> bool, writable: Path -> bool, privateMode: Path -> Option<int>) {
    predicate Pushable(p: Path) {
      allowed(p) && writable(p)
    }

    predicate PullOnly(p: Path) {
      allowed(p) && !writable(p)
    }

    function Harden(p: Path, m: Meta): Meta {
      if privateMode(p).Some? then m.(mode := privateMode(p).value) else m
    }

    function Hardened(files: Tree): Tree {
      map p | p in files :: if allowed(p) then Harden(p, files[p]) else files[p]
    }

    function Scan(files: Tree, pushableOnly: bool): Tree {
      map p | p in files && allowed(p) && (pushableOnly ==> writable(p)) :: files[p]
    }
  }

  function Get(files: Tree, p: Path): Option<Meta> {
    if p in files then Some(files[p]) else None
  }

  // ---- what the comparison means ------------------------------------------------------------------

  /** Equality of the dimensions that are compared. */
  predicate Same(x: Option<Meta>, y: Option<Meta>, withMode: bool) {
    match (x, y)
    case (None, None) => true
    case (Some(a), Some(b)) => a.sha == b.sha && (withMode ==> a.mode == b.mode)
    case _ => false
  }

  /**
    `m` contains every change that leads from `base` to `x`: a creation or deletion whole, otherwise
    the content if it changed and the mode if it changed.
   */
  predicate Preserves(base: Option<Meta>, x: Option<Meta>, m: Option<Meta>, withMode: bool) {
    if Same(x, base, withMode) then true
    else if base.None? || x.None? then Same(m, x, withMode)
    else
      && m.Some?
      && (x.value.sha != base.value.sha ==> m.value.sha == x.value.sha)
      && (withMode && x.value.mode != base.value.mode ==> m.value.mode == x.value.mode)
  }

  /** Some state of the path contains the changes of both sides. */
  ghost predicate Mergeable(base: Option<Meta>, x: Option<Meta>, y: Option<Meta>, withMode: bool) {
    exists m: Option<Meta> :: Preserves(base, x, m, withMode) && Preserves(base, y, m, withMode)
  }

  /** Two sides have no common continuation exactly when they changed one dimension to different values. */
  predicate Clashes(base: Option<Meta>, x: Option<Meta>, y: Option<Meta>, withMode: bool) {
    && !Same(x, base, withMode) && !Same(y, base, withMode) && !Same(x, y, withMode)
    && (base.None? || x.None? || y.None? ||
        (x.value.sha != base.value.sha && y.value.sha != base.value.sha && x.value.sha != y.value.sha) ||
        (withMode && x.value.mode != base.value.mode && y.value.mode != base.value.mode &&
         x.value.mode != y.value.mode))
  }

  function Merged(base: Option<Meta>, x: Option<Meta>, y: Option<Meta>, withMode: bool): Option<Meta> {
    if Same(x, base, withMode) then y
    else if Same(y, base, withMode) || base.None? || x.None? || y.None? then x
    else Some(Meta(if x.value.sha != base.value.sha then x.value.sha else y.value.sha,
                   if x.value.mode != base.value.mode then x.value.mode else y.value.mode))
  }

  lemma ClashesMeansNoMerge(base: Option<Meta>, x: Option<Meta>, y: Option<Meta>, withMode: bool)
    ensures Clashes(base, x, y, withMode) <==> !Mergeable(base, x, y, withMode)
  {
    if !Clashes(base, x, y, withMode) {
      var m := Merged(base, x, y, withMode);
      assert Preserves(base, x, m, withMode) && Preserves(base, y, m, withMode);
    }
  }

  // ---- the classifier -----------------------------------------------------------------------------

  /**
    One path. A conflict is a pair of changes nothing can contain; otherwise a side is listed as
    changed exactly when the other side does not contain its changes.
   */
  method ClassifyPath(base: Option<Meta>, local: Option<Meta>, remote: Option<Meta>, withMode: bool)
    returns (localListed: bool, remoteListed: bool, conflict: bool)
    ensures conflict <==> !Mergeable(base, local, remote, withMode)
    ensures localListed <==> !conflict && !Preserves(base, local, remote, withMode)
    ensures remoteListed <==> !conflict && !Preserves(base, remote, local, withMode)
  {
    ClashesMeansNoMerge(base, local, remote, withMode);
    var localChanged, remoteChanged := !Same(local, base, withMode), !Same(remote, base, withMode);
    if localChanged && remoteChanged && Same(local, remote, withMode) {
      return false, false, false;
    }
    conflict := false;
    if localChanged && remoteChanged {
      if base.None? || local.None? || remote.None? {
        conflict := true;
      } else {
        var contentConflict := local.value.sha != base.value.sha && remote.value.sha != base.value.sha &&
          local.value.sha != remote.value.sha;
        var modeConflict := withMode && local.value.mode != base.value.mode &&
          remote.value.mode != base.value.mode && local.value.mode != remote.value.mode;
        conflict := contentConflict || modeConflict;
      }
    }
    if conflict {
      return false, false, true;
    }
    var remoteInLocal, localInRemote := false, false;
    if localChanged && remoteChanged {
      remoteInLocal := (remote.value.sha == base.value.sha || local.value.sha == remote.value.sha) &&
        (!withMode || remote.value.mode == base.value.mode || local.value.mode == remote.value.mode);
      localInRemote := (local.value.sha == base.value.sha || remote.value.sha == local.value.sha) &&
        (!withMode || local.value.mode == base.value.mode || remote.value.mode == local.value.mode);
    }
    localListed := localChanged && !(localInRemote && !remoteInLocal);
    remoteListed := remoteChanged && !remoteInLocal;
  }

  predicate Increasing(paths: seq<Path>) {
    forall i, j :: 0 <= i < j < |paths| ==> paths[i] < paths[j]
  }

  method Least(paths: set<Path>) returns (least: Path)
    requires paths != {}
    ensures least in paths && forall p :: p in paths ==> least <= p
  {
    assert !(forall p :: p !in paths) || paths == {};
    least :| least in paths;
    var rest := paths - {least};
    while rest != {}
      invariant least in paths && rest <= paths
      invariant forall p :: p in paths ==> p in rest || least <= p
      decreases rest
    {
      assert !(forall p :: p !in rest) || rest == {};
      var p :| p in rest;
      if p < least {
        least := p;
      }
      rest := rest - {p};
    }
  }

  method Sorted(paths: set<Path>) returns (sorted: seq<Path>)
    ensures Increasing(sorted) && forall p :: p in sorted <==> p in paths
  {
    sorted := [];
    var rest := paths;
    while rest != {}
      invariant Increasing(sorted) && rest <= paths
      invariant forall p :: p in paths <==> p in sorted || p in rest
      invariant forall p, q :: p in sorted && q in rest ==> p < q
      decreases rest
    {
      var least := Least(rest);
      forall i | 0 <= i < |sorted|
        ensures sorted[i] < least
      {
        assert sorted[i] in sorted;
      }
      sorted := sorted + [least];
      rest := rest - {least};
    }
  }

  ghost predicate Conflict(base: Tree, local: Tree, remote: Tree, contentOnly: set<Path>, p: Path) {
    !Mergeable(Get(base, p), Get(local, p), Get(remote, p), p !in contentOnly)
  }

  /** The other side lacks some change of `side`, although a merge exists. */
  ghost predicate Unseen(base: Tree, side: Tree, other: Tree, contentOnly: set<Path>, p: Path) {
    && !Conflict(base, side, other, contentOnly, p)
    && !Preserves(Get(base, p), Get(side, p), Get(other, p), p !in contentOnly)
  }

  /** The three lists, each increasing and containing exactly the paths that belong in it. */
  ghost predicate IsClassification(base: Tree, local: Tree, remote: Tree, contentOnly: set<Path>,
                                   localChanged: seq<Path>, remoteChanged: seq<Path>, conflicts: seq<Path>)
  {
    && Increasing(localChanged) && Increasing(remoteChanged) && Increasing(conflicts)
    && (forall p :: p in conflicts <==> Conflict(base, local, remote, contentOnly, p))
    && (forall p :: p in localChanged <==> Unseen(base, local, remote, contentOnly, p))
    && (forall p :: p in remoteChanged <==> Unseen(base, remote, local, contentOnly, p))
  }

  ghost predicate Classified(base: Tree, local: Tree, remote: Tree, contentOnly: set<Path>, paths: seq<Path>,
                             localChanged: seq<Path>, remoteChanged: seq<Path>, conflicts: seq<Path>)
  {
    && Increasing(localChanged) && Increasing(remoteChanged) && Increasing(conflicts)
    && (forall p :: p in conflicts <==> p in paths && Conflict(base, local, remote, contentOnly, p))
    && (forall p :: p in localChanged <==> p in paths && Unseen(base, local, remote, contentOnly, p))
    && (forall p :: p in remoteChanged <==> p in paths && Unseen(base, remote, local, contentOnly, p))
  }

  lemma AppendKeeps(paths: seq<Path>, k: nat, listed: seq<Path>)
    requires k < |paths| && Increasing(paths) && Increasing(listed)
    requires forall p :: p in listed ==> p in paths[..k]
    ensures Increasing(listed + [paths[k]])
    ensures forall p :: p in paths[..k + 1] <==> p in paths[..k] || p == paths[k]
    ensures paths[k] !in paths[..k]
  {
    assert paths[..k + 1] == paths[..k] + [paths[k]];
    forall i | 0 <= i < |listed|
      ensures listed[i] < paths[k]
    {
      assert listed[i] in listed;
    }
  }

  /** Swapping the two sides keeps the conflicts. */
  lemma ConflictSwaps(base: Tree, local: Tree, remote: Tree, contentOnly: set<Path>, p: Path)
    ensures Conflict(base, local, remote, contentOnly, p) <==> Conflict(base, remote, local, contentOnly, p)
  {
    ClashesMeansNoMerge(Get(base, p), Get(local, p), Get(remote, p), p !in contentOnly);
    ClashesMeansNoMerge(Get(base, p), Get(remote, p), Get(local, p), p !in contentOnly);
  }

  lemma AbsentEverywhere(base: Tree, local: Tree, remote: Tree, contentOnly: set<Path>, p: Path)
    requires p !in base && p !in local && p !in remote
    ensures !Conflict(base, local, remote, contentOnly, p)
    ensures !Unseen(base, local, remote, contentOnly, p) && !Unseen(base, remote, local, contentOnly, p)
  {
    ClashesMeansNoMerge(None, None, None, p !in contentOnly);
  }

  method Classify(base: Tree, local: Tree, remote: Tree, contentOnly: set<Path>)
    returns (localChanged: seq<Path>, remoteChanged: seq<Path>, conflicts: seq<Path>)
    ensures IsClassification(base, local, remote, contentOnly, localChanged, remoteChanged, conflicts)
  {
    localChanged, remoteChanged, conflicts := [], [], [];
    var paths := Sorted(base.Keys + local.Keys + remote.Keys);
    for k := 0 to |paths|
      invariant Classified(base, local, remote, contentOnly, paths[..k], localChanged, remoteChanged, conflicts)
    {
      var p := paths[k];
      var inLocal, inRemote, conflict := ClassifyPath(Get(base, p), Get(local, p), Get(remote, p), p !in contentOnly);
      ConflictSwaps(base, local, remote, contentOnly, p);
      AppendKeeps(paths, k, conflicts);
      AppendKeeps(paths, k, localChanged);
      AppendKeeps(paths, k, remoteChanged);
      if conflict {
        conflicts := conflicts + [p];
      } else {
        if inLocal {
          localChanged := localChanged + [p];
        }
        if inRemote {
          remoteChanged := remoteChanged + [p];
        }
      }
    }
    assert paths[..|paths|] == paths;
    forall p | p !in paths
      ensures !Conflict(base, local, remote, contentOnly, p)
      ensures !Unseen(base, local, remote, contentOnly, p) && !Unseen(base, remote, local, contentOnly, p)
    {
      AbsentEverywhere(base, local, remote, contentOnly, p);
    }
  }

  lemma LastIsGreatest(a: seq<Path>, p: Path)
    requires Increasing(a) && a != []
    ensures p in a ==> p <= a[|a| - 1]
    ensures a[|a| - 1] in a
  {
  }

  lemma FrontMembers(a: seq<Path>, p: Path)
    requires Increasing(a) && a != []
    ensures p in a[..|a| - 1] <==> p in a && p != a[|a| - 1]
  {
  }

  /** Two increasing lists with the same elements are equal. */
  lemma {:induction false} IncreasingUnique(a: seq<Path>, b: seq<Path>)
    requires Increasing(a) && Increasing(b) && forall p :: p in a <==> p in b
    ensures a == b
  {
    assert (a != [] ==> a[0] in a) && (b != [] ==> b[0] in b);
    if a != [] && b != [] {
      var m, n := |a| - 1, |b| - 1;
      LastIsGreatest(a, b[n]);
      LastIsGreatest(b, a[m]);
      assert a[m] == b[n];
      forall p
        ensures p in a[..m] <==> p in b[..n]
      {
        FrontMembers(a, p);
        FrontMembers(b, p);
      }
      IncreasingUnique(a[..m], b[..n]);
      assert a == a[..m] + [a[m]] && b == b[..n] + [b[n]];
    }
  }

  /**
    The comparison is symmetric: with the sides swapped, the first two lists swap and the conflicts
    stay, although the code tests the two directions differently.
   */
  lemma ClassificationSymmetric(base: Tree, local: Tree, remote: Tree, contentOnly: set<Path>,
                                localChanged: seq<Path>, remoteChanged: seq<Path>, conflicts: seq<Path>,
                                first: seq<Path>, second: seq<Path>, third: seq<Path>)
    requires IsClassification(base, local, remote, contentOnly, localChanged, remoteChanged, conflicts)
    requires IsClassification(base, remote, local, contentOnly, first, second, third)
    ensures first == remoteChanged && second == localChanged && third == conflicts
  {
    forall p
      ensures p in third <==> p in conflicts
    {
      ConflictSwaps(base, local, remote, contentOnly, p);
    }
    IncreasingUnique(first, remoteChanged);
    IncreasingUnique(second, localChanged);
    IncreasingUnique(third, conflicts);
  }

  /** Nothing is listed on a side exactly when the other side contains all its changes. */
  lemma NothingUnseen(base: Tree, side: Tree, other: Tree, contentOnly: set<Path>, p: Path)
    ensures Conflict(base, side, other, contentOnly, p) || Unseen(base, side, other, contentOnly, p) <==>
            !Preserves(Get(base, p), Get(side, p), Get(other, p), p !in contentOnly)
  {
    if Conflict(base, side, other, contentOnly, p) {
      assert Preserves(Get(base, p), Get(other, p), Get(other, p), p !in contentOnly);
    }
  }

  // ---- the commands -------------------------------------------------------------------------------

  datatype Exit = Done | Blocked

  /** Managed local paths are emptied, then filled from the host with private modes applied. */
  function Mirrored(profile: Profile, local: Tree, remote: Tree): Tree {
    map p | p in local.Keys + remote.Keys && if profile.allowed(p) then p in remote else p in local ::
      if profile.allowed(p) then profile.Harden(p, remote[p]) else local[p]
  }

  /** What is allowed locally has its private mode where it needs one; contents and everything else are as before. */
  ghost predicate MadePrivate(profile: Profile, before: Tree, after: Tree) {
    && after.Keys == before.Keys
    && forall p :: p in after ==>
         && after[p].sha == before[p].sha
         && after[p].mode == if profile.allowed(p) && profile.privateMode(p).Some?
                             then profile.privateMode(p).value else before[p].mode
  }

  /** The allowed paths are those of the host, up to private modes; the others are as before. */
  ghost predicate IsPulled(profile: Profile, before: Tree, remote: Tree, after: Tree) {
    forall p ::
      if profile.allowed(p) then
        && (p in after <==> p in remote)
        && (p in after ==>
              && after[p].sha == remote[p].sha
              && after[p].mode == if profile.privateMode(p).Some? then profile.privateMode(p).value else remote[p].mode)
      else Get(after, p) == Get(before, p)
  }

  /** `files` holds exactly the allowed paths of `all`. */
  ghost predicate IsAllowedPart(profile: Profile, all: Tree, files: Tree) {
    forall p :: Get(files, p) == if profile.allowed(p) then Get(all, p) else None
  }

  lemma PrivateIsUnique(profile: Profile, before: Tree, after: Tree)
    ensures MadePrivate(profile, before, after) <==> after == profile.Hardened(before)
  {
    var hardened := profile.Hardened(before);
    if MadePrivate(profile, before, after) {
      forall p | p in after
        ensures after[p] == hardened[p]
      {
      }
      assert after == hardened;
    }
  }

  lemma PullGate(profile: Profile, manifest: Tree, synced: Tree, local: Tree, remote: Tree, contentOnly: set<Path>,
                 localChanged: seq<Path>, remoteChanged: seq<Path>, conflicts: seq<Path>)
    requires forall p :: profile.allowed(p) ==> Same(Get(manifest, p), Get(synced, p), profile.Pushable(p))
    requires IsClassification(profile.Scan(manifest, false), profile.Scan(local, false), profile.Scan(remote, false),
                              contentOnly, localChanged, remoteChanged, conflicts)
    requires contentOnly == set p | p in profile.Scan(manifest, false).Keys + profile.Scan(local, false).Keys
                                         + profile.Scan(remote, false).Keys && profile.PullOnly(p)
    ensures conflicts == [] && localChanged == [] <==>
            forall p :: profile.allowed(p) ==>
              Preserves(Get(synced, p), Get(local, p), Get(remote, p), profile.Pushable(p))
  {
    var base, here, there := profile.Scan(manifest, false), profile.Scan(local, false), profile.Scan(remote, false);
    forall p
      ensures p in conflicts || p in localChanged <==>
              profile.allowed(p) && !Preserves(Get(synced, p), Get(local, p), Get(remote, p), profile.Pushable(p))
    {
      NothingUnseen(base, here, there, contentOnly, p);
    }
    if conflicts != [] {
      assert conflicts[0] in conflicts;
    }
    if localChanged != [] {
      assert localChanged[0] in localChanged;
    }
  }

  /** The listed paths take the local state, deletions included. */
  function Written(remote: Tree, localFiles: Tree, changed: seq<Path>): Tree {
    map p | p in remote.Keys + localFiles.Keys && if p in changed then p in localFiles else p in remote ::
      if p in changed then localFiles[p] else remote[p]
  }

  /** After a push the host is known wherever pushing is allowed; elsewhere nothing new is known. */
  function Pushed(profile: Profile, synced: Tree, remote: Tree): Tree {
    map p | p in synced.Keys + remote.Keys && if profile.Pushable(p) then p in remote else p in synced ::
      if profile.Pushable(p) then remote[p] else synced[p]
  }

  function EditedPullOnly(profile: Profile, base: Tree, everything: Tree): set<Path> {
    set p | p in base.Keys + everything.Keys && profile.PullOnly(p) && !Same(Get(base, p), Get(everything, p), false)
  }

  ghost predicate PushAllowed(profile: Profile, synced: Tree, local: Tree, remote: Tree) {
    && (forall p :: profile.PullOnly(p) ==> Same(Get(synced, p), Get(local, p), false))
    && (forall p :: profile.Pushable(p) ==> Preserves(Get(synced, p), Get(remote, p), Get(local, p), true))
  }

  /** Once host and mirror agree wherever pushing is allowed, the host changes are kept and recorded. */
  lemma Agreed(profile: Profile, synced: Tree, local: Tree, before: Tree, after: Tree)
    requires PushAllowed(profile, synced, local, before)
    requires forall p :: profile.Pushable(p) ==> Get(after, p) == Get(local, p)
    ensures forall p :: profile.Pushable(p) ==> Preserves(Get(synced, p), Get(before, p), Get(after, p), true)
    ensures forall p :: profile.allowed(p) ==>
      Same(Get(profile.Scan(local, false), p), Get(Pushed(profile, synced, after), p), profile.Pushable(p))
  {
    forall p | profile.allowed(p)
      ensures Same(Get(profile.Scan(local, false), p), Get(Pushed(profile, synced, after), p), profile.Pushable(p))
    {
      assert Get(profile.Scan(local, false), p) == Get(local, p);
    }
  }

  lemma EditedMeansChanged(profile: Profile, manifest: Tree, synced: Tree, local: Tree, edited: set<Path>)
    requires forall p :: profile.allowed(p) ==> Same(Get(manifest, p), Get(synced, p), profile.Pushable(p))
    requires edited == EditedPullOnly(profile, profile.Scan(manifest, false), profile.Scan(local, false))
    ensures edited == {} <==> forall p :: profile.PullOnly(p) ==> Same(Get(synced, p), Get(local, p), false)
  {
    forall p
      ensures p in edited <==> profile.PullOnly(p) && !Same(Get(synced, p), Get(local, p), false)
    {
      var base, everything := profile.Scan(manifest, false), profile.Scan(local, false);
      if profile.PullOnly(p) {
        assert Get(base, p) == Get(manifest, p) && Get(everything, p) == Get(local, p);
      }
    }
  }

  lemma PushGate(profile: Profile, manifest: Tree, synced: Tree, local: Tree, remote: Tree,
                 localChanged: seq<Path>, remoteChanged: seq<Path>, conflicts: seq<Path>)
    requires forall p :: profile.allowed(p) ==> Same(Get(manifest, p), Get(synced, p), profile.Pushable(p))
    requires IsClassification(profile.Scan(manifest, true), profile.Scan(local, true), profile.Scan(remote, true), {},
                              localChanged, remoteChanged, conflicts)
    ensures conflicts == [] && remoteChanged == [] <==>
            forall p :: profile.Pushable(p) ==> Preserves(Get(synced, p), Get(remote, p), Get(local, p), true)
  {
    var base, here, there := profile.Scan(manifest, true), profile.Scan(local, true), profile.Scan(remote, true);
    forall p
      ensures p in conflicts || p in remoteChanged <==>
              profile.Pushable(p) && !Preserves(Get(synced, p), Get(remote, p), Get(local, p), true)
    {
      ConflictSwaps(base, here, there, {}, p);
      NothingUnseen(base, there, here, {}, p);
    }
    if conflicts != [] {
      assert conflicts[0] in conflicts;
    }
    if remoteChanged != [] {
      assert remoteChanged[0] in remoteChanged;
    }
  }

  /** Mirror and host are the same wherever pushing is allowed. */
  ghost predicate Agree(profile: Profile, local: Tree, remote: Tree) {
    forall p :: profile.Pushable(p) ==> Get(local, p) == Get(remote, p)
  }

  /** Where nothing is listed the two sides already agree, so writing the local list makes them equal. */
  lemma AfterPush(profile: Profile, manifest: Tree, synced: Tree, local: Tree, remote: Tree,
                  localChanged: seq<Path>, remoteChanged: seq<Path>, conflicts: seq<Path>)
    requires IsClassification(profile.Scan(manifest, true), profile.Scan(local, true), profile.Scan(remote, true), {},
                              localChanged, remoteChanged, conflicts)
    requires conflicts == [] && remoteChanged == []
    ensures var after := Written(remote, profile.Scan(local, true), localChanged);
            forall p :: Get(after, p) == Get(if profile.Pushable(p) then local else remote, p)
    ensures localChanged == [] <==> Agree(profile, local, remote)
  {
    var base, here, there := profile.Scan(manifest, true), profile.Scan(local, true), profile.Scan(remote, true);
    assert localChanged == [] || localChanged[0] in localChanged;
    forall p
      ensures profile.Pushable(p) && p !in localChanged ==> Get(local, p) == Get(remote, p)
      ensures profile.Pushable(p) && p in localChanged ==> Get(local, p) != Get(remote, p)
      ensures !profile.Pushable(p) ==> p !in localChanged
    {
      ConflictSwaps(base, here, there, {}, p);
      NothingUnseen(base, there, here, {}, p);
      NothingUnseen(base, here, there, {}, p);
      if !profile.Pushable(p) {
        AbsentEverywhere(base, here, there, {}, p);
      }
    }
  }

  /** What the host contains of the hardened local changes, its private-mode copy contains too. */
  lemma MirroredKeeps(profile: Profile, local: Tree, remote: Tree)
    requires profile.Hardened(local) == local
    ensures forall base: Tree, p |
      profile.allowed(p) && Preserves(Get(base, p), Get(local, p), Get(remote, p), profile.Pushable(p)) ::
      Preserves(Get(base, p), Get(local, p), Get(Mirrored(profile, local, remote), p), profile.Pushable(p))
  {
    forall base: Tree, p | profile.allowed(p) && Preserves(Get(base, p), Get(local, p), Get(remote, p), profile.Pushable(p))
      ensures Preserves(Get(base, p), Get(local, p), Get(Mirrored(profile, local, remote), p), profile.Pushable(p))
    {
      assert p in local ==> local[p] == profile.Harden(p, local[p]);
    }
  }

  /** The local mirror, its manifest and the host. */
  class Mirror {
    const profile: Profile

    var local: Tree
    var remote: Tree
    var manifest: Option<Tree>

    /** What the last synchronization left on the host. */
    ghost var synced: Tree

    /** The manifest records the host as of the last synchronization: fully where pushing is allowed, else its content. */
    ghost predicate Valid()
      reads this
    {
      manifest.Some? ==> forall p :: profile.allowed(p) ==>
        Same(Get(manifest.value, p), Get(synced, p), profile.Pushable(p))
    }

    constructor (profile: Profile, local: Tree, remote: Tree)
      ensures Valid() && this.profile == profile && this.local == local && this.remote == remote && manifest == None
    {
      this.profile, this.local, this.remote, this.manifest, this.synced := profile, local, remote, None, map[];
    }

    method EditLocal(p: Path, m: Option<Meta>)
      requires Valid()
      modifies this`local
      ensures Valid() && local == if m.Some? then old(local)[p := m.value] else old(local) - {p}
    {
      local := if m.Some? then local[p := m.value] else local - {p};
    }

    method EditRemote(p: Path, m: Option<Meta>)
      requires Valid()
      modifies this`remote
      ensures Valid() && remote == if m.Some? then old(remote)[p := m.value] else old(remote) - {p}
    {
      remote := if m.Some? then remote[p := m.value] else remote - {p};
    }

    /** The paths compared by content only: the pull-only ones. */
    function ContentOnly(paths: set<Path>): set<Path> {
      set p | p in paths && profile.PullOnly(p)
    }

    /**
      Pull replaces the managed local files by the host's, with private modes. Without a manifest it goes ahead
      exactly when nothing managed is there; with one, exactly when the host contains every local change since the
      last synchronization, private modes included, and then every such change is still there afterwards.
     */
    method Pull() returns (exit: Exit)
      requires Valid()
      modifies this
      ensures Valid() && remote == old(remote)
      ensures exit == Blocked ==>
        MadePrivate(profile, old(local), local) && manifest == old(manifest) && synced == old(synced)
      ensures exit == Done ==>
        && IsPulled(profile, old(local), remote, local)
        && manifest.Some? && IsAllowedPart(profile, remote, manifest.value) && synced == manifest.value
      ensures old(manifest).None? ==> (exit == Done <==> forall p :: p in old(local) ==> !profile.allowed(p))
      ensures old(manifest).Some? ==> forall before :: MadePrivate(profile, old(local), before) ==>
        && (exit == Done <==> forall p :: profile.allowed(p) ==>
              Preserves(Get(old(synced), p), Get(before, p), Get(old(remote), p), profile.Pushable(p)))
        && (exit == Done ==> forall p :: profile.allowed(p) ==>
              Preserves(Get(old(synced), p), Get(before, p), Get(local, p), profile.Pushable(p)))
    {
      exit := Done;
      forall before {
        PrivateIsUnique(profile, local, before);
      }
      local := profile.Hardened(local);
      var localFiles, remoteFiles := profile.Scan(local, false), profile.Scan(remote, false);
      if manifest.None? {
        assert forall p :: p in localFiles <==> p in local && profile.allowed(p);
        if localFiles != map[] {
          assert !(forall p :: p !in localFiles.Keys) || localFiles.Keys == {};
          return Blocked;
        }
      } else {
        var base := profile.Scan(manifest.value, false);
        var contentOnly := ContentOnly(base.Keys + localFiles.Keys + remoteFiles.Keys);
        var localChanged, remoteChanged, conflicts := Classify(base, localFiles, remoteFiles, contentOnly);
        PullGate(profile, manifest.value, synced, local, remote, contentOnly, localChanged, remoteChanged, conflicts);
        if conflicts != [] {
          return Blocked;
        }
        if localChanged != [] {
          return Blocked;
        }
      }
      MirroredKeeps(profile, local, remote);
      local := Mirrored(profile, local, remote);
      manifest := Some(remoteFiles);
      synced := remoteFiles;
    }

    /** The gate of a push, and the paths to write if it opens. */
    method PlanPush(recorded: Tree) returns (allowed: bool, changed: seq<Path>)
      requires Valid() && manifest == Some(recorded)
      ensures allowed <==> PushAllowed(profile, synced, local, remote)
      ensures allowed ==> var after := Written(remote, profile.Scan(local, true), changed);
                          forall p :: Get(after, p) == Get(if profile.Pushable(p) then local else remote, p)
      ensures allowed ==> (changed == [] <==> Agree(profile, local, remote))
    {
      var edited := EditedPullOnly(profile, profile.Scan(recorded, false), profile.Scan(local, false));
      EditedMeansChanged(profile, recorded, synced, local, edited);
      if edited != {} {
        return false, [];
      }
      var localFiles, remoteFiles := profile.Scan(local, true), profile.Scan(remote, true);
      var localChanged, remoteChanged, conflicts := Classify(profile.Scan(recorded, true), localFiles, remoteFiles, {});
      PushGate(profile, recorded, synced, local, remote, localChanged, remoteChanged, conflicts);
      if conflicts != [] || remoteChanged != [] {
        return false, [];
      }
      AfterPush(profile, recorded, synced, local, remote, localChanged, remoteChanged, conflicts);
      return true, localChanged;
    }

    method WriteChanged(changed: seq<Path>, localFiles: Tree)
      modifies this`remote
      ensures remote == Written(old(remote), localFiles, changed)
    {
      for k := 0 to |changed|
        invariant remote == Written(old(remote), localFiles, changed[..k])
      {
        assert forall p :: p in changed[..k + 1] <==> p in changed[..k] || p == changed[k];
        if changed[k] !in localFiles {
          remote := remote - {changed[k]};
        } else {
          remote := remote[changed[k] := localFiles[changed[k]]];
        }
      }
      assert changed[..|changed|] == changed;
    }

    /**
      Push writes the local changes to the host. It goes ahead exactly when there is a manifest, no
      pull-only content was edited, and the local mirror contains every change made on the host since
      the last synchronization. Then host and mirror agree wherever pushing is allowed, and nothing
      else on the host is touched.
     */
    method Push() returns (exit: Exit)
      requires Valid()
      modifies this
      ensures Valid() && MadePrivate(profile, old(local), local)
      ensures exit == Done <==> old(manifest).Some? && PushAllowed(profile, old(synced), local, old(remote))
      ensures exit == Blocked ==> remote == old(remote) && manifest == old(manifest) && synced == old(synced)
      ensures exit == Done ==> forall p :: Get(remote, p) == Get(if profile.Pushable(p) then local else old(remote), p)
      ensures exit == Done ==> forall p :: profile.Pushable(p) ==>
        Preserves(Get(old(synced), p), Get(old(remote), p), Get(remote, p), true)
      ensures exit == Done ==>
        if Agree(profile, local, old(remote)) then manifest == old(manifest) && remote == old(remote)
        else manifest.Some? && IsAllowedPart(profile, local, manifest.value)
    {
      exit := Done;
      local := profile.Hardened(local);
      if manifest.None? {
        return Blocked;
      }
      var allowed, changed := PlanPush(manifest.value);
      if !allowed {
        return Blocked;
      }
      if changed == [] {
        Agreed(profile, synced, local, remote, remote);
        return;
      }
      WriteChanged(changed, profile.Scan(local, true));
      Agreed(profile, synced, local, old(remote), remote);
      manifest := Some(profile.Scan(local, false));
      synced := Pushed(profile, synced, remote);
    }
  }

  /**
    Comparing again right after a pull finds no conflict, no host change, and as local changes exactly the
    pushable paths whose mode on the host is not the private one they need.
   */
  lemma QuietAfterPull(profile: Profile, before: Tree, remote: Tree, local: Tree, contentOnly: set<Path>,
                       localChanged: seq<Path>, remoteChanged: seq<Path>, conflicts: seq<Path>)
    requires IsPulled(profile, before, remote, local)
    requires var base, there, here := profile.Scan(remote, false), profile.Scan(remote, false), profile.Scan(local, false);
             && contentOnly == (set p | p in base.Keys + here.Keys + there.Keys && profile.PullOnly(p))
             && IsClassification(base, here, there, contentOnly, localChanged, remoteChanged, conflicts)
    ensures forall p :: p !in conflicts && p !in remoteChanged
    ensures forall p :: p in localChanged <==>
              && profile.Pushable(p) && p in remote
              && profile.privateMode(p).Some? && profile.privateMode(p).value != remote[p].mode
  {
    var base, here := profile.Scan(remote, false), profile.Scan(local, false);
    forall p
      ensures p !in conflicts && p !in remoteChanged
      ensures p in localChanged <==>
              && profile.Pushable(p) && p in remote
              && profile.privateMode(p).Some? && profile.privateMode(p).value != remote[p].mode
    {
      assert Preserves(Get(base, p), Get(here, p), Get(here, p), p !in contentOnly);
      assert Preserves(Get(base, p), Get(base, p), Get(here, p), p !in contentOnly);
    }
  }
}
