/**
 * The watched repository and the registry. A watcher caches the branch and
 * one status slot per subpath, and refreshes when the cache is cold or its
 * tree watch reports a change; the registry maps canonical query paths to
 * watchers. Pure functions over `Cache` give the specification; the classes
 * `VcsWatcher` and `Registry` are the stateful objects proved against it.
 */
module Watcher {
  import opened Wrappers
  import opened Locator
  import opened GitMeta
  import opened StatusCodes
  import opened Text

  /**
   * Everything the core asks of the outside at the time of a call:
   * `realpath`, `generate_directories`, the filesystem tests, the readable
   * files, and the output lines `git status` prints for a root and a
   * pathspec. The whole-tree command passes no pathspec, so every falsy
   * subpath asks `git` the same question, `None` (see `Pathspec`).
   */
  datatype World = World(
    realpath: string -> string,
    directories: string -> seq<string>,
    fs: FsView,
    files: Files,
    git: (string, Option<string>) -> seq<string>)

  /** Git's whole-tree porcelain output always carries both status columns. */
  ghost predicate WellFormed(world: World)
  {
    forall root: string :: Porcelain(world.git(root, None))
  }

  /** The pathspec `git_status` hands to `git`: the subpath when truthy, none for the whole tree. */
  function Pathspec(subpath: Option<string>): (q: Option<string>)
    ensures q.Some? <==> Truthy(subpath)
    ensures q.Some? ==> q == subpath
  {
    if Truthy(subpath) then subpath else None
  }

  /** The fields of a watcher: the root, its kind, the cached branch, and the status slots. */
  datatype Cache = Cache(
    path: Option<string>,
    vcs: Option<VcsKind>,
    branch: Option<string>,
    status: map<Option<string>, string>)

  /** What every reachable watcher state satisfies: a root exactly when a kind, and nothing cached without one. */
  predicate Coherent(c: Cache)
  {
    (c.path.Some? <==> c.vcs.Some?) && (c.vcs.None? ==> c.branch.None? && c.status == map[])
  }

  /** The record handed back to callers. */
  datatype VcsInfo = VcsInfo(branch: Option<string>, status: Option<string>)

  /**
   * The exceptions the source lets escape: `self.status[subpath]` after the
   * repository vanished (KeyError), and re-locating a watcher whose root
   * became None.
   */
  datatype Fault = MissingStatusKey | NoRoot

  datatype Outcome = Ok(info: VcsInfo) | Failed(fault: Fault)

  /** `update`: re-locate from the stored root, then refresh the branch and this subpath's slot, or clear everything. */
  function Relocate(c: Cache, subpath: Option<string>, world: World): Cache
    requires c.path.Some?
  {
    match IsVcs(world.directories(c.path.value), world.fs)
    case Some(repo) =>
      Cache(Some(repo.root), Some(repo.kind), GitBranchName(repo.root, world.files),
            c.status[subpath := StatusFor(subpath, world.git(repo.root, Pathspec(subpath)))])
    case None => Cache(None, None, None, map[])
  }

  /** Still a repository: the root and branch are recomputed and only the slot of `subpath` is written. */
  lemma RelocateStillGit(c: Cache, subpath: Option<string>, world: World)
    requires c.path.Some?
    requires IsVcs(world.directories(c.path.value), world.fs).Some?
    ensures var repo, r := IsVcs(world.directories(c.path.value), world.fs).value, Relocate(c, subpath, world);
            && r.path == Some(repo.root) && r.vcs == Some(Git)
            && r.branch == GitBranchName(repo.root, world.files)
            && subpath in r.status && r.status[subpath] == StatusFor(subpath, world.git(repo.root, Pathspec(subpath)))
            && r.status.Keys == c.status.Keys + {subpath}
            && forall k :: k in c.status && k != subpath ==> r.status[k] == c.status[k]
  {
  }

  /** No longer a repository: the branch is cleared and every status slot discarded. */
  lemma RelocateNoLongerGit(c: Cache, subpath: Option<string>, world: World)
    requires c.path.Some?
    requires IsVcs(world.directories(c.path.value), world.fs).None?
    ensures Relocate(c, subpath, world) == Cache(None, None, None, map[])
  {
  }

  /** `update` keeps a watcher coherent. */
  lemma RelocateCoherent(c: Cache, subpath: Option<string>, world: World)
    requires c.path.Some?
    ensures Coherent(Relocate(c, subpath, world))
  {
  }

  /** The first two terms of the refresh condition: no branch yet, or no slot for this subpath. */
  predicate Cold(c: Cache, subpath: Option<string>)
  {
    c.branch.None? || subpath !in c.status
  }

  /** `{'branch': ..., 'status': self.status[subpath]}`, or the KeyError when the slot is missing. */
  function Answer(c: Cache, subpath: Option<string>): Outcome
  {
    if subpath in c.status then Ok(VcsInfo(c.branch, Some(c.status[subpath]))) else Failed(MissingStatusKey)
  }

  /** One call of `data`: the new cache, the watch's signal afterwards, whether `update` ran, the result. */
  datatype Step = Step(cache: Cache, modified: bool, refreshed: bool, result: Outcome)

  /**
   * `data(subpath)` from cache `c` with the tree watch's pending signal
   * `modified`. The condition short-circuits, so the signal is read (and so
   * cleared) only when the cache is warm.
   */
  function DataStep(c: Cache, modified: bool, subpath: Option<string>, world: World): (s: Step)
    ensures s.refreshed <==> c.branch.None? || subpath !in c.status || modified
    ensures s.modified == (modified && (c.branch.None? || subpath !in c.status))
    ensures !s.refreshed ==> s.cache == c && s.result == Ok(VcsInfo(c.branch, Some(c.status[subpath])))
    ensures s.refreshed && c.path.None? ==> s.cache == c && s.result == Failed(NoRoot)
    ensures s.refreshed && c.path.Some? ==> s.cache == Relocate(c, subpath, world)
    ensures s.result.Ok? ==> subpath in s.cache.status
                             && s.result.info == VcsInfo(s.cache.branch, Some(s.cache.status[subpath]))
  {
    var cold := Cold(c, subpath);
    var modified' := if cold then modified else false;
    if !cold && !modified then Step(c, modified', false, Answer(c, subpath))
    else if c.path.None? then Step(c, modified', true, Failed(NoRoot))
    else
      var c' := Relocate(c, subpath, world);
      Step(c', modified', true, Answer(c', subpath))
  }

  /**
   * Idempotence: once a call has answered with a branch and left no signal
   * pending, a second call with no intervening change does not refresh and
   * gives the same answer.
   */
  lemma SecondCallCached(c: Cache, modified: bool, subpath: Option<string>, world: World)
    requires var s := DataStep(c, modified, subpath, world);
             s.result.Ok? && s.cache.branch.Some? && !s.modified
    ensures var s := DataStep(c, modified, subpath, world);
            var s' := DataStep(s.cache, s.modified, subpath, world);
            !s'.refreshed && s'.cache == s.cache && s'.result == s.result && !s'.modified
  {
  }

  /**
   * One reported change, one refresh: a warm watcher with a pending signal
   * refreshes once and consumes the signal, and the next call without a new
   * change does not refresh again when the branch is known.
   */
  lemma ChangeRefreshesOnce(c: Cache, subpath: Option<string>, world: World)
    requires Coherent(c) && !Cold(c, subpath)
    ensures var s := DataStep(c, true, subpath, world);
            s.refreshed && !s.modified
            && (s.result.Ok? && s.cache.branch.Some? ==> !DataStep(s.cache, false, subpath, world).refreshed)
  {
  }

  /**
   * A cold refresh does not read the watch, so a pending signal survives it
   * and the following call refreshes a second time.
   */
  lemma ColdRefreshKeepsSignal(c: Cache, subpath: Option<string>, world: World)
    requires Cold(c, subpath)
    ensures var s := DataStep(c, true, subpath, world);
            s.refreshed && s.modified && DataStep(s.cache, s.modified, subpath, world).refreshed
  {
  }

  /**
   * The branch doubles as the "not yet computed" mark: a repository whose
   * `HEAD` cannot be read is refreshed again on every call, change or not.
   */
  lemma UnreadableHeadRefreshesAlways(c: Cache, modified: bool, modified': bool, subpath: Option<string>, world: World)
    requires c.path.Some? && Cold(c, subpath)
    requires var located := IsVcs(world.directories(c.path.value), world.fs);
             located.Some? && Join(GitDirectory(located.value.root, world.files), "HEAD") !in world.files
    ensures var s := DataStep(c, modified, subpath, world);
            s.refreshed && s.cache.branch.None? && s.result.Ok?
            && DataStep(s.cache, modified', subpath, world).refreshed
  {
  }

  /**
   * A repository that vanished: the refreshing call clears the cache and fails
   * on the missing status slot, and every later call fails to re-locate.
   */
  lemma VanishedRepository(c: Cache, modified: bool, modified': bool, subpath: Option<string>, world: World, world': World)
    requires c.path.Some? && Cold(c, subpath)
    requires IsVcs(world.directories(c.path.value), world.fs).None?
    ensures var s := DataStep(c, modified, subpath, world);
            s.cache == Cache(None, None, None, map[]) && s.result == Failed(MissingStatusKey)
            && DataStep(s.cache, modified', subpath, world').result == Failed(NoRoot)
  {
  }

  /** `VCSWatcher`: one located root, its cached branch and statuses, and its tree watch's signal. */
  class VcsWatcher {
    var path: Option<string>
    var vcs: Option<VcsKind>
    var branchName: Option<string>
    var status: map<Option<string>, string>
    /** The tree watch's edge-triggered "modified since last call" flag. */
    var modified: bool
    /** How many times `update` has run. */
    ghost var updates: nat

    function Snapshot(): Cache
      reads this
    {
      Cache(path, vcs, branchName, status)
    }

    ghost predicate Valid()
      reads this
    {
      Coherent(Snapshot())
    }

    constructor (path: string, vcs: VcsKind)
      ensures Valid()
      ensures Snapshot() == Cache(Some(path), Some(vcs), None, map[])
      ensures !modified && updates == 0
    {
      this.path := Some(path);
      this.vcs := Some(vcs);
      branchName := None;
      status := map[];
      modified := false;
      updates := 0;
    }

    /** A filesystem event under the root; a git watch drops git's own `index.lock` changes. */
    method Notify(eventPath: string, eventName: string)
      modifies this`modified
      ensures modified == (old(modified) || !(vcs == Some(Git) && GitIgnoreModifies(eventPath, eventName)))
    {
      if !(vcs == Some(Git) && GitIgnoreModifies(eventPath, eventName)) {
        modified := true;
      }
    }

    /** `was_modified_since_last_call`: report the signal and clear it. */
    method WasModifiedSinceLastCall() returns (m: bool)
      modifies this`modified
      ensures m == old(modified) && !modified
    {
      m := modified;
      modified := false;
    }

    /** `update(subpath)`; `ok` is false when there is no root left to re-locate from. */
    method Update(subpath: Option<string>, world: World) returns (ok: bool)
      requires Valid() && WellFormed(world)
      modifies this`path, this`vcs, this`branchName, this`status, this`updates
      ensures Valid()
      ensures ok == old(path).Some?
      ensures Snapshot() == if ok then Relocate(old(Snapshot()), subpath, world) else old(Snapshot())
      ensures updates == old(updates) + 1
    {
      updates := updates + 1;
      if path.None? {
        return false;
      }
      ok := true;
      var located := IsVcs(world.directories(path.value), world.fs);
      match located
      case Some(repo) =>
        vcs, path := Some(repo.kind), Some(repo.root);
        branchName := GitBranchName(repo.root, world.files);
        var s := GitStatus(subpath, world.git(repo.root, Pathspec(subpath)));
        status := status[subpath := s];
      case None =>
        vcs, path := None, None;
        branchName := None;
        status := map[];
    }

    /** `data(subpath)`, proved against `DataStep`. */
    method Data(subpath: Option<string>, world: World) returns (res: Outcome, refreshed: bool)
      requires Valid() && WellFormed(world)
      modifies this
      ensures Valid()
      ensures Step(Snapshot(), modified, refreshed, res) == DataStep(old(Snapshot()), old(modified), subpath, world)
      ensures updates == old(updates) + (if refreshed then 1 else 0)
    {
      refreshed := branchName.None? || subpath !in status;
      if !refreshed {
        refreshed := WasModifiedSinceLastCall();
      }
      if refreshed {
        var ok := Update(subpath, world);
        if !ok {
          return Failed(NoRoot), true;
        }
      }
      if subpath in status {
        res := Ok(VcsInfo(branchName, Some(status[subpath])));
      } else {
        res := Failed(MissingStatusKey);
      }
    }
  }

  /**
   * Two calls with no change in between on a cold watcher: exactly one
   * refresh, and the same answer twice when the branch is known.
   */
  method QueryTwice(w: VcsWatcher, subpath: Option<string>, world: World) returns (first: Outcome, second: Outcome)
    requires w.Valid() && WellFormed(world) && !w.modified
    modifies w
    ensures first.Ok? && first.info.branch.Some? ==> second == first
    ensures first.Ok? && first.info.branch.Some? ==> w.updates == old(w.updates) + (if Cold(old(w.Snapshot()), subpath) then 1 else 0)
  {
    ghost var c0 := w.Snapshot();
    var r1, r2;
    first, r1 := w.Data(subpath, world);
    if first.Ok? && first.info.branch.Some? {
      SecondCallCached(c0, false, subpath, world);
    }
    second, r2 := w.Data(subpath, world);
  }

  /** A new watcher for a located repository, answering its first query. */
  method StartWatcher(repo: Repo, subpath: Option<string>, world: World) returns (w: VcsWatcher, ans: Outcome)
    requires WellFormed(world)
    ensures fresh(w) && w.Valid()
    ensures var s := DataStep(Cache(Some(repo.root), Some(repo.kind), None, map[]), false, subpath, world);
            ans == s.result && w.Snapshot() == s.cache && w.modified == s.modified
  {
    w := new VcsWatcher(repo.root, repo.kind);
    var refreshed;
    ans, refreshed := w.Data(subpath, world);
  }

  /** `watched_trees` with `vcs_data`: one watcher per canonical query path, positive results only. */
  class Registry {
    var watchedTrees: map<string, VcsWatcher>
    ghost var Repr: set<VcsWatcher>
    /** How many times `is_vcs` has been asked to locate a query path. */
    ghost var locates: nat

    ghost predicate Valid()
      reads this, Repr
    {
      && (forall key :: key in watchedTrees ==> watchedTrees[key] in Repr && watchedTrees[key].Valid())
      && (forall k1, k2 :: k1 in watchedTrees && k2 in watchedTrees && k1 != k2 ==> watchedTrees[k1] != watchedTrees[k2])
    }

    constructor ()
      ensures Valid() && watchedTrees == map[] && Repr == {} && locates == 0
    {
      watchedTrees := map[];
      Repr := {};
      locates := 0;
    }

    /** `vcs_data(path, subpath)`. */
    method VcsData(path: string, subpath: Option<string>, world: World) returns (ans: Outcome)
      requires Valid() && WellFormed(world)
      modifies this, Repr
      ensures Valid() && fresh(Repr - old(Repr))
      ensures var key := world.realpath(path);
              key in old(watchedTrees) ==>
                && watchedTrees == old(watchedTrees) && locates == old(locates)
                && var s := DataStep(old(watchedTrees[key].Snapshot()), old(watchedTrees[key].modified), subpath, world);
                   ans == s.result && watchedTrees[key].Snapshot() == s.cache && watchedTrees[key].modified == s.modified
      ensures var key := world.realpath(path);
              key !in old(watchedTrees) ==> locates == old(locates) + 1
      ensures var key := world.realpath(path);
              key !in old(watchedTrees) && IsVcs(world.directories(key), world.fs).None? ==>
                watchedTrees == old(watchedTrees) && ans == Ok(VcsInfo(None, None))
      ensures var key := world.realpath(path);
              var located := IsVcs(world.directories(key), world.fs);
              key !in old(watchedTrees) && located.Some? ==>
                && watchedTrees.Keys == old(watchedTrees).Keys + {key}
                && fresh(watchedTrees[key])
                && var s := DataStep(Cache(Some(located.value.root), Some(located.value.kind), None, map[]),
                                     false, subpath, world);
                   ans == s.result && watchedTrees[key].Snapshot() == s.cache && watchedTrees[key].modified == s.modified
      ensures forall k :: k in old(watchedTrees) && k != world.realpath(path) ==>
                && k in watchedTrees && watchedTrees[k] == old(watchedTrees[k])
                && watchedTrees[k].Snapshot() == old(watchedTrees[k].Snapshot())
                && watchedTrees[k].modified == old(watchedTrees[k].modified)
    {
      var key := world.realpath(path);
      if key in watchedTrees {
        ans := Revisit(key, subpath, world);
      } else {
        ans := Admit(key, subpath, world);
      }
    }

    /**
     * Two `vcs_data` calls for the same path with no change in between: when
     * the first answers with a known branch, the second answers the same from
     * the cache, and the path is located at most once.
     */
    method VcsDataTwice(path: string, subpath: Option<string>, world: World) returns (first: Outcome, second: Outcome)
      requires Valid() && WellFormed(world)
      requires world.realpath(path) in watchedTrees ==> !watchedTrees[world.realpath(path)].modified
      modifies this, Repr
      ensures first.Ok? && first.info.branch.Some? ==>
                && second == first
                && locates == old(locates) + (if world.realpath(path) in old(watchedTrees) then 0 else 1)
    {
      var key := world.realpath(path);
      ghost var hit := key in watchedTrees;
      ghost var c0 := if hit then watchedTrees[key].Snapshot() else Cache(None, None, None, map[]);
      first := VcsData(path, subpath, world);
      if first.Ok? && first.info.branch.Some? {
        var located := IsVcs(world.directories(key), world.fs);
        ghost var c := if hit then c0 else Cache(Some(located.value.root), Some(located.value.kind), None, map[]);
        SecondCallCached(c, false, subpath, world);
      }
      second := VcsData(path, subpath, world);
    }

    /** A query path already watched: its watcher answers, nothing is located. */
    method Revisit(key: string, subpath: Option<string>, world: World) returns (ans: Outcome)
      requires Valid() && WellFormed(world) && key in watchedTrees
      modifies Repr
      ensures Valid()
      ensures var s := DataStep(old(watchedTrees[key].Snapshot()), old(watchedTrees[key].modified), subpath, world);
              && ans == s.result
              && watchedTrees[key].Snapshot() == s.cache && watchedTrees[key].modified == s.modified
      ensures forall k :: k in watchedTrees && k != key ==>
                && watchedTrees[k].Snapshot() == old(watchedTrees[k].Snapshot())
                && watchedTrees[k].modified == old(watchedTrees[k].modified)
    {
      var w := watchedTrees[key];
      var refreshed;
      ans, refreshed := w.Data(subpath, world);
      assert forall k :: k in watchedTrees && k != key ==> watchedTrees[k] != w;
    }

    /** A query path not yet watched: locate it, and keep a watcher only for a repository. */
    method Admit(key: string, subpath: Option<string>, world: World) returns (ans: Outcome)
      requires Valid() && WellFormed(world) && key !in watchedTrees
      modifies this
      ensures Valid()
      ensures locates == old(locates) + 1
      ensures IsVcs(world.directories(key), world.fs).None? ==>
                watchedTrees == old(watchedTrees) && Repr == old(Repr) && ans == Ok(VcsInfo(None, None))
      ensures var located := IsVcs(world.directories(key), world.fs);
              located.Some? ==>
                && key in watchedTrees && fresh(watchedTrees[key])
                && watchedTrees == old(watchedTrees)[key := watchedTrees[key]]
                && Repr == old(Repr) + {watchedTrees[key]}
                && var s := DataStep(Cache(Some(located.value.root), Some(located.value.kind), None, map[]),
                                     false, subpath, world);
                   ans == s.result && watchedTrees[key].Snapshot() == s.cache && watchedTrees[key].modified == s.modified
    {
      locates := locates + 1;
      var located := IsVcs(world.directories(key), world.fs);
      if located.Some? {
        ans := Adopt(key, located.value, subpath, world);
      } else {
        ans := Ok(VcsInfo(None, None));
      }
    }

    /** Keep a new watcher for a located repository under `key`, answering its first query. */
    method Adopt(key: string, repo: Repo, subpath: Option<string>, world: World) returns (ans: Outcome)
      requires Valid() && WellFormed(world) && key !in watchedTrees
      modifies this`watchedTrees, this`Repr
      ensures Valid()
      ensures key in watchedTrees && fresh(watchedTrees[key])
      ensures watchedTrees == old(watchedTrees)[key := watchedTrees[key]]
      ensures Repr == old(Repr) + {watchedTrees[key]}
      ensures var s := DataStep(Cache(Some(repo.root), Some(repo.kind), None, map[]), false, subpath, world);
              ans == s.result && watchedTrees[key].Snapshot() == s.cache && watchedTrees[key].modified == s.modified
    {
      var w;
      w, ans := StartWatcher(repo, subpath, world);
      watchedTrees := watchedTrees[key := w];
      Repr := Repr + {w};
    }
  }
}
