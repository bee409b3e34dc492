# VCS status segment: repository location, git metadata and the watcher cache

This project models the part of the status-line tool that shows a version
control segment: `watcher/vcs.py`.

- Given a path, it finds the nearest ancestor directory that holds an
  acceptable `.git` marker. Vendored `qt5` trees are skipped, and so are
  marker directories that cannot be entered.
- It reads the branch from that repository's `HEAD`. A `.git` file
  (worktree or submodule) redirects to the real repository directory.
- It folds `git status --porcelain` output into a short status code. A
  subpath query gives a two-character code; the whole tree gives three
  columns (`D` worktree, `I` index, `U` untracked).
- It keeps one watcher per canonical query path. A watcher caches the branch
  and a status per subpath, and recomputes them when the cache is cold or its
  tree watch reports a change. Changes to git's own `index.lock` are ignored.

Modules:

- `Text` holds the string helpers: substring, prefix and suffix tests, POSIX
  `os.path.join`, and `bytes.strip`.
- `Locator` holds the exclusion rule and the ancestor search.
- `GitMeta` holds the event filter, `git_directory` and `git_branch_name`.
- `StatusCodes` holds `git_status`. The whole-tree form is a method with a
  loop, proved against the function `TreeStatus`.
- `Watcher` holds the cache state machine. The pure function `DataStep`
  over a `Cache` value is the specification. The classes `VcsWatcher` and
  `Registry` hold the fields the source mutates, and their methods are
  proved against `DataStep` and `Relocate`.

Everything outside the process is an input, carried by `World`:
- the result of `realpath`;
- the ancestor list from `generate_directories`;
- the filesystem tests `exists`, `isdir` and `access(X_OK)`, as an `FsView`;
- the readable files, each decoded, as a map from path to text;
- the lines `git status` prints for a root and a pathspec. The whole-tree query passes no pathspec, so None and "" ask the same question.

A file missing from the map is one whose read raises `EnvironmentError`.

## Model

| member | source | states |
|---|---|---|
| Locator.NoExcludedSegment | watcher/vcs.py:20-24 | the exclusion loop accepts a path exactly when no excluded name occurs in it as an interior segment `/q/` or as its final segment `/q` |
| Locator.VcsDirOk | watcher/vcs.py:20-24 | `vcs_dir_ok` as the exclusion loop over `EXCLUDE_VCS_DIRS`; what it accepts is stated by `VcsDirOkIff` and `MarkerExcludedIff` |
| Locator.VcsDirOkIff | watcher/vcs.py:12-24 | with the exclusion set `{qt5}`, `vcs_dir_ok` rejects exactly the paths containing `/qt5/` or ending in `/qt5` |
| Locator.MarkerExcludedIff | watcher/vcs.py:20-31 | a candidate marker `join(d, '.git')` is rejected exactly when `d` lies inside a `qt5` directory or is one |
| Locator.FirstAccepted | watcher/vcs.py:29-33 | the inner loop picks the first registered kind whose marker passes the exclusion rule, the existence check and the execute-permission test, and no earlier kind passes |
| Locator.Accepts | watcher/vcs.py:30-33 | the test a kind's marker `join(directory, vcs_dir)` must pass: not excluded, the kind's check, and not a directory without execute permission; for git, `IsRootGit` states it in full |
| Locator.KindAt | watcher/vcs.py:29-34 | the kind `is_vcs` returns for one directory, taken from `FirstAccepted`'s first passing entry; `IsRootGit` states it is git exactly when the git marker passes |
| Locator.FirstRoot | watcher/vcs.py:28-34 | the outer loop stops at the first ancestor, nearest first, that holds an acceptable marker, and no earlier ancestor does |
| Locator.IsVcs | watcher/vcs.py:27-35 | `(None, None)` exactly when no ancestor is a root; otherwise the root returned is one of the ancestors |
| Locator.IsRootGit | watcher/vcs.py:13-17 | with the single git entry of `vcs_props`, a directory is a root exactly when its `.git` is not excluded, exists, and is not a directory without execute permission; the kind found is then git |
| Locator.PlainRoot | watcher/vcs.py:29-34 | an existing, enterable `.git` outside any `qt5` tree makes a git root |
| Locator.LockedMarkerNotRoot | watcher/vcs.py:32-33 | a `.git` directory that cannot be entered is skipped |
| Locator.ExcludedMarkerNotRoot | watcher/vcs.py:31 | a directory named `qt5` is never a root, whatever it holds |
| Locator.SecondAncestorFound | watcher/vcs.py:28-34 | when the nearest ancestor is not a root but the next one is, the next one is returned with its kind |
| Locator.ShortPathNotExcluded | watcher/vcs.py:20-24 | helper for the example lemmas: a path shorter than five characters other than `/qt5` has no `qt5` segment |
| Locator.SkipsExcludedTree | watcher/vcs.py:27-35 | a marker inside `/src/qt5` is passed over and the repository at `/src` is found |
| Locator.ExcludedTreeAlone | watcher/vcs.py:27-35 | a path whose only marker is inside a `qt5` tree is in no repository |
| Locator.SkipsUnsearchableMarker | watcher/vcs.py:32-34 | an unsearchable nearer `.git` directory is skipped in favour of the enclosing repository |
| Text.HasInfixIff | watcher/vcs.py:22 | the scanning substring test is true exactly when the text occurs at some index |
| Text.Join | watcher/vcs.py:30 | `os.path.join` of two components ends with the second component |
| Text.Strip | watcher/vcs.py:46 | `bytes.strip()`: the result has no ASCII whitespace at either end and is no longer than its input; `StripPadded` states which characters it removes |
| Text.StripPadded | watcher/vcs.py:46 | `strip()` removes exactly the ASCII whitespace padding around a core that has none at its ends |
| GitMeta.GitIgnoreModifies | watcher/vcs.py:38-39 | `git_ignore_modifies`: the event filter of a git watch; `IgnoresOnlyIndexLock` states what it drops |
| GitMeta.IgnoresOnlyIndexLock | watcher/vcs.py:38-39 | the git watch filter drops `index.lock` events in any root's `.git`, and never drops an event with another name or outside a path ending in `.git` |
| GitMeta.ColonIndex | watcher/vcs.py:46 | the partition point is the first colon, or the end when there is none |
| GitMeta.AfterColonOf | watcher/vcs.py:46 | `partition(b':')[2]` of `tag:rest` is `rest` when the tag has no colon |
| GitMeta.AfterColon | watcher/vcs.py:46 | without a colon the partition's tail is empty |
| GitMeta.GitDirectory | watcher/vcs.py:42-49 | when the `.git` marker cannot be read as a file, the repository directory is the marker path itself |
| GitMeta.GitDirectoryParses | watcher/vcs.py:42-47 | a marker file `tag: <padding>target<padding>` names `join(directory, target)` |
| GitMeta.WorktreeMarker | watcher/vcs.py:42-47 | a worktree marker `gitdir: /main/.git/worktrees/wt` names that absolute directory, whatever the root |
| GitMeta.LineLength | watcher/vcs.py:63 | the length of the text before the first newline, where `.+` stops |
| GitMeta.RefMatch | watcher/vcs.py:59-63 | `ref_pat.match(raw)` and `group(1)`: the tag, the maximal whitespace run, `refs/heads/`, then the text up to the first newline if it is non-empty; `RefMatchIff` ties it to the pattern in both directions |
| GitMeta.RefMatchIff | watcher/vcs.py:59-63 | the matcher returns `name` exactly when `ref:\s*refs/heads/(.+)` matches at the start with group 1 equal to `name` (`\s` as in a `str` pattern, `.` excluding only a newline) |
| GitMeta.MatchFound | watcher/vcs.py:59-63 | every match of the pattern is found by the matcher |
| GitMeta.FoundMatches | watcher/vcs.py:59-63 | every result of the matcher is a match of the pattern |
| GitMeta.SpaceRunUnique | watcher/vcs.py:63 | the whitespace `\s*` consumes is the maximal run, because `refs/heads/` does not start with whitespace |
| GitMeta.NameIsLine | watcher/vcs.py:63 | a group that ends at a newline or the end is the first line of the tail |
| GitMeta.BranchFromHead | watcher/vcs.py:59-62 | the branch is group 1 when the pattern matches, and otherwise the first seven characters of the content |
| GitMeta.GitBranchName | watcher/vcs.py:52-58 | None exactly when `HEAD` in the resolved repository directory cannot be read |
| GitMeta.BranchOfSymbolicRef | watcher/vcs.py:59-63 | `ref:<whitespace>refs/heads/<name>` and a newline gives `<name>` for any whitespace and any non-empty single-line name |
| GitMeta.BranchOfMain | watcher/vcs.py:59-61 | `ref: refs/heads/main` and a newline gives `main` |
| GitMeta.BranchOfDetachedHead | watcher/vcs.py:62 | a detached `HEAD` holding a 40-digit hash gives the hash's first seven characters |
| GitMeta.BranchOfEmptyRef | watcher/vcs.py:59-62 | `ref: refs/heads/` with no name does not match, so the raw prefix `ref: re` is returned |
| StatusCodes.SubpathStatus | watcher/vcs.py:71-75 | with a subpath: "" when git prints nothing, else the first line's first two characters |
| StatusCodes.TreeStatus | watcher/vcs.py:77-94 | the whole-tree code is "" or three columns drawn from `D `/`I `/`U ` and not all blank; it is "" exactly when no line reports a worktree change, an index change or an untracked file |
| StatusCodes.FlagsSnoc | watcher/vcs.py:80-91 | one more line sets exactly the columns it reports and clears none |
| StatusCodes.ScanTreeStatus | watcher/vcs.py:77-94 | the line-by-line loop with its `continue`s computes `TreeStatus` of the output |
| StatusCodes.GitStatus | watcher/vcs.py:70-94 | `git_status` gives the subpath form for a truthy subpath and the whole-tree form for None or "" |
| StatusCodes.StatusFor | watcher/vcs.py:70-94 | the status code `git_status` computes as a function of the subpath and git's output; `GitStatus` is proved equal to it |
| Watcher.Pathspec | watcher/vcs.py:70-80 | `git status` gets `-- subpath` exactly when the subpath is truthy, and then that subpath; the whole-tree command passes none |
| StatusCodes.DropIgnoredMembers | watcher/vcs.py:84-85 | filtering keeps exactly the lines that are not ignored (`!`) |
| StatusCodes.IgnoredLinesIrrelevant | watcher/vcs.py:84-85 | ignored lines never change the whole-tree code |
| StatusCodes.FlagsMonotone | watcher/vcs.py:77-91 | a column once set is never cleared by more output |
| StatusCodes.TreeStatusOrderIndependent | watcher/vcs.py:80-94 | the whole-tree code depends only on the multiset of lines, not their order |
| StatusCodes.StagedAndUntracked | watcher/vcs.py:77-94 | a staged modification and an untracked file give ` IU` |
| StatusCodes.SubpathPrefix | watcher/vcs.py:71-75 | ` M a/b.txt` gives ` M`, and no output gives "" |
| Watcher.Relocate | watcher/vcs.py:116-123 | the cache `update` leaves; its two cases are stated by `RelocateStillGit` and `RelocateNoLongerGit`, and `RelocateCoherent` states the invariant it keeps |
| Watcher.RelocateStillGit | watcher/vcs.py:116-120 | when the stored root still lies in a repository: the root and kind are re-located, the branch recomputed, and only this subpath's status slot is written |
| Watcher.RelocateNoLongerGit | watcher/vcs.py:116-123 | when it does not: root, kind and branch are cleared and every status slot discarded |
| Watcher.RelocateCoherent | watcher/vcs.py:116-123 | `update` leaves a root exactly when a kind, and no cached data without one |
| Watcher.DataStep | watcher/vcs.py:111-114 | `data` refreshes exactly when the branch is unknown, the slot is missing, or the watch reports a change; the watch is read only when the cache is warm; without a refresh the cache is unchanged and answered from; with no root left it fails; with a root the refresh leaves exactly `Relocate` of the cache; a successful answer comes from the new cache |
| Watcher.SecondCallCached | watcher/vcs.py:111-114 | after an answer with a known branch and no pending change, the next call does not refresh and answers the same |
| Watcher.ChangeRefreshesOnce | watcher/vcs.py:111-113 | one reported change on a warm cache causes one refresh, and the signal is consumed |
| Watcher.ColdRefreshKeepsSignal | watcher/vcs.py:112 | a cold refresh does not read the watch, so a pending change still causes a second refresh |
| Watcher.UnreadableHeadRefreshesAlways | watcher/vcs.py:111-119 | a repository whose `HEAD` cannot be read is refreshed on every call |
| Watcher.VanishedRepository | watcher/vcs.py:111-123 | a repository that vanished makes the refreshing call fail with `KeyError`, and every later call fails to re-locate |
| Watcher.VcsWatcher.constructor | watcher/vcs.py:99-103 | a new watcher holds its root and kind, no branch and no statuses |
| Watcher.VcsWatcher.Notify | watcher/vcs.py:105-109 | a filesystem event sets the change signal unless it is git's `index.lock` in a git watcher |
| Watcher.VcsWatcher.WasModifiedSinceLastCall | watcher/vcs.py:112 | the signal is reported and cleared |
| Watcher.VcsWatcher.Update | watcher/vcs.py:116-123 | the new fields are `Relocate` of the old ones, coherence is kept, and with no root left the fields are unchanged |
| Watcher.VcsWatcher.Data | watcher/vcs.py:111-114 | the new fields, the new signal, whether `update` ran, and the answer are exactly `DataStep` of the old state; `update` runs once per refresh |
| Watcher.QueryTwice | watcher/vcs.py:111-114 | two calls with no change between them: when the first answers with a known branch the second answers the same, and `update` ran once for a cold watcher and never for a warm one |
| Watcher.StartWatcher | watcher/vcs.py:136-138 | a new watcher's first answer, its fields and its change signal afterwards are `DataStep` from a cold cache at the located root |
| Watcher.Registry.constructor | watcher/vcs.py:126 | the registry starts empty |
| Watcher.Registry.VcsData | watcher/vcs.py:129-139 | a watched canonical path is answered by its watcher without locating; an unwatched path is located once; a path in no repository gets `{branch: None, status: None}` and no watcher (no negative caching); otherwise a fresh watcher is stored under the canonical path and answers from a cold cache; the queried watcher's new fields and signal are those `DataStep` gives; other watchers are untouched |
| Watcher.Registry.Revisit | watcher/vcs.py:131-138 | a watched path's watcher answers, and moves to the state, given by `DataStep` of its old state; no other watcher changes |
| Watcher.Registry.Admit | watcher/vcs.py:133-139 | locating an unwatched path: no repository leaves the registry as it was and answers empty, a repository adds one fresh watcher whose answer and new state are `DataStep` from a cold cache |
| Watcher.Registry.Adopt | watcher/vcs.py:135-138 | the new watcher is stored under the canonical path, answers its first query, and holds the state `DataStep` gives |
| Watcher.Registry.VcsDataTwice | watcher/vcs.py:129-139 | two `vcs_data` calls for a path with no change between them: when the first answers with a known branch, the second answers the same, and the path is located once if it was not yet watched and never otherwise |

## Left out

- The tree watch (`add_tree_watch`, inotify) is not modelled. `watcher/inotify.py` is not part of this model. The `tree_watcher` property calls `add_tree_watch` on every access; the model assumes every access reaches the same watch. It is one persistent change signal per watcher, set by `Notify`. A new watcher starts with no pending change.
- `realpath`, `generate_directories`, `os.path.exists`, `os.path.isdir` and `os.access` are not modelled. Their results are inputs in `World` and `FsView`.
- The `git` subprocess and `readlines` are not modelled. The output lines are an input. `WellFormed` assumes that whole-tree porcelain lines carry both status columns.
- File reads and UTF-8 decoding are not modelled. A file is either readable with decoded text, or absent from the map.
- GitMeta.GitDirectory: `os.path.abspath` is not applied, so `..` segments and a relative root are not normalised.
- GitMeta.GitDirectory: when the text of a `.git` file after its first colon, once stripped, is not valid UTF-8, `decode` raises `UnicodeDecodeError`. `except EnvironmentError` does not catch it. That raising path is not modelled. Bytes before the colon are never decoded.
- GitMeta.RefMatch: this is a matcher for the single fixed pattern `ref:\s*refs/heads/(.+)`, not a regular-expression engine. Only Python's `str.isspace` whitespace and the newline rule for `.` are modelled.
- Watcher.VcsWatcher.Update: after a repository vanished, the root is None, and the next refresh calls `is_vcs(None)`. What `generate_directories(None)` does is not part of this model (`watcher/utils.py` is not modelled). The model reports that call as its own fault, `Failed(NoRoot)`, and leaves the state unchanged. If `generate_directories(None)` yields nothing, the source also leaves a coherent state unchanged, since it is already cleared. It then fails with the `KeyError` of `self.status[subpath]` instead.
- Watcher.DataStep: the `KeyError` on a missing status slot is `Failed(MissingStatusKey)`. `vcs_data` raises here. The model's other fault, `Failed(NoRoot)`, is also a call that returns no record.
- The `mercurial` and `bzr` entries of `vcs_props` are commented out in the source. Only git is modelled. The search over kinds is still written for a registry of any length.
- Concurrency is not modelled. The module-level `watched_trees` is one `Registry` object, used from one thread.
