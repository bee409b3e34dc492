/**
 * Repository location: the excluded-segment rule and the nearest-first search
 * of a path's ancestors for a directory holding an acceptable VCS marker.
 * The ancestor list and the filesystem tests are inputs.
 */
module Locator {
  import opened Wrappers
  import opened Text

  /** The registered VCS kinds; only git is active in the source. */
  datatype VcsKind = Git

  /** One entry of the kind registry: the kind and its marker name. */
  datatype VcsProp = VcsProp(kind: VcsKind, marker: string)

  /** Directory names under which a marker is never trusted (vendored trees). */
  const ExcludeVcsDirs: seq<string> := ["qt5"]

  /** The registry of kinds, searched in order at every ancestor. */
  const VcsProps: seq<VcsProp> := [VcsProp(Git, ".git")]

  /**
   * What the locator asks of the filesystem: which paths exist, which are
   * directories, and which may be entered (execute permission).
   */
  datatype FsView = FsView(present: set<string>, dirs: set<string>, searchable: set<string>)

  /** A located repository: its kind and its root directory. */
  datatype Repo = Repo(kind: VcsKind, root: string)

  /** `p` has `q` as an interior or as its final path segment. */
  predicate Excludes(p: string, q: string)
  {
    HasInfix(p, "/" + q + "/") || EndsWith(p, "/" + q)
  }

  /** The exclusion loop over `qs`: true when no name of `qs` excludes `p`. */
  function NoExcludedSegment(p: string, qs: seq<string>): (ok: bool)
    ensures ok <==> forall i :: 0 <= i < |qs| ==> !Excludes(p, qs[i])
  {
    if qs == [] then true
    else if Excludes(p, qs[0]) then false
    else NoExcludedSegment(p, qs[1..])
  }

  predicate VcsDirOk(p: string)
  {
    NoExcludedSegment(p, ExcludeVcsDirs)
  }

  /** `VcsDirOk` rejects exactly the paths that contain `/qt5/` or end with `/qt5`. */
  lemma VcsDirOkIff(p: string)
    ensures !VcsDirOk(p) <==> (exists i :: InfixAt(p, "/qt5/", i)) || EndsWith(p, "/qt5")
  {
    assert "/" + "qt5" + "/" == "/qt5/";
    assert "/" + "qt5" == "/qt5";
    HasInfixIff(p, "/qt5/");
  }

  /**
   * On a marker path the rule says what it is meant to: the marker of `d` is
   * rejected exactly when `d` lies inside a `qt5` directory or is one.
   */
  lemma MarkerExcludedIff(d: string)
    ensures !VcsDirOk(Join(d, ".git")) <==> (exists i :: InfixAt(d, "/qt5/", i)) || EndsWith(d, "/qt5")
  {
    var m := Join(d, ".git");
    VcsDirOkIff(m);
    assert m[|m| - 4..] == ".git";
    assert !EndsWith(m, "/qt5");
    if exists i :: InfixAt(d, "/qt5/", i) {
      var i :| InfixAt(d, "/qt5/", i);
      InfixSurvivesJoin(d, ".git", i);
    } else if EndsWith(d, "/qt5") {
      FinalSegmentInMarker(d);
    }
    if exists i :: InfixAt(m, "/qt5/", i) {
      var i :| InfixAt(m, "/qt5/", i);
      InfixInMarker(d, i);
    }
  }

  /** An occurrence inside `a` is still there after joining. */
  lemma InfixSurvivesJoin(a: string, b: string, i: int)
    requires |b| > 0 && b[0] != '/'
    requires InfixAt(a, "/qt5/", i)
    ensures InfixAt(Join(a, b), "/qt5/", i)
  {
    var m := Join(a, b);
    assert m[..|a|] == a;
    assert m[i..i + 5] == a[i..i + 5];
  }

  /** A final `/qt5` segment meets the separator that joining inserts. */
  lemma FinalSegmentInMarker(d: string)
    requires EndsWith(d, "/qt5")
    ensures InfixAt(Join(d, ".git"), "/qt5/", |d| - 4)
  {
    var m := Join(d, ".git");
    assert d[|d| - 1] == '5';
    assert m == d + "/.git";
    var i := |d| - 4;
    assert m[i..i + 5] == d[i..] + "/";
  }

  /** An occurrence in the marker path is either inside `d` or straddles its final segment. */
  lemma InfixInMarker(d: string, i: int)
    requires InfixAt(Join(d, ".git"), "/qt5/", i)
    ensures InfixAt(d, "/qt5/", i) || EndsWith(d, "/qt5")
  {
    var m := Join(d, ".git");
    var sep := if d == "" || d[|d| - 1] == '/' then "" else "/";
    assert m == d + sep + ".git";
    assert m[i..i + 5] == "/qt5/";
    if i + 5 <= |d| {
      assert d[i..i + 5] == m[i..i + 5];
    } else {
      assert m[i + 4] == '/';
      assert forall j :: |d| + |sep| <= j < |m| ==> m[j] == ".git"[j - |d| - |sep|];
      assert i + 4 == |d| && sep == "/";
      assert d[|d| - 4..] == m[i..i + 4];
    }
  }

  /** Python's `check(repo_dir)` for each kind: git only asks that the marker exists. */
  predicate Check(kind: VcsKind, marker: string, fs: FsView)
  {
    match kind
    case Git => marker in fs.present
  }

  /**
   * The marker of `prop` under `d` passes: no excluded segment, the kind's
   * check holds, and it is not a directory that cannot be entered.
   */
  predicate Accepts(d: string, prop: VcsProp, fs: FsView)
  {
    var m := Join(d, prop.marker);
    VcsDirOk(m) && Check(prop.kind, m, fs) && !(m in fs.dirs && m !in fs.searchable)
  }

  /** The inner loop of `is_vcs`: the index of the first kind in `props` whose marker `d` holds. */
  function FirstAccepted(d: string, props: seq<VcsProp>, fs: FsView): (i: nat)
    ensures i <= |props|
    ensures forall j :: 0 <= j < i ==> !Accepts(d, props[j], fs)
    ensures i < |props| ==> Accepts(d, props[i], fs)
  {
    if props == [] then 0
    else if Accepts(d, props[0], fs) then 0
    else 1 + FirstAccepted(d, props[1..], fs)
  }

  /** The kind whose marker `d` holds, first in registry order. */
  function KindAt(d: string, fs: FsView): Option<VcsKind>
  {
    var i := FirstAccepted(d, VcsProps, fs);
    if i < |VcsProps| then Some(VcsProps[i].kind) else None
  }

  /** Some registered kind has an acceptable marker at `d`. */
  predicate IsRoot(d: string, fs: FsView)
  {
    KindAt(d, fs).Some?
  }

  /** The outer loop of `is_vcs`: the index of the first ancestor that is a root. */
  function FirstRoot(ancestors: seq<string>, fs: FsView): (i: nat)
    ensures i <= |ancestors|
    ensures forall j :: 0 <= j < i ==> !IsRoot(ancestors[j], fs)
    ensures i < |ancestors| ==> IsRoot(ancestors[i], fs)
  {
    if ancestors == [] then 0
    else if IsRoot(ancestors[0], fs) then 0
    else 1 + FirstRoot(ancestors[1..], fs)
  }

  /**
   * `is_vcs`: the first of `ancestors` (nearest first) that is a root, with its
   * kind, or None when no ancestor is one.
   */
  function IsVcs(ancestors: seq<string>, fs: FsView): (r: Option<Repo>)
    ensures r.None? <==> forall i :: 0 <= i < |ancestors| ==> !IsRoot(ancestors[i], fs)
    ensures r.Some? ==> r.value.root in ancestors
    ensures r.Some? ==> exists i :: 0 <= i < |ancestors| && ancestors[i] == r.value.root
                                    && KindAt(ancestors[i], fs) == Some(r.value.kind)
                                    && forall j :: 0 <= j < i ==> !IsRoot(ancestors[j], fs)
  {
    var i := FirstRoot(ancestors, fs);
    if i < |ancestors| then Some(Repo(KindAt(ancestors[i], fs).value, ancestors[i])) else None
  }

  /** For git, a directory is a root exactly when its `.git` passes all three checks. */
  lemma IsRootGit(d: string, fs: FsView)
    ensures IsRoot(d, fs) ==> KindAt(d, fs) == Some(Git)
    ensures IsRoot(d, fs) <==> var m := Join(d, ".git");
                               VcsDirOk(m) && m in fs.present && !(m in fs.dirs && m !in fs.searchable)
  {
    assert VcsProps[0] == VcsProp(Git, ".git");
  }

  /** A marker that exists, is not a locked directory and has no `qt5` segment makes a git root. */
  lemma PlainRoot(d: string, fs: FsView)
    requires !(exists i :: InfixAt(d, "/qt5/", i)) && !EndsWith(d, "/qt5")
    requires Join(d, ".git") in fs.present
    requires Join(d, ".git") !in fs.dirs || Join(d, ".git") in fs.searchable
    ensures IsRoot(d, fs) && KindAt(d, fs) == Some(Git)
  {
    MarkerExcludedIff(d);
    IsRootGit(d, fs);
  }

  /** A marker directory that cannot be entered does not make a root. */
  lemma LockedMarkerNotRoot(d: string, fs: FsView)
    requires Join(d, ".git") in fs.dirs && Join(d, ".git") !in fs.searchable
    ensures !IsRoot(d, fs)
  {
    IsRootGit(d, fs);
  }

  /** A marker inside a `qt5` tree does not make a root. */
  lemma ExcludedMarkerNotRoot(d: string, fs: FsView)
    requires EndsWith(d, "/qt5")
    ensures !IsRoot(d, fs)
  {
    MarkerExcludedIff(d);
    IsRootGit(d, fs);
  }

  /** When the nearest ancestor is not a root and the next one is, the next one is found. */
  lemma SecondAncestorFound(ancestors: seq<string>, fs: FsView)
    requires |ancestors| >= 2 && !IsRoot(ancestors[0], fs) && IsRoot(ancestors[1], fs)
    ensures IsVcs(ancestors, fs) == Some(Repo(KindAt(ancestors[1], fs).value, ancestors[1]))
  {
    assert FirstRoot(ancestors, fs) == 1 by {
      assert ancestors[1..][0] == ancestors[1];
    }
  }

  /** A path of fewer than five characters other than `/qt5` has no `qt5` segment. */
  lemma ShortPathNotExcluded(d: string)
    requires |d| < 5 && d != "/qt5"
    ensures !(exists i :: InfixAt(d, "/qt5/", i)) && !EndsWith(d, "/qt5")
  {
  }

  /**
   * A marker inside a vendored `qt5` tree is skipped and ascension carries on
   * to the enclosing repository.
   */
  lemma SkipsExcludedTree()
    ensures var fs := FsView({"/src/qt5/.git", "/src/.git"}, {"/src/qt5/.git", "/src/.git"},
                             {"/src/qt5/.git", "/src/.git"});
            IsVcs(["/src/qt5", "/src"], fs) == Some(Repo(Git, "/src"))
  {
    var fs := FsView({"/src/qt5/.git", "/src/.git"}, {"/src/qt5/.git", "/src/.git"},
                     {"/src/qt5/.git", "/src/.git"});
    var anc := ["/src/qt5", "/src"];
    assert "/src/qt5"[4..] == "/qt5";
    ExcludedMarkerNotRoot(anc[0], fs);
    assert Join("/src", ".git") == "/src/.git";
    assert "/src"[1] != "/qt5"[1];
    ShortPathNotExcluded("/src");
    PlainRoot(anc[1], fs);
    SecondAncestorFound(anc, fs);
  }

  /** With no marker outside the excluded tree, nothing is found. */
  lemma ExcludedTreeAlone()
    ensures IsVcs(["/src/qt5"], FsView({"/src/qt5/.git"}, {}, {})) == None
  {
    assert "/src/qt5"[4..] == "/qt5";
    ExcludedMarkerNotRoot("/src/qt5", FsView({"/src/qt5/.git"}, {}, {}));
  }

  /** A marker directory without execute permission is treated as absent. */
  lemma SkipsUnsearchableMarker()
    ensures IsVcs(["/w/sub", "/w"], FsView({"/w/sub/.git", "/w/.git"}, {"/w/sub/.git"}, {}))
            == Some(Repo(Git, "/w"))
  {
    var fs := FsView({"/w/sub/.git", "/w/.git"}, {"/w/sub/.git"}, {});
    var anc := ["/w/sub", "/w"];
    assert Join("/w/sub", ".git") == "/w/sub/.git";
    LockedMarkerNotRoot(anc[0], fs);
    assert Join("/w", ".git") == "/w/.git";
    ShortPathNotExcluded("/w");
    PlainRoot(anc[1], fs);
    SecondAncestorFound(anc, fs);
  }
}
