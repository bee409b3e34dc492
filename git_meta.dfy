/**
 * Git metadata: the watcher's event filter, the repository directory named by
 * a `.git` marker, and the branch named by `HEAD`. File reads are a map from
 * path to decoded content; a path that is absent could not be read.
 */
module GitMeta {
  import opened Wrappers
  import opened Text

  /** Readable files and their decoded contents. */
  type Files = map<string, string>

  /** Events on git's own `index.lock` inside a `.git` directory are not tree changes. */
  predicate GitIgnoreModifies(path: string, name: string)
  {
    EndsWith(path, ".git") && name == "index.lock"
  }

  /** The filter drops the lock file of any root's metadata directory, and nothing but an `index.lock`. */
  lemma IgnoresOnlyIndexLock(root: string, path: string, name: string)
    ensures GitIgnoreModifies(Join(root, ".git"), "index.lock")
    ensures name != "index.lock" ==> !GitIgnoreModifies(path, name)
    ensures !EndsWith(path, ".git") ==> !GitIgnoreModifies(path, name)
  {
  }

  /** Index of the first `:` in `s`, or `|s|` when there is none. */
  function ColonIndex(s: string): (i: nat)
    ensures i <= |s|
    ensures forall j :: 0 <= j < i ==> s[j] != ':'
    ensures i < |s| ==> s[i] == ':'
  {
    if s == [] || s[0] == ':' then 0 else 1 + ColonIndex(s[1..])
  }

  /** `s.partition(':')[2]`: what follows the first colon, or "" when there is none. */
  function AfterColon(s: string): (r: string)
    ensures ':' !in s ==> r == ""
  {
    var i := ColonIndex(s);
    if i < |s| then s[i + 1..] else ""
  }

  /** Partition splits at the first colon: a tag without colons is dropped together with its colon. */
  lemma AfterColonOf(tag: string, rest: string)
    requires ':' !in tag
    ensures AfterColon(tag + ":" + rest) == rest
  {
    var s := tag + ":" + rest;
    var i := ColonIndex(s);
    assert s[|tag|] == ':';
    assert forall j :: 0 <= j < |tag| ==> s[j] == tag[j];
    assert i == |tag|;
    assert s[i + 1..] == rest;
  }

  /**
   * `git_directory`: the repository directory of the root `directory`. A readable
   * `.git` file names it after its first colon, relative to the root; when the
   * marker cannot be read the marker path itself is the repository directory.
   */
  function GitDirectory(directory: string, files: Files): (r: string)
    ensures Join(directory, ".git") !in files ==> r == Join(directory, ".git")
  {
    var marker := Join(directory, ".git");
    if marker in files then Join(directory, Strip(AfterColon(files[marker])))
    else marker
  }

  /** A marker file `<tag>: <path>` with whitespace padding names `<path>`, resolved against the root. */
  lemma GitDirectoryParses(directory: string, files: Files, tag: string, before: string, target: string, after: string)
    requires ':' !in tag
    requires forall i :: 0 <= i < |before| ==> IsAsciiSpace(before[i])
    requires forall i :: 0 <= i < |after| ==> IsAsciiSpace(after[i])
    requires target == [] || (!IsAsciiSpace(target[0]) && !IsAsciiSpace(target[|target| - 1]))
    requires Join(directory, ".git") in files
    requires files[Join(directory, ".git")] == tag + ":" + before + target + after
    ensures GitDirectory(directory, files) == Join(directory, target)
  {
    var content := files[Join(directory, ".git")];
    assert content == tag + ":" + (before + target + after);
    AfterColonOf(tag, before + target + after);
    StripPadded(before, target, after);
  }

  /** A worktree's `.git` file `gitdir: /main/.git/worktrees/wt` names that absolute directory. */
  lemma WorktreeMarker()
    ensures GitDirectory("/wt", map["/wt/.git" := "gitdir: " + "/main/.git/worktrees/wt" + "\n"])
            == "/main/.git/worktrees/wt"
  {
    var target := "/main/.git/worktrees/wt";
    var content := "gitdir: " + target + "\n";
    assert "gitdir" + ":" + " " == "gitdir: ";
    assert content == "gitdir" + ":" + " " + target + "\n";
    var files := map["/wt/.git" := content];
    assert Join("/wt", ".git") == "/wt/.git";
    assert ':' !in "gitdir";
    GitDirectoryParses("/wt", files, "gitdir", " ", target, "\n");
    assert Join("/wt", target) == target;
  }

  const RefTag := "ref:"
  const HeadsPrefix := "refs/heads/"

  /**
   * The pattern `ref:\s*refs/heads/(.+)`, anchored at the start, matches `raw`
   * with `k` whitespace characters after the tag and group 1 equal to `name`:
   * `.+` takes at least one character and stops only at a newline or the end.
   */
  ghost predicate MatchesWith(raw: string, k: nat, name: string)
  {
    var start := |RefTag| + k + |HeadsPrefix|;
    && start + |name| <= |raw|
    && raw[..|RefTag|] == RefTag
    && (forall i :: |RefTag| <= i < |RefTag| + k ==> IsUnicodeSpace(raw[i]))
    && raw[|RefTag| + k..start] == HeadsPrefix
    && raw[start..start + |name|] == name
    && |name| > 0
    && '\n' !in name
    && (start + |name| == |raw| || raw[start + |name|] == '\n')
  }

  /** The branch pattern matches `raw` with group 1 equal to `name`. */
  ghost predicate RefMatches(raw: string, name: string)
  {
    exists k: nat :: MatchesWith(raw, k, name)
  }

  /** Length of the text before the first newline. */
  function LineLength(s: string): (n: nat)
    ensures n <= |s|
    ensures '\n' !in s[..n]
    ensures n < |s| ==> s[n] == '\n'
  {
    if s == [] || s[0] == '\n' then 0
    else
      var n := 1 + LineLength(s[1..]);
      assert s[..n] == [s[0]] + s[1..][..n - 1];
      n
  }

  /** `ref_pat.match(raw)`: group 1 when the pattern matches, None otherwise. */
  function RefMatch(raw: string): Option<string>
  {
    if !StartsWith(raw, RefTag) then None
    else
      var k := LeadingRun(raw[|RefTag|..], IsUnicodeSpace);
      var after := raw[|RefTag| + k..];
      if !StartsWith(after, HeadsPrefix) then None
      else
        var tail := after[|HeadsPrefix|..];
        var n := LineLength(tail);
        if n == 0 then None else Some(tail[..n])
  }

  /** The matcher returns `name` exactly when the pattern matches with group 1 equal to `name`. */
  lemma RefMatchIff(raw: string, name: string)
    ensures RefMatches(raw, name) <==> RefMatch(raw) == Some(name)
  {
    if RefMatches(raw, name) {
      var k: nat :| MatchesWith(raw, k, name);
      MatchFound(raw, k, name);
    }
    if RefMatch(raw) == Some(name) {
      FoundMatches(raw, name);
    }
  }

  /** Whatever the pattern matches, the matcher finds. */
  lemma MatchFound(raw: string, k': nat, name: string)
    requires MatchesWith(raw, k', name)
    ensures RefMatch(raw) == Some(name)
  {
    var k := LeadingRun(raw[|RefTag|..], IsUnicodeSpace);
    var start := |RefTag| + k' + |HeadsPrefix|;
    assert raw[|RefTag| + k'..start][0] == raw[|RefTag| + k'];
    SpaceRunUnique(raw, k, k');
    var after := raw[|RefTag| + k..];
    assert after[..|HeadsPrefix|] == raw[|RefTag| + k..start];
    var tail := after[|HeadsPrefix|..];
    assert tail == raw[start..];
    assert tail[..|name|] == raw[start..start + |name|];
    NameIsLine(tail, name);
  }

  /** Whatever the matcher finds, the pattern matches. */
  lemma FoundMatches(raw: string, name: string)
    requires RefMatch(raw) == Some(name)
    ensures MatchesWith(raw, LeadingRun(raw[|RefTag|..], IsUnicodeSpace), name)
  {
    var k := LeadingRun(raw[|RefTag|..], IsUnicodeSpace);
    var start := |RefTag| + k + |HeadsPrefix|;
    var tail := raw[start..];
    assert raw[|RefTag| + k..][|HeadsPrefix|..] == tail;
    assert raw[|RefTag| + k..][..|HeadsPrefix|] == raw[|RefTag| + k..start];
    assert forall i :: |RefTag| <= i < |RefTag| + k ==> raw[i] == raw[|RefTag|..][i - |RefTag|];
    assert name == tail[..LineLength(tail)];
    assert raw[start..start + |name|] == name;
  }

  /** The whitespace run the pattern skips is the maximal one, since `refs/heads/` starts with no whitespace. */
  lemma SpaceRunUnique(raw: string, k: nat, k': nat)
    requires StartsWith(raw, RefTag)
    requires k == LeadingRun(raw[|RefTag|..], IsUnicodeSpace)
    requires |RefTag| + k' < |raw|
    requires forall i :: |RefTag| <= i < |RefTag| + k' ==> IsUnicodeSpace(raw[i])
    requires raw[|RefTag| + k'] == 'r'
    ensures k == k'
  {
    var s := raw[|RefTag|..];
    assert forall j :: 0 <= j < |s| ==> s[j] == raw[|RefTag| + j];
  }

  /** A group that stops before a newline or the end is the text before the first newline. */
  lemma NameIsLine(tail: string, name: string)
    requires |name| <= |tail| && tail[..|name|] == name && '\n' !in name
    requires |name| == |tail| || tail[|name|] == '\n'
    ensures LineLength(tail) == |name|
  {
    var n := LineLength(tail);
    assert forall j :: 0 <= j < |name| ==> tail[j] == name[j];
    assert forall j :: 0 <= j < n ==> tail[..n][j] == tail[j];
  }

  lemma RefMatchIffAll(raw: string)
    ensures forall name :: RefMatches(raw, name) <==> RefMatch(raw) == Some(name)
  {
    forall name ensures RefMatches(raw, name) <==> RefMatch(raw) == Some(name) {
      RefMatchIff(raw, name);
    }
  }

  /** The part of `git_branch_name` after the read: group 1 of the pattern, else the first seven characters. */
  function BranchFromHead(raw: string): (b: string)
    ensures forall name :: RefMatches(raw, name) ==> b == name
    ensures (forall name :: !RefMatches(raw, name)) ==> b == raw[..if |raw| < 7 then |raw| else 7]
  {
    RefMatchIffAll(raw);
    match RefMatch(raw)
    case Some(name) => name
    case None => raw[..if |raw| < 7 then |raw| else 7]
  }

  /** `git_branch_name`: the branch recorded in `HEAD` of the root's repository directory, None when unreadable. */
  function GitBranchName(baseDir: string, files: Files): (r: Option<string>)
    ensures var head := Join(GitDirectory(baseDir, files), "HEAD");
            && (r.None? <==> head !in files)
            && (head in files ==> r == Some(BranchFromHead(files[head])))
  {
    var head := Join(GitDirectory(baseDir, files), "HEAD");
    if head in files then Some(BranchFromHead(files[head])) else None
  }

  /** A symbolic ref `ref:<whitespace>refs/heads/<name>` ending in a newline names `<name>`. */
  lemma BranchOfSymbolicRef(ws: string, name: string)
    requires forall i :: 0 <= i < |ws| ==> IsUnicodeSpace(ws[i])
    requires |name| > 0 && '\n' !in name
    ensures BranchFromHead(RefTag + ws + HeadsPrefix + name + "\n") == name
  {
    var raw := RefTag + ws + HeadsPrefix + name + "\n";
    var start := |RefTag| + |ws| + |HeadsPrefix|;
    assert raw[..|RefTag|] == RefTag;
    assert forall i :: |RefTag| <= i < |RefTag| + |ws| ==> raw[i] == ws[i - |RefTag|];
    assert raw[|RefTag| + |ws|..start] == HeadsPrefix;
    assert raw[start..start + |name|] == name;
    assert raw[start + |name|] == '\n';
    assert MatchesWith(raw, |ws|, name);
    assert RefMatches(raw, name);
  }

  /** `HEAD` holding `ref: refs/heads/main` and a newline names the branch `main`. */
  lemma BranchOfMain()
    ensures BranchFromHead("ref: refs/heads/main\n") == "main"
  {
    assert RefTag + " " + HeadsPrefix + "main" + "\n" == "ref: refs/heads/main\n";
    BranchOfSymbolicRef(" ", "main");
  }

  /** In a detached `HEAD` holding a commit hash, the branch is the hash's first seven characters. */
  lemma BranchOfDetachedHead(raw: string)
    requires |raw| == 41 && raw[40] == '\n'
    requires forall i :: 0 <= i < 40 ==> '0' <= raw[i] <= '9' || 'a' <= raw[i] <= 'f'
    ensures BranchFromHead(raw) == raw[..7]
  {
    assert raw[..4][0] == raw[0] != 'r';
  }

  /** A `ref:` with an empty branch name does not match, so the raw prefix is returned. */
  lemma BranchOfEmptyRef()
    ensures BranchFromHead("ref: refs/heads/\n") == "ref: re"
  {
    var raw := RefTag + " " + HeadsPrefix + "\n";
    assert raw == "ref: refs/heads/\n";
    var s := raw[4..];
    assert s[0] == ' ' && s[1] == 'r';
    assert LeadingRun(s, IsUnicodeSpace) == 1;
    assert raw[5..][..11] == HeadsPrefix;
    var tail := raw[5..][11..];
    assert tail == "\n";
    assert LineLength(tail) == 0;
  }
}
