/**
 * Git status codes. With a subpath: the two-character porcelain prefix of the
 * first output line. For the whole tree: three flags folded over every output
 * line and rendered in the column order worktree, index, untracked.
 * The command's output lines are an input.
 */
module StatusCodes {
  import opened Wrappers

  /** Python truthiness of the optional subpath: None and "" both mean the whole tree. */
  predicate Truthy(subpath: Option<string>)
  {
    subpath.Some? && subpath.value != ""
  }

  /** Porcelain output: every line has its two status columns. */
  predicate Porcelain(lines: seq<string>)
  {
    forall i :: 0 <= i < |lines| ==> |lines[i]| >= 2
  }

  /** The subpath form: the first two characters of the first line, or "" without output. */
  function SubpathStatus(lines: seq<string>): (r: string)
    ensures lines == [] ==> r == ""
    ensures lines != [] ==> |r| == (if |lines[0]| < 2 then |lines[0]| else 2) && r <= lines[0]
  {
    if lines == [] then "" else lines[0][..if |lines[0]| < 2 then |lines[0]| else 2]
  }

  /** A line that reports an untracked file. */
  predicate UntrackedLine(line: string)
  {
    |line| >= 1 && line[0] == '?'
  }

  /** A line that reports a tracked file (neither untracked nor ignored). */
  predicate TrackedLine(line: string)
  {
    |line| >= 1 && line[0] != '?' && line[0] != '!'
  }

  /** A tracked line whose index column is not blank. */
  predicate IndexLine(line: string)
  {
    TrackedLine(line) && line[0] != ' '
  }

  /** A tracked line whose worktree column is not blank. */
  predicate WorktreeLine(line: string)
  {
    TrackedLine(line) && |line| >= 2 && line[1] != ' '
  }

  /** The three whole-tree flags. */
  datatype Flags = Flags(worktree: bool, index: bool, untracked: bool)

  /** Each flag is set exactly when some line reports it. */
  function FlagsOf(lines: seq<string>): Flags
  {
    Flags(exists l :: l in lines && WorktreeLine(l),
          exists l :: l in lines && IndexLine(l),
          exists l :: l in lines && UntrackedLine(l))
  }

  /** One column: its marker when the flag is set, blank otherwise. */
  function Column(on: bool, marker: char): char
  {
    if on then marker else ' '
  }

  /** The three columns in fixed order, or "" when all are blank. */
  function Render(f: Flags): string
  {
    var r := [Column(f.worktree, 'D'), Column(f.index, 'I'), Column(f.untracked, 'U')];
    if r == "   " then "" else r
  }

  /** The whole-tree status code the source composes from `lines`. */
  function TreeStatus(lines: seq<string>): (r: string)
    ensures r == "" || (|r| == 3 && r[0] in "D " && r[1] in "I " && r[2] in "U " && r != "   ")
    ensures lines == [] ==> r == ""
    ensures r == "" <==> forall l :: l in lines ==> !WorktreeLine(l) && !IndexLine(l) && !UntrackedLine(l)
  {
    Render(FlagsOf(lines))
  }

  /** The status query as a specification: the subpath form or the whole-tree form. */
  function StatusFor(subpath: Option<string>, lines: seq<string>): string
  {
    if Truthy(subpath) then SubpathStatus(lines) else TreeStatus(lines)
  }

  /** One more line sets exactly the flags that line reports and clears none. */
  lemma FlagsSnoc(lines: seq<string>, line: string)
    ensures var before, after := FlagsOf(lines), FlagsOf(lines + [line]);
            && after.worktree == (before.worktree || WorktreeLine(line))
            && after.index == (before.index || IndexLine(line))
            && after.untracked == (before.untracked || UntrackedLine(line))
  {
    assert forall l :: l in lines + [line] <==> l in lines || l == line;
  }

  /** The whole-tree loop of `git_status`: three column variables updated line by line. */
  method ScanTreeStatus(lines: seq<string>) returns (r: string)
    requires Porcelain(lines)
    ensures r == TreeStatus(lines)
  {
    var wtColumn, indexColumn, untrackedColumn := ' ', ' ', ' ';
    for k := 0 to |lines|
      invariant wtColumn == Column(FlagsOf(lines[..k]).worktree, 'D')
      invariant indexColumn == Column(FlagsOf(lines[..k]).index, 'I')
      invariant untrackedColumn == Column(FlagsOf(lines[..k]).untracked, 'U')
    {
      var line := lines[k];
      assert lines[..k + 1] == lines[..k] + [line];
      FlagsSnoc(lines[..k], line);
      if line[0] == '?' {
        untrackedColumn := 'U';
        continue;
      } else if line[0] == '!' {
        continue;
      }
      if line[0] != ' ' {
        indexColumn := 'I';
      }
      if line[1] != ' ' {
        wtColumn := 'D';
      }
    }
    assert lines[..|lines|] == lines;
    r := [wtColumn, indexColumn, untrackedColumn];
    if r == "   " {
      r := "";
    }
  }

  /** `git_status`: dispatch on the subpath as the source does. */
  method GitStatus(subpath: Option<string>, lines: seq<string>) returns (r: string)
    requires !Truthy(subpath) ==> Porcelain(lines)
    ensures r == StatusFor(subpath, lines)
  {
    if Truthy(subpath) {
      r := SubpathStatus(lines);
    } else {
      r := ScanTreeStatus(lines);
    }
  }

  /** Ignored lines (`!`) never change the whole-tree status. */
  function DropIgnored(lines: seq<string>): (r: seq<string>)
  {
    if lines == [] then []
    else if |lines[0]| >= 1 && lines[0][0] == '!' then DropIgnored(lines[1..])
    else [lines[0]] + DropIgnored(lines[1..])
  }

  lemma {:induction false} DropIgnoredMembers(lines: seq<string>, l: string)
    ensures l in DropIgnored(lines) <==> l in lines && !(|l| >= 1 && l[0] == '!')
  {
    if lines != [] {
      DropIgnoredMembers(lines[1..], l);
      assert l in lines <==> l == lines[0] || l in lines[1..];
    }
  }

  /** Removing the ignored lines leaves the whole-tree status as it was. */
  lemma IgnoredLinesIrrelevant(lines: seq<string>)
    ensures TreeStatus(DropIgnored(lines)) == TreeStatus(lines)
  {
    forall l ensures l in DropIgnored(lines) <==> l in lines && !(|l| >= 1 && l[0] == '!') {
      DropIgnoredMembers(lines, l);
    }
    assert FlagsOf(DropIgnored(lines)) == FlagsOf(lines);
  }

  /** Flags are only ever set: more output never clears a column. */
  lemma FlagsMonotone(lines: seq<string>, more: seq<string>)
    ensures var before, after := FlagsOf(lines), FlagsOf(lines + more);
            (before.worktree ==> after.worktree) && (before.index ==> after.index)
            && (before.untracked ==> after.untracked)
  {
    assert forall l :: l in lines ==> l in lines + more;
  }

  /** The whole-tree status does not depend on the order of the lines. */
  lemma TreeStatusOrderIndependent(lines: seq<string>, shuffled: seq<string>)
    requires multiset(lines) == multiset(shuffled)
    ensures TreeStatus(lines) == TreeStatus(shuffled)
  {
    assert forall l :: l in lines <==> l in multiset(lines);
    assert forall l :: l in shuffled <==> l in multiset(shuffled);
    assert FlagsOf(lines) == FlagsOf(shuffled);
  }

  /** A staged modification and an untracked file give index and untracked set, worktree blank. */
  lemma StagedAndUntracked()
    ensures TreeStatus(["M  file1", "?? file2"]) == " IU"
  {
    var lines := ["M  file1", "?? file2"];
    assert IndexLine(lines[0]) && !WorktreeLine(lines[0]);
    assert UntrackedLine(lines[1]) && !WorktreeLine(lines[1]);
    assert forall l :: l in lines ==> l == lines[0] || l == lines[1];
    assert FlagsOf(lines) == Flags(false, true, true);
  }

  /** A subpath query reports the raw porcelain prefix of its first line. */
  lemma SubpathPrefix()
    ensures SubpathStatus([" M a/b.txt", "?? c"]) == " M"
    ensures SubpathStatus([]) == ""
  {
  }
}
