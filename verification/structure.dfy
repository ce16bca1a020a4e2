/**
 The file-structure step: required directories and files, empty files, leftover template
 keywords in Python sources, and the `if __name__` guard of the example entry script.
 */
module Structure {
  import opened Wrappers
  import opened Strings
  import opened FileTree
  import opened Models

  /** The required files and directories, relative to the submission root. The source keeps
      them in Python sets and visits them in hash order, which can change between runs; the
      model fixes the written order, and only the position of issues within a kind depends
      on it. */
  const RequiredFiles: seq<string> := [
    "src/generator.py", "src/config.py", "src/prompts.py", "src/__init__.py",
    "examples/generate.py", "requirements.txt", "README.md"]

  const RequiredDirs: seq<string> := ["src", "examples", "core"]

  /** Template keywords, tried in this order; only the first one found is reported. */
  const TemplateKeywords: seq<string> := ["chess", "ChessGenerator", "chess_task"]

  const EntryScript := "examples/generate.py"

  const MissingFileMarker := "Missing required file"
  const MissingDirMarker := "Missing required directory"

  function MissingDirMessage(d: string): string {
    MissingDirMarker + ": " + d
  }

  function MissingFileMessage(f: string): string {
    MissingFileMarker + ": " + f
  }

  function EmptyFileMessage(f: string): string {
    "File is empty: " + f
  }

  const GuardMessage := "generate.py missing __main__ entry point"

  function MissingDirIssue(root: Path, d: string): Issue {
    Issue("structure", Critical, MissingDirMessage(d), filePath := Some(Show(At(root, d))))
  }

  function MissingFileIssue(root: Path, f: string): Issue {
    Issue("structure", Critical, MissingFileMessage(f), filePath := Some(Show(At(root, f))))
  }

  function EmptyFileIssue(root: Path, f: string): Issue {
    Issue("structure", Warning, EmptyFileMessage(f), filePath := Some(Show(At(root, f))))
  }

  /** How many of `names` do not exist below `root`. */
  function MissingCount(t: Tree, root: Path, names: seq<string>): (n: nat)
    ensures n <= |names|
    ensures n == 0 <==> forall i :: 0 <= i < |names| ==> Exists(t, At(root, names[i]))
  {
    if |names| == 0 then 0
    else (if Exists(t, At(root, names[0])) then 0 else 1) + MissingCount(t, root, names[1..])
  }

  /** How many of `names` are regular files with no content below `root`. */
  function EmptyCount(t: Tree, root: Path, names: seq<string>): (n: nat)
    ensures n <= |names|
  {
    if |names| == 0 then 0
    else (if IsEmptyFile(t, At(root, names[0])) then 1 else 0) + EmptyCount(t, root, names[1..])
  }

  /** `x` is the missing-directory issue of one of `dirs`. */
  predicate DirIssueOf(root: Path, dirs: seq<string>, x: Issue) {
    exists j :: 0 <= j < |dirs| && x == MissingDirIssue(root, dirs[j])
  }

  /** One CRITICAL issue per missing directory, in table order. */
  function DirIssues(t: Tree, root: Path, dirs: seq<string>): (r: seq<Issue>)
    ensures |r| == MissingCount(t, root, dirs)
    ensures forall i :: 0 <= i < |r| ==> DirIssueOf(root, dirs, r[i])
  {
    if |dirs| == 0 then []
    else
      var rest := DirIssues(t, root, dirs[1..]);
      assert forall x :: DirIssueOf(root, dirs[1..], x) ==> DirIssueOf(root, dirs, x);
      if Exists(t, At(root, dirs[0])) then rest else [MissingDirIssue(root, dirs[0])] + rest
  }

  /** The outcome for one required file: missing, present but empty, or fine; never two. */
  function FileOutcome(t: Tree, root: Path, f: string): (r: seq<Issue>)
    ensures |r| <= 1
    ensures !Exists(t, At(root, f)) <==> r == [MissingFileIssue(root, f)]
    ensures IsEmptyFile(t, At(root, f)) <==> r == [EmptyFileIssue(root, f)]
    ensures r == [] <==> Exists(t, At(root, f)) && !IsEmptyFile(t, At(root, f))
  {
    if !Exists(t, At(root, f)) then [MissingFileIssue(root, f)]
    else if IsEmptyFile(t, At(root, f)) then [EmptyFileIssue(root, f)]
    else []
  }

  /** `x` is the missing-file or empty-file issue of one of `files`. */
  predicate FileIssueOf(root: Path, files: seq<string>, x: Issue) {
    exists j :: 0 <= j < |files| && (x == MissingFileIssue(root, files[j]) || x == EmptyFileIssue(root, files[j]))
  }

  /** The outcomes of all required files, in table order. */
  function FileIssues(t: Tree, root: Path, files: seq<string>): (r: seq<Issue>)
    ensures forall i :: 0 <= i < |r| ==> FileIssueOf(root, files, r[i])
  {
    if |files| == 0 then []
    else
      var rest := FileIssues(t, root, files[1..]);
      assert forall x :: FileIssueOf(root, files[1..], x) ==> FileIssueOf(root, files, x);
      FileOutcome(t, root, files[0]) + rest
  }

  /** Over the whole table: one CRITICAL per missing file, one WARNING per empty file, and
      at most one issue per file. */
  lemma {:induction false} FileIssuesCounts(t: Tree, root: Path, files: seq<string>)
    ensures SeverityCount(FileIssues(t, root, files), Critical) == MissingCount(t, root, files)
    ensures SeverityCount(FileIssues(t, root, files), Warning) == EmptyCount(t, root, files)
    ensures SeverityCount(FileIssues(t, root, files), Info) == 0
    ensures |FileIssues(t, root, files)| <= |files|
  {
    if |files| > 0 {
      FileIssuesCounts(t, root, files[1..]);
      var o := FileOutcome(t, root, files[0]);
      var rest := FileIssues(t, root, files[1..]);
      SeverityCountConcat(o, rest, Critical);
      SeverityCountConcat(o, rest, Warning);
      SeverityCountConcat(o, rest, Info);
    }
  }

  /** Equal issues name equal paths: the directory or file is the tail of the message. */
  lemma IssueNamesInjective(root: Path)
    ensures forall a, b :: MissingDirIssue(root, a) == MissingDirIssue(root, b) ==> a == b
    ensures forall a, b :: MissingFileIssue(root, a) == MissingFileIssue(root, b) ==> a == b
    ensures forall a, b :: EmptyFileIssue(root, a) == EmptyFileIssue(root, b) ==> a == b
  {
    forall a, b | MissingDirIssue(root, a) == MissingDirIssue(root, b) ensures a == b {
      SuffixDetermined(MissingDirMarker + ": ", a, b);
    }
    forall a, b | MissingFileIssue(root, a) == MissingFileIssue(root, b) ensures a == b {
      SuffixDetermined(MissingFileMarker + ": ", a, b);
    }
    forall a, b | EmptyFileIssue(root, a) == EmptyFileIssue(root, b) ensures a == b {
      SuffixDetermined("File is empty: ", a, b);
    }
  }

  lemma SuffixDetermined(p: string, a: string, b: string)
    requires p + a == p + b
    ensures a == b
  {
    assert a == (p + a)[|p|..];
    assert b == (p + b)[|p|..];
  }

  /** Each table directory has its own CRITICAL issue exactly when it is missing. */
  lemma {:induction false} DirIssuesPerDir(t: Tree, root: Path, dirs: seq<string>)
    ensures forall j :: 0 <= j < |dirs| ==>
      (MissingDirIssue(root, dirs[j]) in DirIssues(t, root, dirs) <==> !Exists(t, At(root, dirs[j])))
  {
    if |dirs| > 0 {
      var rest := DirIssues(t, root, dirs[1..]);
      DirIssuesPerDir(t, root, dirs[1..]);
      IssueNamesInjective(root);
      forall j | 0 <= j < |dirs|
        ensures MissingDirIssue(root, dirs[j]) in DirIssues(t, root, dirs) <==> !Exists(t, At(root, dirs[j]))
      {
        if j > 0 {
          assert dirs[j] == dirs[1..][j - 1];
        } else if MissingDirIssue(root, dirs[0]) in rest {
          var i :| 0 <= i < |rest| && rest[i] == MissingDirIssue(root, dirs[0]);
          var k :| 0 <= k < |dirs[1..]| && rest[i] == MissingDirIssue(root, dirs[1..][k]);
          assert dirs[0] == dirs[1..][k];
        }
      }
    }
  }

  /** The file at position `j` of the table has its own CRITICAL issue exactly when it is
      missing, and its own WARNING exactly when it is an empty regular file. */
  lemma FileIssuesPerFile(t: Tree, root: Path, files: seq<string>, j: nat)
    requires j < |files|
    ensures MissingFileIssue(root, files[j]) in FileIssues(t, root, files) <==> !Exists(t, At(root, files[j]))
    ensures EmptyFileIssue(root, files[j]) in FileIssues(t, root, files) <==> IsEmptyFile(t, At(root, files[j]))
  {
    FileIssuesSound(t, root, files, files[j]);
    FileIssuesComplete(t, root, files, j);
  }

  /** A file's issue is reported only for a file of the table in that state. */
  lemma {:induction false} FileIssuesSound(t: Tree, root: Path, files: seq<string>, f: string)
    ensures MissingFileIssue(root, f) in FileIssues(t, root, files) ==> !Exists(t, At(root, f))
    ensures EmptyFileIssue(root, f) in FileIssues(t, root, files) ==> IsEmptyFile(t, At(root, f))
  {
    if |files| > 0 {
      var o := FileOutcome(t, root, files[0]);
      assert FileIssues(t, root, files) == o + FileIssues(t, root, files[1..]);
      FileIssuesSound(t, root, files[1..], f);
      IssueNamesInjective(root);
    }
  }

  /** A missing or empty file of the table has its issue reported. */
  lemma {:induction false} FileIssuesComplete(t: Tree, root: Path, files: seq<string>, j: nat)
    requires j < |files|
    ensures !Exists(t, At(root, files[j])) ==> MissingFileIssue(root, files[j]) in FileIssues(t, root, files)
    ensures IsEmptyFile(t, At(root, files[j])) ==> EmptyFileIssue(root, files[j]) in FileIssues(t, root, files)
  {
    var o := FileOutcome(t, root, files[0]);
    assert FileIssues(t, root, files) == o + FileIssues(t, root, files[1..]);
    if j > 0 {
      FileIssuesComplete(t, root, files[1..], j - 1);
      assert files[j] == files[1..][j - 1];
    }
  }

  /** `keywords[i]` is in `content` and no earlier keyword is. */
  predicate FirstHitAt(content: string, keywords: seq<string>, i: int) {
    0 <= i < |keywords| && Contains(content, keywords[i])
    && forall j :: 0 <= j < i ==> !Contains(content, keywords[j])
  }

  /** The first keyword, in list order, that `content` contains. */
  function KeywordHit(content: string, keywords: seq<string>): (r: Option<string>)
    ensures r.None? <==> forall i :: 0 <= i < |keywords| ==> !Contains(content, keywords[i])
    ensures r.Some? ==> Contains(content, r.value)
    ensures r.Some? ==> exists i :: FirstHitAt(content, keywords, i) && keywords[i] == r.value
  {
    if |keywords| == 0 then None
    else if Contains(content, keywords[0]) then Some(keywords[0])
    else
      var r := KeywordHit(content, keywords[1..]);
      assert forall i :: 1 <= i < |keywords| ==> keywords[i] == keywords[1..][i - 1];
      if r.Some? then
        var i :| FirstHitAt(content, keywords[1..], i) && keywords[1..][i] == r.value;
        assert FirstHitAt(content, keywords, i + 1);
        r
      else r
  }

  /** `rglob("*.py")` minus names starting with '.': the Python sources the scan reads. */
  predicate IsScannedSource(e: Entry) {
    var name := Name(e.path);
    EndsWith(name, ".py") && !StartsWith(name, ".")
  }

  function ContentOf(n: Node): string {
    match n
    case File(c) => c
    case Dir => ""
  }

  function ResidueIssue(root: Path, e: Entry, keyword: string): Issue {
    Issue("structure", Warning, "Template keyword '" + keyword + "' found in code",
          Some("May contain residual template content"),
          Some(Show(if |root| <= |e.path| then e.path[|root|..] else e.path)))
  }

  /** What one entry contributes to the template scan: nothing, or one WARNING naming the
      first keyword its text contains. */
  function FileResidue(root: Path, e: Entry): (r: seq<Issue>)
    ensures |r| <= 1
    ensures r != [] <==> IsScannedSource(e) && KeywordHit(ContentOf(e.node), TemplateKeywords).Some?
    ensures r != [] ==> r[0] == ResidueIssue(root, e, KeywordHit(ContentOf(e.node), TemplateKeywords).value)
    ensures r != [] ==> r[0].severity == Warning && IsResidueMessage(r[0].message)
  {
    if !IsScannedSource(e) then []
    else
      match KeywordHit(ContentOf(e.node), TemplateKeywords)
      case None => []
      case Some(k) =>
        var i :| FirstHitAt(ContentOf(e.node), TemplateKeywords, i) && TemplateKeywords[i] == k;
        assert IsResidueMessage(ResidueIssue(root, e, k).message);
        [ResidueIssue(root, e, k)]
  }

  /** The text of a template-keyword warning. */
  predicate IsResidueMessage(m: string) {
    exists j :: 0 <= j < |TemplateKeywords| && m == "Template keyword '" + TemplateKeywords[j] + "' found in code"
  }

  /** The template scan over a list of entries, in enumeration order. */
  function ResidueIssues(root: Path, es: seq<Entry>): (r: seq<Issue>)
    ensures |r| <= |es|
    ensures forall i :: 0 <= i < |r| ==> r[i].severity == Warning && IsResidueMessage(r[i].message)
  {
    if |es| == 0 then [] else FileResidue(root, es[0]) + ResidueIssues(root, es[1..])
  }

  /** Scanning one more file appends exactly that file's own contribution (zero or one
      WARNING) to what the earlier files produced. */
  lemma {:induction false} ResidueAppend(root: Path, es: seq<Entry>, e: Entry)
    ensures ResidueIssues(root, es + [e]) == ResidueIssues(root, es) + FileResidue(root, e)
  {
    if |es| == 0 {
      assert ResidueIssues(root, [e]) == FileResidue(root, e) + ResidueIssues(root, []);
    } else {
      assert (es + [e])[1..] == es[1..] + [e];
      ResidueAppend(root, es[1..], e);
    }
  }

  function GuardIssue(root: Path): Issue {
    Issue("structure", Warning, GuardMessage, filePath := Some(Show(At(root, EntryScript))))
  }

  /** One WARNING when the entry script exists without an `if __name__` guard. */
  function GuardIssues(t: Tree, root: Path): (r: seq<Issue>)
    ensures !Exists(t, At(root, EntryScript)) ==> r == []
    ensures r != [] <==> Exists(t, At(root, EntryScript)) && !Contains(ReadText(t, At(root, EntryScript)), "if __name__")
    ensures r == [] || r == [GuardIssue(root)]
  {
    var p := At(root, EntryScript);
    if Exists(t, p) && !Contains(ReadText(t, p), "if __name__") then [GuardIssue(root)] else []
  }

  /** Number of issues whose message contains `marker` (`marker in issue.message`). */
  function MentionCount(issues: seq<Issue>, marker: string): (n: nat)
    ensures n <= |issues|
  {
    if |issues| == 0 then 0
    else (if Contains(issues[0].message, marker) then 1 else 0) + MentionCount(issues[1..], marker)
  }

  lemma {:induction false} MentionCountConcat(a: seq<Issue>, b: seq<Issue>, marker: string)
    ensures MentionCount(a + b, marker) == MentionCount(a, marker) + MentionCount(b, marker)
  {
    if |a| == 0 {
      assert a + b == b;
    } else {
      assert (a + b)[1..] == a[1..] + b;
      MentionCountConcat(a[1..], b, marker);
    }
  }

  lemma {:induction false} MentionCountNone(issues: seq<Issue>, marker: string)
    requires forall i :: 0 <= i < |issues| ==> !Contains(issues[i].message, marker)
    ensures MentionCount(issues, marker) == 0
  {
    if |issues| > 0 {
      assert forall i :: 1 <= i < |issues| ==> issues[i] == issues[1..][i - 1];
      MentionCountNone(issues[1..], marker);
    }
  }

  lemma {:induction false} MentionCountAll(issues: seq<Issue>, marker: string)
    requires forall i :: 0 <= i < |issues| ==> Contains(issues[i].message, marker)
    ensures MentionCount(issues, marker) == |issues|
  {
    if |issues| > 0 {
      assert forall i :: 1 <= i < |issues| ==> issues[i] == issues[1..][i - 1];
      MentionCountAll(issues[1..], marker);
    }
  }

  /** A message lacking a character that both markers have carries neither marker. */
  lemma NoMarkerByChar(m: string, c: char)
    requires c in MissingFileMarker && c in MissingDirMarker && c !in m
    ensures !Contains(m, MissingFileMarker) && !Contains(m, MissingDirMarker)
  {
    AbsentChar(m, MissingFileMarker, c);
    AbsentChar(m, MissingDirMarker, c);
  }

  /** The empty-file message of a required file carries neither marker: "README.md" has no
      'q', and the other names have no 'M'. */
  lemma EmptyFileMessages(j: int)
    requires 0 <= j < |RequiredFiles|
    ensures !Contains(EmptyFileMessage(RequiredFiles[j]), MissingFileMarker)
    ensures !Contains(EmptyFileMessage(RequiredFiles[j]), MissingDirMarker)
  {
    var m := EmptyFileMessage(RequiredFiles[j]);
    if j == 6 {
      assert 'q' !in RequiredFiles[j];
      NoMarkerByChar(m, 'q');
    } else {
      assert 'M' !in RequiredFiles[j];
      NoMarkerByChar(m, 'M');
    }
  }

  /** The missing-file message of a required file carries the file marker and not the
      directory marker: it never shows 'c' followed by 't', as the directory marker does. */
  lemma MissingFileMessages(j: int)
    requires 0 <= j < |RequiredFiles|
    ensures Contains(MissingFileMessage(RequiredFiles[j]), MissingFileMarker)
    ensures !Contains(MissingFileMessage(RequiredFiles[j]), MissingDirMarker)
  {
    var m := MissingFileMessage(RequiredFiles[j]);
    PrefixContains(m, MissingFileMarker);
    assert MissingDirMarker[21] == 'c' && MissingDirMarker[22] == 't';
    assert forall k :: 0 <= k < |RequiredFiles[j]| - 1 ==> !(RequiredFiles[j][k] == 'c' && RequiredFiles[j][k + 1] == 't');
    AbsentPair(m, MissingDirMarker, 21);
  }

  /** The missing-directory message of a required directory carries the directory marker and
      not the file marker (it has no 'f'). */
  lemma MissingDirMessages(j: int)
    requires 0 <= j < |RequiredDirs|
    ensures Contains(MissingDirMessage(RequiredDirs[j]), MissingDirMarker)
    ensures !Contains(MissingDirMessage(RequiredDirs[j]), MissingFileMarker)
  {
    var m := MissingDirMessage(RequiredDirs[j]);
    PrefixContains(m, MissingDirMarker);
    assert 'f' !in RequiredDirs[j];
    AbsentChar(m, MissingFileMarker, 'f');
  }

  /** Template and guard messages carry neither marker (they have no 'q'). */
  lemma OtherMessages(m: string)
    requires IsResidueMessage(m) || m == GuardMessage
    ensures !Contains(m, MissingFileMarker) && !Contains(m, MissingDirMarker)
  {
    if IsResidueMessage(m) {
      var j :| 0 <= j < |TemplateKeywords| && m == "Template keyword '" + TemplateKeywords[j] + "' found in code";
      assert 'q' !in TemplateKeywords[j];
    }
    NoMarkerByChar(m, 'q');
  }

  /** In a table whose empty-file messages lack the file marker and whose messages lack the
      directory marker, only the missing-file issues mention the file marker. */
  lemma {:induction false} FileIssuesMentions(t: Tree, root: Path, files: seq<string>)
    requires forall j :: 0 <= j < |files| ==> !Contains(EmptyFileMessage(files[j]), MissingFileMarker)
    requires forall j :: 0 <= j < |files| ==> !Contains(EmptyFileMessage(files[j]), MissingDirMarker)
    requires forall j :: 0 <= j < |files| ==> !Contains(MissingFileMessage(files[j]), MissingDirMarker)
    ensures MentionCount(FileIssues(t, root, files), MissingFileMarker) == MissingCount(t, root, files)
    ensures MentionCount(FileIssues(t, root, files), MissingDirMarker) == 0
  {
    if |files| > 0 {
      FileIssuesMentions(t, root, files[1..]);
      PrefixContains(MissingFileMessage(files[0]), MissingFileMarker);
      var o := FileOutcome(t, root, files[0]);
      MentionCountConcat(o, FileIssues(t, root, files[1..]), MissingFileMarker);
      MentionCountConcat(o, FileIssues(t, root, files[1..]), MissingDirMarker);
    }
  }

  /** The missing-directory issues all mention the directory marker and none the file marker. */
  lemma DirIssuesMentions(t: Tree, root: Path, dirs: seq<string>)
    requires forall j :: 0 <= j < |dirs| ==> !Contains(MissingDirMessage(dirs[j]), MissingFileMarker)
    ensures MentionCount(DirIssues(t, root, dirs), MissingDirMarker) == MissingCount(t, root, dirs)
    ensures MentionCount(DirIssues(t, root, dirs), MissingFileMarker) == 0
    ensures SeverityCount(DirIssues(t, root, dirs), Critical) == MissingCount(t, root, dirs)
    ensures SeverityCount(DirIssues(t, root, dirs), Info) == 0
  {
    var d := DirIssues(t, root, dirs);
    forall i | 0 <= i < |d|
      ensures Contains(d[i].message, MissingDirMarker) && !Contains(d[i].message, MissingFileMarker)
      ensures d[i].severity == Critical
    {
      var j :| 0 <= j < |dirs| && d[i] == MissingDirIssue(root, dirs[j]);
      PrefixContains(MissingDirMessage(dirs[j]), MissingDirMarker);
    }
    MentionCountAll(d, MissingDirMarker);
    MentionCountNone(d, MissingFileMarker);
    SeverityCountAll(d, Critical);
    SeverityCountsPartition(d);
  }

  /** Template and guard warnings mention neither marker. */
  lemma WarningsMentions(root: Path, es: seq<Entry>, g: seq<Issue>)
    requires g == [] || g == [GuardIssue(root)]
    ensures MentionCount(ResidueIssues(root, es) + g, MissingFileMarker) == 0
    ensures MentionCount(ResidueIssues(root, es) + g, MissingDirMarker) == 0
    ensures SeverityCount(ResidueIssues(root, es) + g, Critical) == 0
    ensures SeverityCount(ResidueIssues(root, es) + g, Info) == 0
  {
    var w := ResidueIssues(root, es) + g;
    forall i | 0 <= i < |w|
      ensures !Contains(w[i].message, MissingFileMarker) && !Contains(w[i].message, MissingDirMarker)
      ensures w[i].severity == Warning
    {
      OtherMessages(w[i].message);
    }
    MentionCountNone(w, MissingFileMarker);
    MentionCountNone(w, MissingDirMarker);
    SeverityCountAll(w, Warning);
    SeverityCountsPartition(w);
  }

  /** What the three message lemmas give over the whole tables. */
  lemma TableMessages()
    ensures forall j :: 0 <= j < |RequiredFiles| ==> !Contains(EmptyFileMessage(RequiredFiles[j]), MissingFileMarker)
    ensures forall j :: 0 <= j < |RequiredFiles| ==> !Contains(EmptyFileMessage(RequiredFiles[j]), MissingDirMarker)
    ensures forall j :: 0 <= j < |RequiredFiles| ==> !Contains(MissingFileMessage(RequiredFiles[j]), MissingDirMarker)
    ensures forall j :: 0 <= j < |RequiredDirs| ==> !Contains(MissingDirMessage(RequiredDirs[j]), MissingFileMarker)
  {
    forall j | 0 <= j < |RequiredFiles|
      ensures !Contains(EmptyFileMessage(RequiredFiles[j]), MissingFileMarker)
      ensures !Contains(EmptyFileMessage(RequiredFiles[j]), MissingDirMarker)
      ensures !Contains(MissingFileMessage(RequiredFiles[j]), MissingDirMarker)
    {
      EmptyFileMessages(j);
      MissingFileMessages(j);
    }
    forall j | 0 <= j < |RequiredDirs|
      ensures !Contains(MissingDirMessage(RequiredDirs[j]), MissingFileMarker)
    {
      MissingDirMessages(j);
    }
  }

  /** The step's issues: directory issues, file issues, template warnings, guard warning. */
  function StepIssues(t: Tree, root: Path): seq<Issue> {
    DirIssues(t, root, RequiredDirs) + FileIssues(t, root, RequiredFiles)
      + (ResidueIssues(root, Below(t, root)) + GuardIssues(t, root))
  }

  /** Each marker is mentioned exactly by the issues for a missing required path of its
      kind. */
  lemma StepIssuesMentions(t: Tree, root: Path)
    ensures MentionCount(StepIssues(t, root), MissingFileMarker) == MissingCount(t, root, RequiredFiles)
    ensures MentionCount(StepIssues(t, root), MissingDirMarker) == MissingCount(t, root, RequiredDirs)
  {
    var d := DirIssues(t, root, RequiredDirs);
    var f := FileIssues(t, root, RequiredFiles);
    var w := ResidueIssues(root, Below(t, root)) + GuardIssues(t, root);
    TableMessages();
    FileIssuesMentions(t, root, RequiredFiles);
    DirIssuesMentions(t, root, RequiredDirs);
    WarningsMentions(root, Below(t, root), GuardIssues(t, root));
    MentionCountConcat(d, f, MissingFileMarker);
    MentionCountConcat(d + f, w, MissingFileMarker);
    MentionCountConcat(d, f, MissingDirMarker);
    MentionCountConcat(d + f, w, MissingDirMarker);
  }

  /** The CRITICAL issues are exactly those for missing required paths, and there is no INFO
      issue. */
  lemma StepIssuesCounts(t: Tree, root: Path)
    ensures SeverityCount(StepIssues(t, root), Critical) == MissingCount(t, root, RequiredDirs) + MissingCount(t, root, RequiredFiles)
    ensures SeverityCount(StepIssues(t, root), Info) == 0
  {
    var d := DirIssues(t, root, RequiredDirs);
    var f := FileIssues(t, root, RequiredFiles);
    var w := ResidueIssues(root, Below(t, root)) + GuardIssues(t, root);
    TableMessages();
    FileIssuesCounts(t, root, RequiredFiles);
    DirIssuesMentions(t, root, RequiredDirs);
    WarningsMentions(root, Below(t, root), GuardIssues(t, root));
    SeverityCountConcat(d, f, Critical);
    SeverityCountConcat(d + f, w, Critical);
    SeverityCountConcat(d, f, Info);
    SeverityCountConcat(d + f, w, Info);
  }

  /** The whole structure step. It passes exactly when every required directory and file
      exists: empty files, template keywords and a missing guard only warn. The counts it
      reports are the numbers of required files and directories present. */
  function Validate(t: Tree, root: Path): (r: StepResult)
    ensures r.stepName == "File Structure Check"
    ensures r.passed <==> NoCritical(r.issues)
    ensures r.passed <==> (forall i :: 0 <= i < |RequiredDirs| ==> Exists(t, At(root, RequiredDirs[i])))
                          && (forall i :: 0 <= i < |RequiredFiles| ==> Exists(t, At(root, RequiredFiles[i])))
    ensures SeverityCount(r.issues, Critical) == MissingCount(t, root, RequiredDirs) + MissingCount(t, root, RequiredFiles)
    ensures SeverityCount(r.issues, Info) == 0
    ensures r.details.StructureDetails?
    ensures r.details.requiredFilesFound == |RequiredFiles| - MissingCount(t, root, RequiredFiles)
    ensures 0 <= r.details.requiredFilesFound <= 7 && 0 <= r.details.requiredDirsFound <= 3
    ensures r.details.requiredDirsFound == |RequiredDirs| - MissingCount(t, root, RequiredDirs)
  {
    var issues := StepIssues(t, root);
    StepIssuesMentions(t, root);
    StepIssuesCounts(t, root);
    SeverityCountZero(issues, Critical);
    StepResult("File Structure Check", SeverityCount(issues, Critical) == 0, issues,
      StructureDetails(|RequiredFiles| - MentionCount(issues, MissingFileMarker),
                       |RequiredDirs| - MentionCount(issues, MissingDirMarker)))
  }
}
