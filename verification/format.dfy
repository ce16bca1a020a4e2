/**
 The code-format step: the domain named in the configuration and its spelling, the format
 of task identifiers in the base generator, the output names of the writer, and version
 pins in the requirements file.
 */
module Format {
  import opened Wrappers
  import opened Strings
  import opened FileTree
  import opened Models
  import opened ConfigAst
  import opened DomainPatterns

  const ConfigFile := "src/config.py"
  const BaseGenerator := "core/base_generator.py"
  const OutputWriter := "core/output_writer.py"
  const RequirementsFile := "requirements.txt"

  /** The same four files as lists of path components. */
  const ConfigPath: Path := ["src", "config.py"]
  const BaseGeneratorPath: Path := ["core", "base_generator.py"]
  const OutputWriterPath: Path := ["core", "output_writer.py"]
  const RequirementsPath: Path := ["requirements.txt"]

  /** Either spelling of a task identifier counts as correct. */
  const TaskIdForms: seq<string> := ["{domain}_{i:04d}", "{self.config.domain}_{i:04d}"]
  /** Loop headers the index check objects to. */
  const RangeForms: seq<string> := ["range(num_samples)", "range(1, num_samples"]
  const VideoName := "ground_truth.mp4"
  /** The other outputs the writer is expected to name, in the order they are checked. */
  const AuxOutputs: seq<string> := ["first_frame.png", "final_frame.png", "prompt.txt"]

  // ---------------------------------------------------------------- issues

  const ExtractFailIssue :=
    Issue("format", Critical, "Could not extract 'domain' from config.py", filePath := Some(ConfigFile))

  function InvalidDomainIssue(d: string): Issue {
    Issue("format", Critical, "Invalid domain format: '" + d + "'",
          Some("Domain must be lowercase with underscores (e.g., 'my_task', not 'MyTask')"), Some(ConfigFile))
  }

  function UnderscoreIssue(d: string): Issue {
    Issue("format", Warning, "Domain should not start/end with underscore: '" + d + "'", filePath := Some(ConfigFile))
  }

  const NoBaseGeneratorIssue :=
    Issue("format", Warning, "Cannot verify task_id format - core/base_generator.py not found",
          Some("Expected format: {domain}_{i:04d} starting from 0000"))

  const TaskIdFormatIssue :=
    Issue("format", Critical, "Incorrect task_id format in base_generator.py",
          Some("Should use format: {domain}_{i:04d} (e.g., maze_0000, maze_0001)"), Some(BaseGenerator))

  const StartIndexIssue :=
    Issue("format", Critical, "task_id should start from 0000, not 1",
          Some("Use range(num_samples), not range(1, num_samples+1)"), Some(BaseGenerator))

  const VideoNameIssue :=
    Issue("format", Critical, "Video file must be named 'ground_truth.mp4'", filePath := Some(OutputWriter))

  function AuxOutputIssue(name: string): Issue {
    Issue("format", Warning, "Expected output file '" + name + "' not found in writer", filePath := Some(OutputWriter))
  }

  function UnpinnedIssue(shown: seq<string>): Issue {
    Issue("format", Warning, "Unpinned dependencies found: " + JoinWith(shown, ", "),
          Some("Consider pinning versions (e.g., package==1.2.3)"), Some(RequirementsFile))
  }

  /** The component lists spell the file names the issues report. */
  lemma PathsSpellFileNames()
    ensures Show(ConfigPath) == ConfigFile && Show(BaseGeneratorPath) == BaseGenerator
    ensures Show(OutputWriterPath) == OutputWriter && Show(RequirementsPath) == RequirementsFile
  {
    assert Show(ConfigPath) == "src" + "/" + "config.py";
    assert Show(BaseGeneratorPath) == "core" + "/" + "base_generator.py";
    assert Show(OutputWriterPath) == "core" + "/" + "output_writer.py";
  }

  // ---------------------------------------------------------------- domain extraction

  /** The domain read from the configuration, and the issue raised when there is none. */
  datatype DomainLookup = DomainLookup(domain: Option<string>, issues: seq<Issue>)

  /** Reads the domain from `src/config.py`. `parse` stands for the language's parser and
      answers `None` for text it rejects; that error is not caught, so the whole step is
      `None`. The syntax tree is consulted first, then the textual fallbacks in order. */
  function ExtractDomain(t: Tree, root: Path, parse: string -> Option<ConfigAst.Node>): (r: Option<DomainLookup>)
    ensures !Exists(t, root + ConfigPath) ==> r == Some(DomainLookup(None, []))
    ensures r.None? <==> Exists(t, root + ConfigPath) && parse(ReadText(t, root + ConfigPath)).None?
    ensures r.Some? ==> r.value.issues == [] || (r.value.issues == [ExtractFailIssue] && r.value.domain.None?)
    ensures r.Some? && r.value.issues != [] <==>
      Exists(t, root + ConfigPath) && parse(ReadText(t, root + ConfigPath)).Some?
      && (forall n :: n in Preorder(parse(ReadText(t, root + ConfigPath)).value) ==> !DeclaresDomain(n))
      && (forall i :: 0 <= i < |Fallbacks| ==> Search(Fallbacks[i], ReadText(t, root + ConfigPath)).None?)
  {
    var p := root + ConfigPath;
    if !Exists(t, p) then Some(DomainLookup(None, []))
    else
      var content := ReadText(t, p);
      match parse(content)
      case None => None
      case Some(tree) =>
        match StructuredDomain(tree)
        case Found(v) => Some(DomainLookup(v, []))
        case NotFound =>
          match FirstMatch(Fallbacks, content)
          case Some(v) => Some(DomainLookup(Some(v), []))
          case None => Some(DomainLookup(None, [ExtractFailIssue]))
  }

  /** When no class of the tree declares the domain, the textual patterns decide: the value
      quoted in `Field(default=...)` if that pattern is found anywhere, otherwise the value of
      a direct assignment; only when neither is found is the CRITICAL raised. */
  lemma FallbacksDecide(t: Tree, root: Path, parse: string -> Option<ConfigAst.Node>)
    ensures var c := ReadText(t, root + ConfigPath);
      Exists(t, root + ConfigPath) && parse(c).Some? && StructuredDomain(parse(c).value).NotFound? ==>
        ExtractDomain(t, root, parse).Some?
        && ExtractDomain(t, root, parse).value.domain
             == (if Search(FieldDefault, c).Some? then Search(FieldDefault, c) else Search(DirectAssign, c))
        && (ExtractDomain(t, root, parse).value.issues == [ExtractFailIssue]
            <==> Search(FieldDefault, c).None? && Search(DirectAssign, c).None?)
  {
    var c := ReadText(t, root + ConfigPath);
    var m := FirstMatch(Fallbacks, c);
    assert Fallbacks[0] == FieldDefault && Fallbacks[1] == DirectAssign;
    if m.Some? {
      var i :| 0 <= i < |Fallbacks| && Search(Fallbacks[i], c) == m
                && forall j :: 0 <= j < i ==> Search(Fallbacks[j], c).None?;
    }
  }

  /** When a class of the tree declares the domain, the fallbacks are never consulted: the
      declared value is the answer, even when it is `None`. */
  lemma StructuredTakesPrecedence(t: Tree, root: Path, parse: string -> Option<ConfigAst.Node>)
    requires Exists(t, root + ConfigPath)
    requires parse(ReadText(t, root + ConfigPath)).Some?
    requires StructuredDomain(parse(ReadText(t, root + ConfigPath)).value).Found?
    ensures ExtractDomain(t, root, parse)
      == Some(DomainLookup(StructuredDomain(parse(ReadText(t, root + ConfigPath)).value).value, []))
  {
  }

  /** The tree of a configuration holding one class whose body is `domain: str = None`. */
  const NoneDomainTree :=
    OtherNode([ClassDef([AnnAssign(Name("domain"), Some(Constant(NoneConst)))])])

  lemma NoneDomainTreeLookup()
    ensures StructuredDomain(NoneDomainTree) == Found(None)
  {
    var item := AnnAssign(Name("domain"), Some(Constant(NoneConst)));
    var cls := ClassDef([item]);
    assert BodyDomain([item]) == Found(None);
    assert Walk(NoneDomainTree) == [NoneDomainTree, cls, item] by {
      assert [NoneDomainTree][1..] + [cls] == [cls];
      assert [cls][1..] + [item] == [item];
      assert [item][1..] + [] == [];
    }
    assert [NoneDomainTree, cls, item][1..] == [cls, item];
  }

  /** A class declaring `domain: str = None` yields no domain and no issue. */
  lemma NoneDomainIsSilent(t: Tree, root: Path, parse: string -> Option<ConfigAst.Node>)
    requires Exists(t, root + ConfigPath)
    requires parse(ReadText(t, root + ConfigPath)) == Some(NoneDomainTree)
    ensures ExtractDomain(t, root, parse) == Some(DomainLookup(None, []))
  {
    NoneDomainTreeLookup();
  }

  /** The tree of a configuration whose only statement is `domain: str = 'maze'`. */
  const ModuleLevelTree := OtherNode([AnnAssign(Name("domain"), Some(Constant(Str("maze"))))])

  lemma ModuleLevelTreeLookup()
    ensures StructuredDomain(ModuleLevelTree) == NotFound
  {
    var item := AnnAssign(Name("domain"), Some(Constant(Str("maze"))));
    assert Preorder(ModuleLevelTree) == [ModuleLevelTree, item] by {
      assert PreorderSeq([item]) == Preorder(item) + PreorderSeq([]);
    }
  }

  /** An annotated `domain` assignment at module level, outside any class, is found neither
      in the syntax tree nor by the fallbacks, and draws the CRITICAL issue. */
  lemma ModuleLevelAnnotationMissed(t: Tree, root: Path, parse: string -> Option<ConfigAst.Node>)
    requires Exists(t, root + ConfigPath)
    requires ReadText(t, root + ConfigPath) == AnnotatedForm
    requires parse(AnnotatedForm) == Some(ModuleLevelTree)
    ensures ExtractDomain(t, root, parse) == Some(DomainLookup(None, [ExtractFailIssue]))
  {
    ModuleLevelTreeLookup();
    AnnotatedFormMissed();
  }

  // ---------------------------------------------------------------- domain format

  predicate IsLower(c: char) {
    'a' <= c <= 'z'
  }

  predicate IsNameChar(c: char) {
    IsLower(c) || IsDigit(c) || c == '_'
  }

  /** `[a-z][a-z0-9_]*` over the whole of `s`. */
  predicate DomainShape(s: string) {
    |s| > 0 && IsLower(s[0]) && forall k :: 1 <= k < |s| ==> IsNameChar(s[k])
  }

  /** `re.match(r'^[a-z][a-z0-9_]*$', s)`: `$` also matches just before a final newline. */
  predicate ValidDomain(s: string) {
    DomainShape(s) || (|s| > 0 && s[|s| - 1] == '\n' && DomainShape(s[..|s| - 1]))
  }

  predicate UnderscoreEdge(d: string) {
    StartsWith(d, "_") || EndsWith(d, "_")
  }

  /** One CRITICAL when the name has the wrong shape, one WARNING when it starts or ends with
      an underscore; the two checks are independent. */
  function DomainFormatIssues(d: string): (r: seq<Issue>)
    ensures SeverityCount(r, Critical) == if ValidDomain(d) then 0 else 1
    ensures SeverityCount(r, Warning) == if UnderscoreEdge(d) then 1 else 0
    ensures SeverityCount(r, Info) == 0
    ensures r == [] <==> ValidDomain(d) && !UnderscoreEdge(d)
  {
    var a := if ValidDomain(d) then [] else [InvalidDomainIssue(d)];
    var b := if UnderscoreEdge(d) then [UnderscoreIssue(d)] else [];
    SeverityCountConcat(a, b, Critical);
    SeverityCountConcat(a, b, Warning);
    SeverityCountConcat(a, b, Info);
    a + b
  }

  /** A well-shaped name begins with a letter, so of the two underscore cases only the
      trailing one can draw the warning without the CRITICAL; a leading underscore always
      draws both. */
  lemma UnderscoreCases(d: string)
    ensures StartsWith(d, "_") ==> !ValidDomain(d)
    ensures ValidDomain(d) && UnderscoreEdge(d) ==> EndsWith(d, "_")
  {
    if StartsWith(d, "_") {
      assert d[0] == '_';
    }
  }

  /** A name followed by a single newline passes the shape check. */
  lemma TrailingNewlineAccepted(d: string)
    requires DomainShape(d)
    ensures ValidDomain(d + "\n")
  {
    assert (d + "\n")[..|d|] == d;
  }

  lemma LowercaseNameAccepted()
    ensures DomainFormatIssues("maze") == []
  {
    assert ValidDomain("maze");
    assert !EndsWith("maze", "_") by {
      assert "maze"[3..] != "_";
    }
  }

  lemma CapitalisedNameRejected()
    ensures DomainFormatIssues("Maze") == [InvalidDomainIssue("Maze")]
  {
    assert !ValidDomain("Maze") by {
      assert "Maze"[0] == 'M';
      assert "Maze"[..3][0] == 'M';
    }
    assert !StartsWith("Maze", "_") by {
      assert "Maze"[..1] != "_";
    }
    assert !EndsWith("Maze", "_") by {
      assert "Maze"[3..] != "_";
    }
  }

  lemma LeadingUnderscoreRejected()
    ensures DomainFormatIssues("_maze") == [InvalidDomainIssue("_maze"), UnderscoreIssue("_maze")]
  {
    assert StartsWith("_maze", "_");
    UnderscoreCases("_maze");
  }

  lemma TrailingUnderscoreWarned()
    ensures DomainFormatIssues("maze_") == [UnderscoreIssue("maze_")]
  {
    assert ValidDomain("maze_");
    assert EndsWith("maze_", "_");
  }

  // ---------------------------------------------------------------- task identifiers

  /** Either accepted spelling of the identifier appears in the text. */
  predicate HasTaskIdForm(c: string) {
    Contains(c, TaskIdForms[0]) || Contains(c, TaskIdForms[1])
  }

  /** Either objectionable loop header appears in the text. */
  predicate HasRangeForm(c: string) {
    Contains(c, RangeForms[0]) || Contains(c, RangeForms[1])
  }

  /** Without `core/base_generator.py` one WARNING; otherwise one CRITICAL when neither
      identifier spelling appears and one CRITICAL when either loop header appears. */
  function TaskIdIssues(t: Tree, root: Path): (r: seq<Issue>)
    ensures !Exists(t, root + BaseGeneratorPath) ==> r == [NoBaseGeneratorIssue]
    ensures Exists(t, root + BaseGeneratorPath) ==>
      (TaskIdFormatIssue in r <==> !HasTaskIdForm(ReadText(t, root + BaseGeneratorPath)))
      && (StartIndexIssue in r <==> HasRangeForm(ReadText(t, root + BaseGeneratorPath)))
      && forall i :: 0 <= i < |r| ==> r[i] == TaskIdFormatIssue || r[i] == StartIndexIssue
    ensures Exists(t, root + BaseGeneratorPath) ==>
      |r| == SeverityCount(r, Critical)
          == (if HasTaskIdForm(ReadText(t, root + BaseGeneratorPath)) then 0 else 1)
             + (if HasRangeForm(ReadText(t, root + BaseGeneratorPath)) then 1 else 0)
  {
    var p := root + BaseGeneratorPath;
    if !Exists(t, p) then [NoBaseGeneratorIssue]
    else
      var c := ReadText(t, p);
      var a := if !HasTaskIdForm(c) then [TaskIdFormatIssue] else [];
      var b := if HasRangeForm(c) then [StartIndexIssue] else [];
      SeverityCountConcat(a, b, Critical);
      a + b
  }

  /** With the base generator present nothing but CRITICAL issues come out of the check, and
      it finds nothing exactly when an identifier spelling appears and no loop header does. */
  lemma TaskIdCritical(t: Tree, root: Path)
    ensures NoCritical(TaskIdIssues(t, root)) <==>
      !Exists(t, root + BaseGeneratorPath)
      || (HasTaskIdForm(ReadText(t, root + BaseGeneratorPath)) && !HasRangeForm(ReadText(t, root + BaseGeneratorPath)))
  {
    var r := TaskIdIssues(t, root);
    if Exists(t, root + BaseGeneratorPath) && !NoCritical(r) {
      var i :| 0 <= i < |r| && r[i].severity == Critical;
      assert r[i] in r;
    }
  }

  /** The zero-based loop `range(num_samples)` - the very form the issue's own advice
      recommends - is reported as starting from 1. */
  lemma ZeroBasedLoopFlagged(t: Tree, root: Path)
    requires Exists(t, root + BaseGeneratorPath)
    requires Contains(ReadText(t, root + BaseGeneratorPath), "range(num_samples)")
    ensures StartIndexIssue in TaskIdIssues(t, root)
  {
    assert HasRangeForm(ReadText(t, root + BaseGeneratorPath));
  }

  // ---------------------------------------------------------------- output naming

  /** The names the text does not mention, in order. */
  function AbsentNames(c: string, names: seq<string>): (r: seq<string>)
    ensures |r| <= |names|
    ensures forall x :: x in r <==> x in names && !Contains(c, x)
  {
    if |names| == 0 then []
    else if Contains(c, names[0]) then AbsentNames(c, names[1..])
    else [names[0]] + AbsentNames(c, names[1..])
  }

  /** One WARNING per expected name the text does not mention, in order. */
  function AuxIssues(c: string, names: seq<string>): (r: seq<Issue>)
    ensures |r| == |AbsentNames(c, names)|
    ensures forall i :: 0 <= i < |r| ==> r[i] == AuxOutputIssue(AbsentNames(c, names)[i])
  {
    var absent := AbsentNames(c, names);
    seq(|absent|, i requires 0 <= i < |absent| => AuxOutputIssue(absent[i]))
  }

  /** The warning for a name is present exactly when the name is expected and not mentioned;
      every warning is about one such name, and there is nothing else. */
  lemma AuxIssueFor(c: string, names: seq<string>, n: string)
    ensures AuxOutputIssue(n) in AuxIssues(c, names) <==> n in names && !Contains(c, n)
    ensures SeverityCount(AuxIssues(c, names), Warning) == |AbsentNames(c, names)|
    ensures NoCritical(AuxIssues(c, names))
  {
    var r := AuxIssues(c, names);
    var absent := AbsentNames(c, names);
    AuxIssueInjective(n);
    if AuxOutputIssue(n) in r {
      var i :| 0 <= i < |r| && r[i] == AuxOutputIssue(n);
      assert absent[i] in absent;
    }
    if n in names && !Contains(c, n) {
      var i :| 0 <= i < |absent| && absent[i] == n;
      assert r[i] == AuxOutputIssue(n);
    }
    SeverityCountAll(r, Warning);
  }

  /** Different names give different messages. */
  lemma AuxIssueInjective(a: string)
    ensures forall b :: AuxOutputIssue(b) == AuxOutputIssue(a) ==> b == a
  {
    forall b | AuxOutputIssue(b) == AuxOutputIssue(a) ensures b == a {
      var pre := "Expected output file '";
      var post := "' not found in writer";
      var ma := pre + a + post;
      var mb := pre + b + post;
      assert |ma| == |mb|;
      assert a == ma[|pre|..|ma| - |post|];
      assert b == mb[|pre|..|mb| - |post|];
    }
  }

  /** Nothing without `core/output_writer.py`; otherwise one CRITICAL when the video name is
      absent from its text and one WARNING per other expected name that is absent. */
  function OutputNamingIssues(t: Tree, root: Path): (r: seq<Issue>)
    ensures !Exists(t, root + OutputWriterPath) ==> r == []
    ensures Exists(t, root + OutputWriterPath) ==>
      (VideoNameIssue in r <==> !Contains(ReadText(t, root + OutputWriterPath), VideoName))
      && (forall n :: AuxOutputIssue(n) in r <==> n in AuxOutputs && !Contains(ReadText(t, root + OutputWriterPath), n))
      && |r| == (if Contains(ReadText(t, root + OutputWriterPath), VideoName) then 0 else 1)
                + |AbsentNames(ReadText(t, root + OutputWriterPath), AuxOutputs)|
  {
    var p := root + OutputWriterPath;
    if !Exists(t, p) then []
    else
      var c := ReadText(t, p);
      var a := if Contains(c, VideoName) then [] else [VideoNameIssue];
      var b := AuxIssues(c, AuxOutputs);
      assert forall n :: AuxOutputIssue(n) in a + b <==> n in AuxOutputs && !Contains(c, n) by {
        forall n ensures AuxOutputIssue(n) in a + b <==> n in AuxOutputs && !Contains(c, n) {
          AuxIssueFor(c, AuxOutputs, n);
          assert AuxOutputIssue(n) != VideoNameIssue;
        }
      }
      assert VideoNameIssue !in b by {
        AuxIssueFor(c, AuxOutputs, VideoName);
      }
      a + b
  }

  /** The only CRITICAL naming issue is the missing video name; the warnings are one per
      absent expected name. */
  lemma OutputNamingCounts(t: Tree, root: Path)
    ensures NoCritical(OutputNamingIssues(t, root)) <==>
      !Exists(t, root + OutputWriterPath) || Contains(ReadText(t, root + OutputWriterPath), VideoName)
    ensures Exists(t, root + OutputWriterPath) ==>
      SeverityCount(OutputNamingIssues(t, root), Warning) == |AbsentNames(ReadText(t, root + OutputWriterPath), AuxOutputs)|
  {
    var p := root + OutputWriterPath;
    if Exists(t, p) {
      var c := ReadText(t, p);
      var a := if Contains(c, VideoName) then [] else [VideoNameIssue];
      var b := AuxIssues(c, AuxOutputs);
      AuxIssueFor(c, AuxOutputs, VideoName);
      SeverityCountConcat(a, b, Warning);
      NoCriticalConcat(a, b);
      if !Contains(c, VideoName) {
        assert !NoCritical(a) by {
          assert a[0].severity == Critical;
        }
      }
    }
  }

  // ---------------------------------------------------------------- requirements

  /** A requirement line: not blank after stripping, and not starting with '#' as written
      (an indented comment is therefore kept). */
  predicate IsEntryLine(line: string) {
    Strip(line) != "" && !StartsWith(line, "#")
  }

  /** The stripped requirement lines, in order. */
  function Entries(lines: seq<string>): (r: seq<string>)
    ensures |r| <= |lines|
  {
    if |lines| == 0 then []
    else if IsEntryLine(lines[0]) then [Strip(lines[0])] + Entries(lines[1..])
    else Entries(lines[1..])
  }

  /** Every requirement line contributes its stripped text. */
  lemma {:induction false} EntriesComplete(lines: seq<string>, i: nat)
    requires i < |lines| && IsEntryLine(lines[i])
    ensures Strip(lines[i]) in Entries(lines)
  {
    if i > 0 {
      EntriesComplete(lines[1..], i - 1);
      assert lines[1..][i - 1] == lines[i];
    }
  }

  /** Every entry is the stripped text of a requirement line, so it is never empty. */
  lemma {:induction false} EntriesSound(lines: seq<string>, x: string)
    requires x in Entries(lines)
    ensures exists i :: 0 <= i < |lines| && IsEntryLine(lines[i]) && x == Strip(lines[i])
    ensures x != ""
  {
    if IsEntryLine(lines[0]) && x == Strip(lines[0]) {
    } else {
      EntriesSound(lines[1..], x);
      var i :| 0 <= i < |lines[1..]| && IsEntryLine(lines[1..][i]) && x == Strip(lines[1..][i]);
      assert lines[i + 1] == lines[1..][i];
    }
  }

  /** The entries without a `==` pin (and not empty), in order. */
  function Unpinned(entries: seq<string>): (r: seq<string>)
    ensures forall x :: x in r <==> x in entries && x != "" && !Contains(x, "==")
  {
    if |entries| == 0 then []
    else if !Contains(entries[0], "==") && entries[0] != "" then [entries[0]] + Unpinned(entries[1..])
    else Unpinned(entries[1..])
  }

  /** The lines of `requirements.txt`. */
  function RequirementLines(t: Tree, root: Path): seq<string> {
    Split(ReadText(t, root + RequirementsPath), '\n')
  }

  /** A requirements line that counts as unpinned. */
  predicate UnpinnedLine(line: string) {
    IsEntryLine(line) && !Contains(Strip(line), "==")
  }

  /** `xs[:3]` */
  function Take3(xs: seq<string>): (r: seq<string>)
    ensures |r| == if |xs| < 3 then |xs| else 3
    ensures r == xs[..|r|]
  {
    if |xs| < 3 then xs else xs[..3]
  }

  /** Nothing without `requirements.txt`; otherwise one WARNING naming the first three
      unpinned entries when there is at least one. Never CRITICAL. */
  function RequirementsIssues(t: Tree, root: Path): (r: seq<Issue>)
    ensures |r| <= 1
    ensures NoCritical(r)
    ensures r != [] ==> r == [UnpinnedIssue(Take3(Unpinned(Entries(RequirementLines(t, root)))))]
    ensures r != [] <==> Exists(t, root + RequirementsPath) && HasUnpinnedLine(RequirementLines(t, root))
  {
    var p := root + RequirementsPath;
    if !Exists(t, p) then []
    else
      var lines := RequirementLines(t, root);
      var u := Unpinned(Entries(lines));
      UnpinnedIffLine(lines);
      if u != [] then [UnpinnedIssue(Take3(u))] else []
  }

  predicate HasUnpinnedLine(lines: seq<string>) {
    exists i :: 0 <= i < |lines| && UnpinnedLine(lines[i])
  }

  /** There is an unpinned entry exactly when some line is an unpinned requirement line. */
  lemma UnpinnedIffLine(lines: seq<string>)
    ensures Unpinned(Entries(lines)) != [] <==> HasUnpinnedLine(lines)
  {
    var u := Unpinned(Entries(lines));
    if u != [] {
      assert u[0] in u;
      EntriesSound(lines, u[0]);
      var i :| 0 <= i < |lines| && IsEntryLine(lines[i]) && u[0] == Strip(lines[i]);
      assert UnpinnedLine(lines[i]);
    }
    if HasUnpinnedLine(lines) {
      var i :| 0 <= i < |lines| && UnpinnedLine(lines[i]);
      EntriesComplete(lines, i);
      assert Strip(lines[i]) in u;
    }
  }

  /** A comment line indented by a space is read as a requirement and, lacking a pin,
      reported. */
  lemma IndentedCommentReported(t: Tree, root: Path, comment: string)
    requires Exists(t, root + RequirementsPath)
    requires ReadText(t, root + RequirementsPath) == " #" + comment
    requires '\n' !in comment && '=' !in comment
    ensures RequirementsIssues(t, root) != []
  {
    var line := " #" + comment;
    SplitNoSeparator(line, '\n');
    assert RequirementLines(t, root) == [line];
    StripEmptyIffBlank(line);
    assert !IsSpace(line[1]);
    assert !StartsWith(line, "#") by {
      assert line[0] == ' ';
    }
    var st := Strip(line);
    assert '=' !in st by {
      assert forall k :: 0 <= k < |st| ==> st[k] == line[StripStart(line) + k];
      assert forall k :: 2 <= k < |line| ==> line[k] == comment[k - 2];
    }
    AbsentChar(st, "==", '=');
    assert UnpinnedLine(line);
  }

  // ---------------------------------------------------------------- the step

  function StepIssues(lookup: DomainLookup, t: Tree, root: Path): seq<Issue> {
    lookup.issues
    + (if Truthy(lookup.domain) then DomainFormatIssues(lookup.domain.value) else [])
    + TaskIdIssues(t, root)
    + OutputNamingIssues(t, root)
    + RequirementsIssues(t, root)
  }

  /** Everything the step objects to as CRITICAL, stated without reference to the issues. */
  predicate FormatAcceptable(lookup: DomainLookup, t: Tree, root: Path) {
    lookup.issues == []
    && (Truthy(lookup.domain) ==> ValidDomain(lookup.domain.value))
    && (Exists(t, root + BaseGeneratorPath) ==>
          HasTaskIdForm(ReadText(t, root + BaseGeneratorPath)) && !HasRangeForm(ReadText(t, root + BaseGeneratorPath)))
    && (Exists(t, root + OutputWriterPath) ==> Contains(ReadText(t, root + OutputWriterPath), VideoName))
  }

  lemma DomainPartCritical(lookup: DomainLookup)
    requires lookup.issues == [] || lookup.issues == [ExtractFailIssue]
    ensures NoCritical(lookup.issues) <==> lookup.issues == []
    ensures NoCritical(if Truthy(lookup.domain) then DomainFormatIssues(lookup.domain.value) else [])
            <==> (Truthy(lookup.domain) ==> ValidDomain(lookup.domain.value))
  {
    if lookup.issues != [] {
      assert lookup.issues[0].severity == Critical;
    }
    if Truthy(lookup.domain) {
      SeverityCountZero(DomainFormatIssues(lookup.domain.value), Critical);
    }
  }

  lemma StepIssuesCritical(lookup: DomainLookup, t: Tree, root: Path)
    requires lookup.issues == [] || lookup.issues == [ExtractFailIssue]
    ensures NoCritical(StepIssues(lookup, t, root)) <==> FormatAcceptable(lookup, t, root)
  {
    var a := lookup.issues;
    var b := if Truthy(lookup.domain) then DomainFormatIssues(lookup.domain.value) else [];
    var c := TaskIdIssues(t, root);
    var d := OutputNamingIssues(t, root);
    var e := RequirementsIssues(t, root);
    NoCriticalConcat(a, b);
    NoCriticalConcat(a + b, c);
    NoCriticalConcat(a + b + c, d);
    NoCriticalConcat(a + b + c + d, e);
    DomainPartCritical(lookup);
    TaskIdCritical(t, root);
    OutputNamingCounts(t, root);
  }

  /** The step "Code Format Check". It is `None` when the parser rejects the configuration.
      It passes exactly when nothing CRITICAL was found, which is exactly when the domain was
      found (or there is no configuration), its spelling is valid when non-empty, the base
      generator (if present) uses a correct identifier format and neither loop header, and
      the writer (if present) names the video file. Requirements never fail the step. */
  function Validate(t: Tree, root: Path, parse: string -> Option<ConfigAst.Node>): (r: Option<StepResult>)
    ensures r.None? <==> ExtractDomain(t, root, parse).None?
    ensures r.Some? ==> r.value.stepName == "Code Format Check"
    ensures r.Some? ==> (r.value.passed <==> NoCritical(r.value.issues))
    ensures r.Some? ==> (r.value.passed <==> FormatAcceptable(ExtractDomain(t, root, parse).value, t, root))
    ensures r.Some? ==> r.value.details == FormatDetails(ExtractDomain(t, root, parse).value.domain)
  {
    match ExtractDomain(t, root, parse)
    case None => None
    case Some(lookup) =>
      var issues := StepIssues(lookup, t, root);
      StepIssuesCritical(lookup, t, root);
      Some(StepResult("Code Format Check", NoCritical(issues), issues, FormatDetails(lookup.domain)))
  }
}
