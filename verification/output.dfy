/**
 The output step: build an isolated environment, install what the submission needs, run its
 generator, find what it wrote, and check the samples. The subprocesses, the tree they leave
 behind and the video probe are inputs; the step reports which subprocesses it launched and
 whether it reached the clean-up of the environment.
 */
module Output {
  import opened Wrappers
  import opened Strings
  import opened FileTree
  import opened Models
  import opened Sorting

  /** How a subprocess finished. */
  datatype Completed = Completed(returnCode: int, stderr: string)

  /** What the video probe reports: the file cannot be opened, it opened with these readings,
      or the probe raised an error with this text. */
  datatype Probe = Unopenable | Opened(fps: real, frames: int) | Raised(error: string)

  /** The subprocesses the step can launch, in the order it launches them. */
  datatype Stage = CreateVenv | InstallDeps | InstallPackage | RunGenerator

  /** The outside world of one run: the outcome each subprocess would have, and the tree as
      the generator leaves it. */
  datatype Sandbox = Sandbox(venv: Completed, deps: Completed, setup: Completed, run: Completed, produced: Tree)

  datatype OutputRun = OutputRun(result: StepResult, launched: seq<Stage>, venvRemoved: bool)

  const StepName := "Output Format Check"
  const GenerateScriptPath: Path := ["examples", "generate.py"]
  const RequirementsPath: Path := ["requirements.txt"]
  const SetupPath: Path := ["setup.py"]

  /** The files every sample must hold. The source keeps them in a Python set, visited in hash
      order; the model fixes this order. */
  const RequiredOutputFiles: seq<string> := ["first_frame.png", "prompt.txt"]

  /** Samples beyond this many (in sorted order) are not inspected. */
  const InspectedSamples := 5
  const MaxPromptWords := 200
  const MaxVideoSeconds: real := 10.5

  // ---------------------------------------------------------------- running the generator

  function VenvIssue(c: Completed): Issue {
    Issue("output", Critical, "Failed to create test virtual environment", Some(Take(c.stderr, 500)))
  }

  const MissingScriptIssue := Issue("output", Critical, "Cannot run generator - examples/generate.py not found")

  function DepsIssue(c: Completed): Issue {
    Issue("output", Critical, "Failed to install dependencies in isolated environment", Some(Take(c.stderr, 500)))
  }

  function SetupIssue(c: Completed): Issue {
    Issue("output", Warning, "Failed to install generator package (setup.py)", Some(Take(c.stderr, 300)))
  }

  function RunIssue(c: Completed): Issue {
    Issue("output", Critical, "Generator execution failed",
          Some("Exit code: " + IntToString(c.returnCode) + "\n" + Take(c.stderr, 500)))
  }

  datatype RunOutcome = RunOutcome(ok: bool, issues: seq<Issue>, launched: seq<Stage>)

  /** The stages `RunGeneratorIsolated` launches once the script is found. */
  function InstallStages(t: Tree, root: Path, sb: Sandbox): seq<Stage> {
    if Exists(t, root + RequirementsPath) && sb.deps.returnCode != 0 then [InstallDeps]
    else
      (if Exists(t, root + RequirementsPath) then [InstallDeps] else [])
      + (if Exists(t, root + SetupPath) then [InstallPackage] else [])
      + [RunGenerator]
  }

  /** The script exists, the dependencies (if any) installed, and the script exited with 0. */
  predicate RunSucceeds(t: Tree, root: Path, sb: Sandbox) {
    Exists(t, root + GenerateScriptPath)
    && (Exists(t, root + RequirementsPath) ==> sb.deps.returnCode == 0)
    && sb.run.returnCode == 0
  }

  /** The WARNING of a failed package install, when a `setup.py` exists and its install
      failed. */
  function SetupWarnings(t: Tree, root: Path, sb: Sandbox): (r: seq<Issue>)
    ensures |r| <= 1 && NoCritical(r)
    ensures r != [] <==> Exists(t, root + SetupPath) && sb.setup.returnCode != 0
  {
    if Exists(t, root + SetupPath) && sb.setup.returnCode != 0 then [SetupIssue(sb.setup)] else []
  }

  /** Runs the generator: the script must exist; dependencies are installed when a
      requirements file exists and their failure aborts; the package is installed when a
      `setup.py` exists and its failure is only a WARNING; then the script runs. */
  function RunGeneratorIsolated(t: Tree, root: Path, sb: Sandbox): (r: RunOutcome)
    ensures !Exists(t, root + GenerateScriptPath) ==> r == RunOutcome(false, [MissingScriptIssue], [])
    ensures Exists(t, root + GenerateScriptPath) ==> r.launched == InstallStages(t, root, sb)
    ensures r.ok <==> RunSucceeds(t, root, sb)
  {
    if !Exists(t, root + GenerateScriptPath) then RunOutcome(false, [MissingScriptIssue], [])
    else if Exists(t, root + RequirementsPath) && sb.deps.returnCode != 0 then
      RunOutcome(false, [DepsIssue(sb.deps)], [InstallDeps])
    else
      var warn := SetupWarnings(t, root, sb);
      var launched := InstallStages(t, root, sb);
      if sb.run.returnCode != 0 then RunOutcome(false, warn + [RunIssue(sb.run)], launched)
      else RunOutcome(true, warn, launched)
  }

  /** A run that fails ends with exactly one CRITICAL issue, and nothing before it is CRITICAL
      (at most the WARNING of a failed package install); a run that succeeds has none. */
  lemma RunIssuesShape(t: Tree, root: Path, sb: Sandbox)
    ensures var r := RunGeneratorIsolated(t, root, sb);
      (r.ok ==> NoCritical(r.issues) && |r.issues| <= 1)
      && (!r.ok ==> |r.issues| > 0 && r.issues[|r.issues| - 1].severity == Critical
                    && NoCritical(r.issues[..|r.issues| - 1]))
  {
    var r := RunGeneratorIsolated(t, root, sb);
    if Exists(t, root + GenerateScriptPath) && !(Exists(t, root + RequirementsPath) && sb.deps.returnCode != 0) {
      var warn := SetupWarnings(t, root, sb);
      if !r.ok {
        assert r.issues == warn + [RunIssue(sb.run)];
        assert r.issues[..|r.issues| - 1] == warn;
      } else {
        assert r.issues == warn;
      }
    }
  }

  /** A failed package install is reported as a WARNING and the run still happens. */
  lemma SetupFailureContinues(t: Tree, root: Path, sb: Sandbox)
    requires Exists(t, root + GenerateScriptPath) && Exists(t, root + SetupPath) && sb.setup.returnCode != 0
    requires Exists(t, root + RequirementsPath) ==> sb.deps.returnCode == 0
    ensures var r := RunGeneratorIsolated(t, root, sb);
      RunGenerator in r.launched && InstallPackage in r.launched && r.issues[0] == SetupIssue(sb.setup)
      && (sb.run.returnCode == 0 ==> r.ok && r.issues == [SetupIssue(sb.setup)])
  {
    var r := RunGeneratorIsolated(t, root, sb);
    assert r.launched[|r.launched| - 1] == RunGenerator;
  }

  /** A failed dependency install aborts: the run is never launched. */
  lemma DepsFailureAborts(t: Tree, root: Path, sb: Sandbox)
    requires Exists(t, root + GenerateScriptPath) && Exists(t, root + RequirementsPath) && sb.deps.returnCode != 0
    ensures RunGeneratorIsolated(t, root, sb) == RunOutcome(false, [DepsIssue(sb.deps)], [InstallDeps])
  {
  }

  /** The install stages keep the fixed order, each at most once; the dependencies are
      installed exactly when a requirements file exists, and the run is launched exactly
      when their install did not fail. */
  lemma InstallStagesOrdered(t: Tree, root: Path, sb: Sandbox)
    ensures StagesOrdered(InstallStages(t, root, sb))
    ensures CreateVenv !in InstallStages(t, root, sb)
    ensures RunGenerator in InstallStages(t, root, sb) <==> (Exists(t, root + RequirementsPath) ==> sb.deps.returnCode == 0)
    ensures InstallDeps in InstallStages(t, root, sb) <==> Exists(t, root + RequirementsPath)
  {
    var ss := InstallStages(t, root, sb);
    assert forall i :: 0 <= i < |ss| ==> ss[i] in [InstallDeps, InstallPackage, RunGenerator];
    assert forall i :: 0 <= i < |ss| && ss[i] == InstallDeps ==> i == 0;
  }

  function StageIndex(s: Stage): nat {
    match s
    case CreateVenv => 0
    case InstallDeps => 1
    case InstallPackage => 2
    case RunGenerator => 3
  }

  /** Each stage is launched at most once, and in the fixed order. */
  predicate StagesOrdered(ss: seq<Stage>) {
    forall i, j :: 0 <= i < j < |ss| ==> StageIndex(ss[i]) < StageIndex(ss[j])
  }

  // ---------------------------------------------------------------- finding the output

  /** `str(domain)` as an f-string renders it. */
  function DomainText(domain: Option<string>): string {
    match domain
    case Some(d) => d
    case None => "None"
  }

  /** The places tried, in order; the two domain-based ones only when there is a domain. */
  function Candidates(root: Path, domain: Option<string>): (r: seq<Path>)
    ensures |r| == if Truthy(domain) then 4 else 2
    ensures r[|r| - 2] == root + ["data", "questions"] && r[|r| - 1] == root + ["data"]
  {
    (if Truthy(domain)
     then [root + ["data", "questions", domain.value + "_task"], root + ["data", domain.value + "_task"]]
     else [])
    + [root + ["data", "questions"], root + ["data"]]
  }

  /** A candidate that exists and has at least one entry in it. */
  predicate Usable(t: Tree, p: Path) {
    Exists(t, p) && |Children(t, p)| > 0
  }

  /** The first usable candidate. */
  function FirstUsable(t: Tree, ps: seq<Path>): (r: Option<nat>)
    ensures r.None? <==> forall i :: 0 <= i < |ps| ==> !Usable(t, ps[i])
    ensures r.Some? ==> r.value < |ps| && Usable(t, ps[r.value])
                        && forall j :: 0 <= j < r.value ==> !Usable(t, ps[j])
  {
    FirstUsableFrom(t, ps, 0)
  }

  /** The first usable candidate at or after index `k`. */
  function FirstUsableFrom(t: Tree, ps: seq<Path>, k: nat): (r: Option<nat>)
    requires k <= |ps|
    ensures r.None? <==> forall i :: k <= i < |ps| ==> !Usable(t, ps[i])
    ensures r.Some? ==> k <= r.value < |ps| && Usable(t, ps[r.value])
                        && forall j :: k <= j < r.value ==> !Usable(t, ps[j])
    decreases |ps| - k
  {
    if k == |ps| then None
    else if Usable(t, ps[k]) then Some(k)
    else FirstUsableFrom(t, ps, k + 1)
  }

  /** `n` is the first of `names`, in order, that contains `_task`. */
  predicate FirstTaskName(names: seq<string>, n: string) {
    exists k :: 0 <= k < |names| && names[k] == n && Contains(n, "_task")
      && forall j :: 0 <= j < k ==> !Contains(names[j], "_task")
  }

  /** Some sub-directory of `p` has `_task` in its name. */
  predicate HasTaskChild(t: Tree, p: Path) {
    exists n :: n in ChildDirNames(t, p) && Contains(n, "_task")
  }

  /** The names of the sub-directories of `p` whose name contains `_task`, in listing order. */
  function TaskDirNames(t: Tree, p: Path): (r: seq<string>)
    ensures forall i :: 0 <= i < |r| ==> Contains(r[i], "_task") && Entry(p + [r[i]], Dir) in t
    ensures forall n :: n in ChildDirNames(t, p) && Contains(n, "_task") ==> n in r
    ensures r != [] ==> FirstTaskName(ChildDirNames(t, p), r[0])
  {
    Filter(ChildDirNames(t, p))
  }

  /** The names that contain `_task`, in order: every such name is kept, nothing else is, and
      the first kept is the first such name. */
  function Filter(names: seq<string>): (r: seq<string>)
    ensures forall i :: 0 <= i < |r| ==> Contains(r[i], "_task") && r[i] in names
    ensures forall i :: 0 <= i < |names| && Contains(names[i], "_task") ==> names[i] in r
    ensures r != [] ==> FirstTaskName(names, r[0])
  {
    if |names| == 0 then []
    else
      var rest := Filter(names[1..]);
      assert forall i :: 1 <= i < |names| ==> names[i] == names[1..][i - 1];
      if Contains(names[0], "_task") then
        assert FirstTaskName(names, names[0]) by {
          assert names[0] == names[0];
        }
        [names[0]] + rest
      else
        assert rest != [] ==> FirstTaskName(names, rest[0]) by {
          if rest != [] {
            var k :| 0 <= k < |names[1..]| && names[1..][k] == rest[0] && Contains(rest[0], "_task")
                     && forall j :: 0 <= j < k ==> !Contains(names[1..][j], "_task");
            assert names[k + 1] == rest[0];
          }
        }
        rest
  }

  /** Filtering distributes over concatenation; with its value on one name this determines
      `Filter` completely, order and repetitions included. */
  lemma {:induction false} FilterConcat(a: seq<string>, b: seq<string>)
    ensures Filter(a + b) == Filter(a) + Filter(b)
  {
    if |a| == 0 {
      assert a + b == b;
    } else {
      assert (a + b)[0] == a[0] && (a + b)[1..] == a[1..] + b;
      FilterConcat(a[1..], b);
    }
  }

  /** A single name is kept exactly when it contains `_task`. */
  lemma FilterOne(n: string)
    ensures Filter([n]) == if Contains(n, "_task") then [n] else []
  {
    assert [n][1..] == [];
  }

  /** The output directory: the first usable candidate, except that a hit named `questions`
      or `data` is replaced by its first `_task` sub-directory when it has one. */
  function FindOutputDir(t: Tree, root: Path, domain: Option<string>): (r: Option<Path>)
    ensures r.None? <==> FirstUsable(t, Candidates(root, domain)).None?
    ensures r.Some? ==> OutputDirOf(t, Candidates(root, domain)[FirstUsable(t, Candidates(root, domain)).value], r.value)
    ensures r.Some? ==>
      var p := Candidates(root, domain)[FirstUsable(t, Candidates(root, domain)).value];
      if (Name(p) == "questions" || Name(p) == "data") && HasTaskChild(t, p)
      then |r.value| == |p| + 1 && r.value[..|p|] == p && FirstTaskName(ChildDirNames(t, p), r.value[|p|])
      else r.value == p
  {
    var cs := Candidates(root, domain);
    match FirstUsable(t, cs)
    case None => None
    case Some(i) =>
      var p := cs[i];
      if Name(p) == "questions" || Name(p) == "data" then
        var tasks := TaskDirNames(t, p);
        if |tasks| > 0 then
          var q := p + [tasks[0]];
          DirEntryIsDir(t, q);
          assert q[..|p|] == p && q[|p|] == tasks[0];
          assert Name(q) == tasks[0];
          assert HasTaskChild(t, p) by {
            var k :| 0 <= k < |ChildDirNames(t, p)| && ChildDirNames(t, p)[k] == tasks[0] && Contains(tasks[0], "_task")
                     && forall j :: 0 <= j < k ==> !Contains(ChildDirNames(t, p)[j], "_task");
          }
          Some(q)
        else Some(p)
      else Some(p)
  }

  /** `q` is the candidate `p` itself, or a `_task` sub-directory of it. */
  predicate OutputDirOf(t: Tree, p: Path, q: Path) {
    q == p || (IsChildOf(q, p) && Exists(t, q) && Contains(Name(q), "_task"))
  }

  /** A path listed as a directory is found as one when no earlier entry has the same path.
      Lookup takes the first entry, so the converse need not hold for duplicated paths. */
  lemma DirEntryIsDir(t: Tree, q: Path)
    requires Entry(q, Dir) in t
    ensures Exists(t, q)
  {
  }

  function NoOutputIssue(domain: Option<string>): Issue {
    Issue("output", Critical, "Could not find output directory",
          Some("Expected: data/questions/" + DomainText(domain) + "_task/ or data/" + DomainText(domain) + "_task/"))
  }

  // ---------------------------------------------------------------- the video

  /** `f"{x:.1f}"` for a non-negative duration, rounding halves up. */
  function OneDecimal(x: real): string
    requires x >= 0.0
  {
    var n := (x * 10.0 + 0.5).Floor;
    IntToString(n / 10) + "." + IntToString(n % 10)
  }

  /** `frames / fps`, or 0 when the frame rate is not positive. */
  function Duration(fps: real, frames: int): real {
    if fps > 0.0 then (frames as real) / fps else 0.0
  }

  function VideoIssues(path: Path, probe: Probe): (r: seq<Issue>)
    ensures probe.Unopenable? ==> |r| == 1 && r[0].severity == Critical
    ensures probe.Raised? ==> |r| == 1 && r[0].severity == Warning
    ensures probe.Opened? ==>
      SeverityCount(r, Warning) == (if Duration(probe.fps, probe.frames) > MaxVideoSeconds then 1 else 0)
      && SeverityCount(r, Critical) == (if probe.frames == 0 then 1 else 0)
      && SeverityCount(r, Info) == 0
  {
    match probe
    case Unopenable => [Issue("output", Critical, "Cannot open video file", filePath := Some(Show(path)))]
    case Raised(e) => [Issue("output", Warning, "Could not validate video: " + e, filePath := Some(Show(path)))]
    case Opened(fps, frames) =>
      var d := Duration(fps, frames);
      var a := if d > MaxVideoSeconds
               then [Issue("output", Warning, "Video too long: " + OneDecimal(d) + "s (max 10s)", filePath := Some(Show(path)))]
               else [];
      var b := if frames == 0 then [Issue("output", Critical, "Video has no frames", filePath := Some(Show(path)))] else [];
      SeverityCountConcat(a, b, Warning);
      SeverityCountConcat(a, b, Critical);
      SeverityCountConcat(a, b, Info);
      a + b
  }

  /** At 30 frames per second, 330 frames (11 s) is too long and 300 frames (10 s) is not. */
  lemma VideoDurationExamples(path: Path)
    ensures SeverityCount(VideoIssues(path, Opened(30.0, 330)), Warning) == 1
    ensures VideoIssues(path, Opened(30.0, 300)) == []
  {
    assert Duration(30.0, 330) == 11.0;
    assert Duration(30.0, 300) == 10.0;
  }

  // ---------------------------------------------------------------- one sample

  /** The CRITICAL for a required file missing from sample `dir`; it names the directory. */
  function SampleMissingIssue(dir: Path, f: string): Issue {
    Issue("output", Critical, "Missing required file: " + f, filePath := Some(Show(dir)))
  }

  /** The CRITICAL for an empty required file of sample `dir`; it names the file. */
  function SampleEmptyIssue(dir: Path, f: string): Issue {
    Issue("output", Critical, "Empty file: " + f, filePath := Some(Show(dir + [f])))
  }

  /** The required-file outcome for one file of a sample: missing, empty, or fine. */
  function SampleFileOutcome(t: Tree, dir: Path, f: string): (r: seq<Issue>)
    ensures |r| <= 1
    ensures r != [] ==> r[0].severity == Critical
    ensures r != [] <==> !Exists(t, dir + [f]) || IsEmptyFile(t, dir + [f])
    ensures !Exists(t, dir + [f]) <==> r == [SampleMissingIssue(dir, f)]
    ensures IsEmptyFile(t, dir + [f]) <==> r == [SampleEmptyIssue(dir, f)]
  {
    if !Exists(t, dir + [f]) then [SampleMissingIssue(dir, f)]
    else if IsEmptyFile(t, dir + [f]) then [SampleEmptyIssue(dir, f)]
    else []
  }

  /** The required-file outcomes of one sample, in list order. */
  function SampleFileIssues(t: Tree, dir: Path, files: seq<string>): (r: seq<Issue>)
    ensures NoCritical(r) <==> forall i :: 0 <= i < |files| ==> Exists(t, dir + [files[i]]) && !IsEmptyFile(t, dir + [files[i]])
    ensures forall i :: 0 <= i < |r| ==> r[i].severity == Critical
  {
    if |files| == 0 then []
    else
      var h := SampleFileOutcome(t, dir, files[0]);
      var rest := SampleFileIssues(t, dir, files[1..]);
      NoCriticalConcat(h, rest);
      assert forall i :: 1 <= i < |files| ==> files[i] == files[1..][i - 1];
      h + rest
  }

  /** Equal sample-file issues name equal files, and a missing-file issue is never an
      empty-file issue. */
  lemma SampleIssueNamesInjective(dir: Path)
    ensures forall a, b :: SampleMissingIssue(dir, a) == SampleMissingIssue(dir, b) ==> a == b
    ensures forall a, b :: SampleEmptyIssue(dir, a) == SampleEmptyIssue(dir, b) ==> a == b
    ensures forall a, b :: SampleMissingIssue(dir, a) != SampleEmptyIssue(dir, b)
  {
    forall a, b ensures SampleMissingIssue(dir, a) != SampleEmptyIssue(dir, b) {
      assert SampleMissingIssue(dir, a).message[0] == 'M';
      assert SampleEmptyIssue(dir, b).message[0] == 'E';
    }
    forall a, b | SampleMissingIssue(dir, a) == SampleMissingIssue(dir, b) ensures a == b {
      assert a == ("Missing required file: " + a)[|"Missing required file: "|..];
      assert b == ("Missing required file: " + b)[|"Missing required file: "|..];
    }
    forall a, b | SampleEmptyIssue(dir, a) == SampleEmptyIssue(dir, b) ensures a == b {
      assert a == ("Empty file: " + a)[|"Empty file: "|..];
      assert b == ("Empty file: " + b)[|"Empty file: "|..];
    }
  }

  /** The required file at position `j` has its own missing-file CRITICAL exactly when it is
      absent, and its own empty-file CRITICAL exactly when it is an empty regular file. */
  lemma SampleFileIssuesPerFile(t: Tree, dir: Path, files: seq<string>, j: nat)
    requires j < |files|
    ensures SampleMissingIssue(dir, files[j]) in SampleFileIssues(t, dir, files) <==> !Exists(t, dir + [files[j]])
    ensures SampleEmptyIssue(dir, files[j]) in SampleFileIssues(t, dir, files) <==> IsEmptyFile(t, dir + [files[j]])
  {
    SampleFileIssuesSound(t, dir, files, files[j]);
    SampleFileIssuesComplete(t, dir, files, j);
  }

  /** A sample file's issue is reported only for a file in that state. */
  lemma {:induction false} SampleFileIssuesSound(t: Tree, dir: Path, files: seq<string>, f: string)
    ensures SampleMissingIssue(dir, f) in SampleFileIssues(t, dir, files) ==> !Exists(t, dir + [f])
    ensures SampleEmptyIssue(dir, f) in SampleFileIssues(t, dir, files) ==> IsEmptyFile(t, dir + [f])
  {
    if |files| > 0 {
      var o := SampleFileOutcome(t, dir, files[0]);
      assert SampleFileIssues(t, dir, files) == o + SampleFileIssues(t, dir, files[1..]);
      SampleFileIssuesSound(t, dir, files[1..], f);
      SampleIssueNamesInjective(dir);
    }
  }

  /** A missing or empty required file of a sample has its issue reported. */
  lemma {:induction false} SampleFileIssuesComplete(t: Tree, dir: Path, files: seq<string>, j: nat)
    requires j < |files|
    ensures !Exists(t, dir + [files[j]]) ==> SampleMissingIssue(dir, files[j]) in SampleFileIssues(t, dir, files)
    ensures IsEmptyFile(t, dir + [files[j]]) ==> SampleEmptyIssue(dir, files[j]) in SampleFileIssues(t, dir, files)
  {
    var o := SampleFileOutcome(t, dir, files[0]);
    assert SampleFileIssues(t, dir, files) == o + SampleFileIssues(t, dir, files[1..]);
    if j > 0 {
      SampleFileIssuesComplete(t, dir, files[1..], j - 1);
      assert files[j] == files[1..][j - 1];
    }
  }

  /** The identifier checks of a sample named `id`: only with a domain; a CRITICAL when the
      name lacks the `domain_` prefix, a WARNING when removing every `domain_` leaves
      something other than digits. */
  function SampleIdIssues(dir: Path, domain: Option<string>): (r: seq<Issue>)
    ensures !Truthy(domain) ==> r == []
    ensures Truthy(domain) ==>
      SeverityCount(r, Critical) == (if StartsWith(Name(dir), domain.value + "_") then 0 else 1)
      && SeverityCount(r, Warning) == (if IsDigits(RemoveAll(Name(dir), domain.value + "_")) then 0 else 1)
      && SeverityCount(r, Info) == 0
  {
    if !Truthy(domain) then []
    else
      var d := domain.value;
      var id := Name(dir);
      var a := if StartsWith(id, d + "_") then []
               else [Issue("output", Critical, "Task ID doesn't match domain: " + id,
                           Some("Should start with '" + d + "_'"), Some(Show(dir)))];
      var b := if IsDigits(RemoveAll(id, d + "_")) then []
               else [Issue("output", Warning, "Task ID has non-standard format: " + id,
                           Some("Expected format: {domain}_0000, {domain}_0001, etc."), Some(Show(dir)))];
      SeverityCountConcat(a, b, Critical);
      SeverityCountConcat(a, b, Warning);
      SeverityCountConcat(a, b, Info);
      a + b
  }

  /** A sample named `domain_` followed by digits draws no identifier issue. */
  lemma WellNamedSample(dir: Path, d: string, digits: string)
    requires d != "" && IsDigits(digits) && |dir| > 0 && Name(dir) == d + "_" + digits
    ensures SampleIdIssues(dir, Some(d)) == []
  {
    assert StartsWith(Name(dir), d + "_");
    assert d + "_" + digits == (d + "_") + digits;
    RemovePrefixThenDigits(d + "_", digits, '_');
    SeverityCountsPartition(SampleIdIssues(dir, Some(d)));
  }

  function GoalIssues(t: Tree, dir: Path): (r: seq<Issue>)
    ensures r != [] <==> !Exists(t, dir + ["final_frame.png"]) && !Exists(t, dir + ["goal.txt"])
    ensures |r| <= 1 && NoCritical(r)
  {
    if !Exists(t, dir + ["final_frame.png"]) && !Exists(t, dir + ["goal.txt"]) then
      [Issue("output", Warning, "No goal indicator found", Some("Should have either final_frame.png or goal.txt"), Some(Show(dir)))]
    else []
  }

  function PromptIssues(t: Tree, dir: Path): (r: seq<Issue>)
    ensures r != [] <==> Exists(t, dir + ["prompt.txt"]) && |Words(ReadText(t, dir + ["prompt.txt"]))| > MaxPromptWords
    ensures |r| <= 1 && NoCritical(r)
  {
    var p := dir + ["prompt.txt"];
    if Exists(t, p) && |Words(ReadText(t, p))| > MaxPromptWords then
      [Issue("output", Warning, "Prompt too long: " + IntToString(|Words(ReadText(t, p))|) + " words (max 200)",
             filePath := Some(Show(p)))]
    else []
  }

  function SampleVideoIssues(t: Tree, dir: Path, probe: Path -> Probe): seq<Issue> {
    var v := dir + ["ground_truth.mp4"];
    if Exists(t, v) then VideoIssues(v, probe(v)) else []
  }

  /** Every check of one sample directory, in the order they are made. */
  function SampleIssues(t: Tree, dir: Path, domain: Option<string>, probe: Path -> Probe): seq<Issue> {
    SampleIdIssues(dir, domain) + SampleFileIssues(t, dir, RequiredOutputFiles) + GoalIssues(t, dir)
    + SampleVideoIssues(t, dir, probe) + PromptIssues(t, dir)
  }

  /** A sample is free of CRITICAL issues exactly when its name fits the domain (if any), its
      required files are present and non-empty, and its video (if any) opens with frames. */
  predicate SampleAcceptable(t: Tree, dir: Path, domain: Option<string>, probe: Path -> Probe) {
    (Truthy(domain) ==> StartsWith(Name(dir), domain.value + "_"))
    && (forall i :: 0 <= i < |RequiredOutputFiles| ==>
          Exists(t, dir + [RequiredOutputFiles[i]]) && !IsEmptyFile(t, dir + [RequiredOutputFiles[i]]))
    && (Exists(t, dir + ["ground_truth.mp4"]) ==> VideoAcceptable(probe(dir + ["ground_truth.mp4"])))
  }

  predicate VideoAcceptable(p: Probe) {
    p.Raised? || (p.Opened? && p.frames != 0)
  }

  lemma SampleCritical(t: Tree, dir: Path, domain: Option<string>, probe: Path -> Probe)
    ensures NoCritical(SampleIssues(t, dir, domain, probe)) <==> SampleAcceptable(t, dir, domain, probe)
  {
    var a := SampleIdIssues(dir, domain);
    var b := SampleFileIssues(t, dir, RequiredOutputFiles);
    var c := GoalIssues(t, dir);
    var d := SampleVideoIssues(t, dir, probe);
    var e := PromptIssues(t, dir);
    NoCriticalConcat(a, b);
    NoCriticalConcat(a + b, c);
    NoCriticalConcat(a + b + c, d);
    NoCriticalConcat(a + b + c + d, e);
    SampleIdCritical(dir, domain);
    SampleVideoCritical(t, dir, probe);
  }

  /** The identifier checks find something CRITICAL exactly when a domain is given and the
      name lacks its prefix. */
  lemma SampleIdCritical(dir: Path, domain: Option<string>)
    ensures NoCritical(SampleIdIssues(dir, domain)) <==> (Truthy(domain) ==> StartsWith(Name(dir), domain.value + "_"))
  {
    SeverityCountZero(SampleIdIssues(dir, domain), Critical);
  }

  /** The video check finds something CRITICAL exactly when the video exists and cannot be
      opened or has no frames. */
  lemma SampleVideoCritical(t: Tree, dir: Path, probe: Path -> Probe)
    ensures NoCritical(SampleVideoIssues(t, dir, probe))
            <==> (Exists(t, dir + ["ground_truth.mp4"]) ==> VideoAcceptable(probe(dir + ["ground_truth.mp4"])))
  {
    SeverityCountZero(SampleVideoIssues(t, dir, probe), Critical);
  }

  // ---------------------------------------------------------------- the sample set

  function InspectAll(t: Tree, outDir: Path, names: seq<string>, domain: Option<string>, probe: Path -> Probe): seq<Issue> {
    if |names| == 0 then [] else SampleIssues(t, outDir + [names[0]], domain, probe) + InspectAll(t, outDir, names[1..], domain, probe)
  }

  lemma {:induction false} InspectAllCritical(t: Tree, outDir: Path, names: seq<string>, domain: Option<string>, probe: Path -> Probe)
    ensures NoCritical(InspectAll(t, outDir, names, domain, probe))
            <==> forall i :: 0 <= i < |names| ==> SampleAcceptable(t, outDir + [names[i]], domain, probe)
  {
    if |names| > 0 {
      InspectAllCritical(t, outDir, names[1..], domain, probe);
      SampleCritical(t, outDir + [names[0]], domain, probe);
      NoCriticalConcat(SampleIssues(t, outDir + [names[0]], domain, probe), InspectAll(t, outDir, names[1..], domain, probe));
      assert forall i :: 1 <= i < |names| ==> names[i] == names[1..][i - 1];
    }
  }

  function CountIssue(outDir: Path, expected: int, n: nat): Issue {
    Issue("output", Warning, "Expected " + IntToString(expected) + " samples, got " + IntToString(n),
          filePath := Some(Show(outDir)))
  }

  datatype StructureOutcome = StructureOutcome(issues: seq<Issue>, samples: seq<string>)

  /** The sample directories, sorted by name. None: one CRITICAL and nothing inspected.
      Otherwise a WARNING when their number is not the expected one, then the checks of the
      first five. */
  function ValidateOutputStructure(t: Tree, outDir: Path, domain: Option<string>, expected: int,
                                   probe: Path -> Probe): (r: StructureOutcome)
    ensures multiset(r.samples) == multiset(ChildDirNames(t, outDir)) && Sorted(r.samples)
    ensures r.samples == [] ==> r.issues == [Issue("output", Critical, "No task directories generated", filePath := Some(Show(outDir)))]
    ensures r.samples != [] ==>
      r.issues == (if |r.samples| != expected then [CountIssue(outDir, expected, |r.samples|)] else [])
                  + InspectAll(t, outDir, Take5(r.samples), domain, probe)
  {
    var names := Sort(ChildDirNames(t, outDir));
    if |names| == 0 then
      StructureOutcome([Issue("output", Critical, "No task directories generated", filePath := Some(Show(outDir)))], [])
    else
      var w := if |names| != expected then [CountIssue(outDir, expected, |names|)] else [];
      StructureOutcome(w + InspectAll(t, outDir, Take5(names), domain, probe), names)
  }

  /** `xs[:min(5, len(xs))]` */
  function Take5(xs: seq<string>): (r: seq<string>)
    ensures |r| == if |xs| < InspectedSamples then |xs| else InspectedSamples
    ensures r == xs[..|r|]
  {
    if |xs| < InspectedSamples then xs else xs[..InspectedSamples]
  }

  /** A wrong sample count is only a WARNING: the sample-set checks find something CRITICAL
      exactly when there are no samples or one of the first five is not acceptable. */
  lemma StructureCritical(t: Tree, outDir: Path, domain: Option<string>, expected: int, probe: Path -> Probe)
    ensures var r := ValidateOutputStructure(t, outDir, domain, expected, probe);
      NoCritical(r.issues) <==> (r.samples != [] && forall i :: 0 <= i < |Take5(r.samples)| ==> SampleAcceptable(t, outDir + [Take5(r.samples)[i]], domain, probe))
  {
    var r := ValidateOutputStructure(t, outDir, domain, expected, probe);
    if r.samples != [] {
      var w := if |r.samples| != expected then [CountIssue(outDir, expected, |r.samples|)] else [];
      CountedInspection(w, t, outDir, Take5(r.samples), domain, probe);
    } else {
      assert r.issues[0].severity == Critical;
    }
  }

  /** A count WARNING ahead of the inspections changes nothing about CRITICAL issues. */
  lemma CountedInspection(w: seq<Issue>, t: Tree, outDir: Path, names: seq<string>, domain: Option<string>, probe: Path -> Probe)
    requires NoCritical(w)
    ensures NoCritical(w + InspectAll(t, outDir, names, domain, probe))
            <==> forall i :: 0 <= i < |names| ==> SampleAcceptable(t, outDir + [names[i]], domain, probe)
  {
    NoCriticalConcat(w, InspectAll(t, outDir, names, domain, probe));
    InspectAllCritical(t, outDir, names, domain, probe);
  }

  // ---------------------------------------------------------------- the step

  function EarlyFailure(issues: seq<Issue>, launched: seq<Stage>): OutputRun {
    OutputRun(StepResult(StepName, false, issues, OutputDetails(0, None)), launched, false)
  }

  /** The step "Output Format Check" as a stage machine that stops at the first failure. */
  function Validate(t: Tree, root: Path, domain: Option<string>, numSamples: int, sb: Sandbox,
                    probe: Path -> Probe): (r: OutputRun)
    ensures r.result.stepName == StepName
    ensures r.launched == [CreateVenv] + (if sb.venv.returnCode != 0 then [] else RunGeneratorIsolated(t, root, sb).launched)
    ensures r.venvRemoved <==> Reached(t, root, domain, sb)
    ensures !r.venvRemoved ==> r.result.details == OutputDetails(0, None) && !r.result.passed
  {
    if sb.venv.returnCode != 0 then EarlyFailure([VenvIssue(sb.venv)], [CreateVenv])
    else
      var run := RunGeneratorIsolated(t, root, sb);
      var launched := [CreateVenv] + run.launched;
      if !run.ok then EarlyFailure(run.issues, launched)
      else
        match FindOutputDir(sb.produced, root, domain)
        case None => EarlyFailure(run.issues + [NoOutputIssue(domain)], launched)
        case Some(dir) =>
          var s := ValidateOutputStructure(sb.produced, dir, domain, numSamples, probe);
          var issues := run.issues + s.issues;
          OutputRun(StepResult(StepName, NoCritical(issues), issues, OutputDetails(|s.samples|, Some(Show(dir)))),
                    launched, true)
  }

  /** The success path: the environment was created, the generator ran, and its output
      directory was found. Only then is the environment removed. */
  predicate Reached(t: Tree, root: Path, domain: Option<string>, sb: Sandbox) {
    sb.venv.returnCode == 0 && RunSucceeds(t, root, sb) && FindOutputDir(sb.produced, root, domain).Some?
  }

  /** The step passes exactly when it has no CRITICAL issue: every early exit carries one. */
  lemma ValidatePassedIffNoCritical(t: Tree, root: Path, domain: Option<string>, numSamples: int, sb: Sandbox,
                                    probe: Path -> Probe)
    ensures var r := Validate(t, root, domain, numSamples, sb, probe);
      r.result.passed <==> NoCritical(r.result.issues)
  {
    if sb.venv.returnCode != 0 {
      NoCriticalLast([VenvIssue(sb.venv)]);
    } else {
      var run := RunGeneratorIsolated(t, root, sb);
      RunIssuesShape(t, root, sb);
      if !run.ok {
        NoCriticalLast(run.issues);
      } else if FindOutputDir(sb.produced, root, domain).None? {
        NoCriticalLast(run.issues + [NoOutputIssue(domain)]);
      }
    }
  }

  /** The environment is created first, and every stage is launched at most once and in the
      fixed order. */
  lemma ValidateStagesOrdered(t: Tree, root: Path, domain: Option<string>, numSamples: int, sb: Sandbox,
                              probe: Path -> Probe)
    ensures var r := Validate(t, root, domain, numSamples, sb, probe);
      |r.launched| > 0 && r.launched[0] == CreateVenv && StagesOrdered(r.launched)
  {
    if sb.venv.returnCode == 0 && Exists(t, root + GenerateScriptPath) {
      InstallStagesOrdered(t, root, sb);
      VenvFirst(InstallStages(t, root, sb));
    }
  }

  /** Creating the environment first keeps the order when no later stage creates it again. */
  lemma VenvFirst(ss: seq<Stage>)
    requires StagesOrdered(ss) && CreateVenv !in ss
    ensures StagesOrdered([CreateVenv] + ss)
  {
    var vs := [CreateVenv] + ss;
    forall i, j | 0 <= i < j < |vs| ensures StageIndex(vs[i]) < StageIndex(vs[j]) {
      assert vs[j] == ss[j - 1] && vs[j] in ss;
      if i > 0 {
        assert vs[i] == ss[i - 1];
      }
    }
  }

  /** Environment creation fails: one CRITICAL, nothing else launched, no samples. */
  lemma VenvFailure(t: Tree, root: Path, domain: Option<string>, numSamples: int, sb: Sandbox, probe: Path -> Probe)
    requires sb.venv.returnCode != 0
    ensures var r := Validate(t, root, domain, numSamples, sb, probe);
      r.launched == [CreateVenv] && r.result.issues == [VenvIssue(sb.venv)] && !r.result.passed
      && r.result.details == OutputDetails(0, None) && !r.venvRemoved
  {
  }

  /** The entry script is missing: one CRITICAL, and neither an install nor the run is
      launched. */
  lemma MissingScriptFailure(t: Tree, root: Path, domain: Option<string>, numSamples: int, sb: Sandbox, probe: Path -> Probe)
    requires sb.venv.returnCode == 0 && !Exists(t, root + GenerateScriptPath)
    ensures var r := Validate(t, root, domain, numSamples, sb, probe);
      r.launched == [CreateVenv] && r.result.issues == [MissingScriptIssue] && !r.result.passed
      && r.result.details == OutputDetails(0, None)
  {
  }

  /** A non-zero exit of the generator stops the step before the output is looked for. */
  lemma RunFailure(t: Tree, root: Path, domain: Option<string>, numSamples: int, sb: Sandbox, probe: Path -> Probe)
    requires sb.venv.returnCode == 0 && Exists(t, root + GenerateScriptPath) && sb.run.returnCode != 0
    requires Exists(t, root + RequirementsPath) ==> sb.deps.returnCode == 0
    ensures var r := Validate(t, root, domain, numSamples, sb, probe);
      !r.result.passed && r.result.details == OutputDetails(0, None) && !r.venvRemoved
      && r.result.issues[|r.result.issues| - 1] == RunIssue(sb.run)
  {
  }

  /** On the success path the reported sample count is the number of sample directories and
      the step passes exactly when the sample-set checks find nothing CRITICAL. */
  lemma SuccessPath(t: Tree, root: Path, domain: Option<string>, numSamples: int, sb: Sandbox, probe: Path -> Probe)
    requires Reached(t, root, domain, sb)
    ensures var r := Validate(t, root, domain, numSamples, sb, probe);
      var dir := FindOutputDir(sb.produced, root, domain).value;
      var s := ValidateOutputStructure(sb.produced, dir, domain, numSamples, probe);
      r.result.details == OutputDetails(|ChildDirNames(sb.produced, dir)|, Some(Show(dir)))
      && (r.result.passed <==> NoCritical(s.issues))
  {
    var dir := FindOutputDir(sb.produced, root, domain).value;
    var s := ValidateOutputStructure(sb.produced, dir, domain, numSamples, probe);
    var run := RunGeneratorIsolated(t, root, sb);
    RunIssuesShape(t, root, sb);
    NoCriticalConcat(run.issues, s.issues);
    assert |s.samples| == |multiset(s.samples)| == |multiset(ChildDirNames(sb.produced, dir))|;
  }

  lemma NoCriticalLast(issues: seq<Issue>)
    requires |issues| > 0 && issues[|issues| - 1].severity == Critical
    ensures !NoCritical(issues)
  {
  }
}
