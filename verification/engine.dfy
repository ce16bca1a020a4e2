/**
 The verification pipeline: unpack the submission, find its root, run the structure and
 format steps, run the output step only when both passed, and combine the three results.
 The archive reader, the parser, the subprocesses and the video probe are inputs.
 */
module Engine {
  import opened Wrappers
  import opened Strings
  import opened FileTree
  import opened Models
  import ConfigAst
  import Structure
  import Format
  import Output

  /** What unpacking the archive gives: nothing readable, or the tree written below the
      temporary target directory (paths relative to that directory). */
  datatype Archive = Corrupt | Extracted(tree: Tree)

  /** How a run ends: with a result, or with the parser's error escaping the format step. */
  datatype Outcome = Finished(result: VerificationResult) | Raised

  /** A run: its outcome, the subprocesses the output step launched, and whether the
      temporary directory was removed. */
  datatype EngineRun = EngineRun(outcome: Outcome, launched: seq<Output.Stage>, tempRemoved: bool)

  /** The outside world one run sees. */
  datatype World = World(
    archive: Archive,
    parse: string -> Option<ConfigAst.Node>,
    sandbox: Output.Sandbox,
    probe: Path -> Output.Probe)

  const ExtractionStep := StepResult("Extraction", false, [Issue("extraction", Critical, "Failed to extract zip file")])
  const SkippedStep := StepResult(Output.StepName, false, [Issue("output", Info, "Skipped due to previous failures")])

  // ---------------------------------------------------------------- finding the root

  /** A top-level directory name that counts as a project: not hidden and not one of the two
      tool-made directories. */
  predicate ProjectDirName(name: string) {
    !StartsWith(name, ".") && name != "__MACOSX" && name != "__pycache__"
  }

  function ProjectDirs(names: seq<string>): (r: seq<string>)
    ensures forall i :: 0 <= i < |r| ==> ProjectDirName(r[i]) && r[i] in names
    ensures forall i :: 0 <= i < |names| && ProjectDirName(names[i]) ==> names[i] in r
  {
    if |names| == 0 then []
    else if ProjectDirName(names[0]) then [names[0]] + ProjectDirs(names[1..])
    else ProjectDirs(names[1..])
  }

  /** The project root: the only top-level project directory when there is exactly one,
      else the target directory itself. */
  function ExtractionRoot(t: Tree): (r: Path)
    ensures r == [] || (|r| == 1 && Entry(r, Dir) in t && ProjectDirName(r[0]))
    ensures |ProjectDirs(ChildDirNames(t, []))| == 1 <==> r != []
  {
    var dirs := ProjectDirs(ChildDirNames(t, []));
    if |dirs| == 1 then [dirs[0]] else []
  }

  /** Hidden directories and the two tool-made ones are never the project. */
  lemma NotProjectDirs()
    ensures !ProjectDirName(".git") && !ProjectDirName("__MACOSX") && !ProjectDirName("__pycache__")
  {
    assert StartsWith(".git", ".");
  }

  /** A lone project directory is the root, whatever hidden or tool-made directories lie
      beside it. */
  lemma LoneProjectDirIsRoot(t: Tree, d: string)
    requires ChildDirNames(t, []) == [".git", d, "__MACOSX"] && ProjectDirName(d)
    ensures ExtractionRoot(t) == [d]
  {
    NotProjectDirs();
    var names := ChildDirNames(t, []);
    assert ProjectDirs(names) == ProjectDirs(names[1..]);
    assert names[1..] == [d, "__MACOSX"] && names[1..][1..] == ["__MACOSX"];
    assert ProjectDirs(names[1..]) == [d] + ProjectDirs(names[1..][1..]);
    assert ProjectDirs(names[1..][1..]) == ProjectDirs([]);
  }

  /** Two project directories side by side leave the target directory as the root. */
  lemma TwoProjectDirsKeepTarget(t: Tree, d: string, e: string)
    requires ChildDirNames(t, []) == [d, e] && ProjectDirName(d) && ProjectDirName(e)
    ensures ExtractionRoot(t) == []
  {
    var names := ChildDirNames(t, []);
    assert names[1..] == [e] && names[1..][1..] == [];
    assert ProjectDirs(names[1..]) == [e] + ProjectDirs([]);
    assert ProjectDirs(names) == [d] + ProjectDirs(names[1..]);
  }

  // ---------------------------------------------------------------- the pipeline

  /** `verify(zip_path, num_samples)`. */
  function Verify(zipPath: string, numSamples: int, w: World): (r: EngineRun)
    ensures w.archive.Corrupt? ==> r == EngineRun(Finished(VerificationResult(zipPath, None, false, [ExtractionStep])), [], false)
    ensures w.archive.Extracted? ==>
      var t := w.archive.tree;
      var root := ExtractionRoot(t);
      match Format.Validate(t, root, w.parse)
      case None => r == EngineRun(Raised, [], false)
      case Some(f) =>
        r == Assemble(zipPath, Structure.Validate(t, root), f,
                      Output.Validate(t, root, DetailsDomain(f.details), numSamples, w.sandbox, w.probe))
  {
    match w.archive
    case Corrupt => EngineRun(Finished(VerificationResult(zipPath, None, false, [ExtractionStep])), [], false)
    case Extracted(t) =>
      var root := ExtractionRoot(t);
      match Format.Validate(t, root, w.parse)
      case None => EngineRun(Raised, [], false)
      case Some(format) =>
        var structure := Structure.Validate(t, root);
        if structure.passed && format.passed then
          Assemble(zipPath, structure, format, Output.Validate(t, root, format.details.domain, numSamples, w.sandbox, w.probe))
        else Assemble(zipPath, structure, format, EmptyOutput)
  }

  const EmptyOutput := Output.OutputRun(SkippedStep, [], false)

  /** Combines the first two step results with the output step, which is used only when both
      passed and is otherwise replaced by the skipped stand-in; the temporary directory is
      removed. */
  function Assemble(zipPath: string, s: StepResult, f: StepResult, out: Output.OutputRun): (r: EngineRun)
    ensures r.outcome.Finished? && r.tempRemoved
    ensures |r.outcome.result.steps| == 3 && r.outcome.result.steps[..2] == [s, f]
    ensures r.outcome.result.domain == DetailsDomain(f.details) && r.outcome.result.generatorPath == zipPath
  {
    var steps := [s, f, if s.passed && f.passed then out.result else SkippedStep];
    EngineRun(Finished(VerificationResult(zipPath, DetailsDomain(f.details), AllPassed(steps), steps)),
              if s.passed && f.passed then out.launched else [], true)
  }

  /** `details.get("domain")`: the domain a format result carries, or nothing. */
  function DetailsDomain(d: Details): (r: Option<string>)
    ensures d.FormatDetails? ==> r == d.domain
    ensures !d.FormatDetails? ==> r == None
  {
    if d.FormatDetails? then d.domain else None
  }

  /** Both earlier steps passed: only then is the generator run. */
  predicate Proceeds(t: Tree, parse: string -> Option<ConfigAst.Node>) {
    var root := ExtractionRoot(t);
    Format.Validate(t, root, parse).Some?
    && Structure.Validate(t, root).passed && Format.Validate(t, root, parse).value.passed
  }

  /** An archive that cannot be unpacked gives one failed "Extraction" step with one CRITICAL
      issue, no domain, no subprocess, and a temporary directory left in place. */
  lemma ExtractionFailureShape(zipPath: string, numSamples: int, w: World)
    requires w.archive.Corrupt?
    ensures var r := Verify(zipPath, numSamples, w);
      r.outcome.Finished? && !r.outcome.result.passed && r.outcome.result.domain == None
      && |r.outcome.result.steps| == 1 && r.outcome.result.steps[0].stepName == "Extraction"
      && CriticalIssues(r.outcome.result) == 1 && TotalIssues(r.outcome.result) == 1
      && r.launched == [] && !r.tempRemoved
  {
    var steps := [ExtractionStep];
    var issues := ExtractionStep.issues;
    assert steps[1..] == [] && issues[1..] == [];
    assert SeverityCount(issues, Critical) == 1 + SeverityCount(issues[1..], Critical);
    assert StepsSeverityCount(steps, Critical) == SeverityCount(issues, Critical) + StepsSeverityCount(steps[1..], Critical);
    assert StepsTotal(steps) == |issues| + StepsTotal(steps[1..]);
  }

  /** A parser error in the format step escapes the run: no result, no subprocess, and the
      temporary directory is left in place. */
  lemma ParseErrorEscapes(zipPath: string, numSamples: int, w: World)
    requires w.archive.Extracted?
    ensures var t := w.archive.tree;
      var r := Verify(zipPath, numSamples, w);
      r.outcome.Raised? <==> Format.Validate(t, ExtractionRoot(t), w.parse).None?
    ensures var r := Verify(zipPath, numSamples, w);
      r.outcome.Raised? ==> r.launched == [] && !r.tempRemoved
  {
  }

  /** After unpacking (and without a parser error) the result holds exactly three steps: the
      structure step, the format step, and the output step or its skipped stand-in; the
      temporary directory is removed and the domain is the one the format step found. */
  lemma StepsInOrder(zipPath: string, numSamples: int, w: World)
    requires w.archive.Extracted? && Format.Validate(w.archive.tree, ExtractionRoot(w.archive.tree), w.parse).Some?
    ensures var t := w.archive.tree;
      var root := ExtractionRoot(t);
      var f := Format.Validate(t, root, w.parse).value;
      var r := Verify(zipPath, numSamples, w);
      r.outcome.Finished? && r.tempRemoved && |r.outcome.result.steps| == 3
      && r.outcome.result.steps[0] == Structure.Validate(t, root)
      && r.outcome.result.steps[1] == f
      && r.outcome.result.domain == DetailsDomain(f.details)
  {
    var t := w.archive.tree;
    var root := ExtractionRoot(t);
    var steps := Verify(zipPath, numSamples, w).outcome.result.steps;
    assert steps[0] == steps[..2][0] && steps[1] == steps[..2][1];
  }

  /** The third step: the output step when both earlier steps passed, the skipped stand-in
      otherwise. Subprocesses are launched exactly when the output step runs. */
  lemma AssembleThirdStep(zipPath: string, s: StepResult, f: StepResult, out: Output.OutputRun)
    requires |out.launched| > 0
    ensures var r := Assemble(zipPath, s, f, out);
      (r.launched != [] <==> s.passed && f.passed)
      && r.outcome.result.steps[2] == (if s.passed && f.passed then out.result else SkippedStep)
      && (r.outcome.result.passed <==> s.passed && f.passed && out.result.passed)
  {
    var steps := Assemble(zipPath, s, f, out).outcome.result.steps;
    AllPassedIffEvery(steps);
  }

  /** The generator is run (the output step launches its first subprocess) exactly when both
      earlier steps passed; otherwise the third step is the skipped stand-in. */
  lemma OutputInvokedIff(zipPath: string, numSamples: int, w: World)
    requires w.archive.Extracted? && Format.Validate(w.archive.tree, ExtractionRoot(w.archive.tree), w.parse).Some?
    ensures var r := Verify(zipPath, numSamples, w);
      (r.launched != [] <==> Proceeds(w.archive.tree, w.parse))
      && (!Proceeds(w.archive.tree, w.parse) ==> r.outcome.result.steps[2] == SkippedStep)
  {
    var t := w.archive.tree;
    var root := ExtractionRoot(t);
    var f := Format.Validate(t, root, w.parse).value;
    var out := Output.Validate(t, root, DetailsDomain(f.details), numSamples, w.sandbox, w.probe);
    Output.ValidateStagesOrdered(t, root, DetailsDomain(f.details), numSamples, w.sandbox, w.probe);
    AssembleThirdStep(zipPath, Structure.Validate(t, root), f, out);
  }

  /** The skipped stand-in is a failed "Output Format Check" with a single INFO issue: it
      blocks the run without adding to the CRITICAL or WARNING counts. */
  lemma SkippedStepShape(r: VerificationResult)
    ensures !SkippedStep.passed && SkippedStep.stepName == "Output Format Check"
    ensures |SkippedStep.issues| == 1 && SkippedStep.issues[0].severity == Info
    ensures StepsTotal(r.steps + [SkippedStep]) == StepsTotal(r.steps) + 1
    ensures CriticalIssues(r.(steps := r.steps + [SkippedStep])) == CriticalIssues(r)
    ensures WarningIssues(r.(steps := r.steps + [SkippedStep])) == WarningIssues(r)
  {
    InfoOnlyInTotal(r, SkippedStep);
  }

  /** A run passes only when both earlier steps and the output step ran and passed. */
  lemma PassedMeansOutputRan(zipPath: string, numSamples: int, w: World)
    requires Verify(zipPath, numSamples, w).outcome.Finished?
    requires Verify(zipPath, numSamples, w).outcome.result.passed
    ensures w.archive.Extracted? && Proceeds(w.archive.tree, w.parse)
    ensures var t := w.archive.tree;
      var root := ExtractionRoot(t);
      var f := Format.Validate(t, root, w.parse).value;
      Output.Validate(t, root, DetailsDomain(f.details), numSamples, w.sandbox, w.probe).result.passed
  {
    var t := w.archive.tree;
    var root := ExtractionRoot(t);
    var f := Format.Validate(t, root, w.parse).value;
    var out := Output.Validate(t, root, DetailsDomain(f.details), numSamples, w.sandbox, w.probe);
    Output.ValidateStagesOrdered(t, root, DetailsDomain(f.details), numSamples, w.sandbox, w.probe);
    AssembleThirdStep(zipPath, Structure.Validate(t, root), f, out);
  }

  /** Every step passes exactly when it holds no CRITICAL issue, so a whole run passes exactly
      when its CRITICAL count is zero. */
  lemma PassedIffNoCritical(zipPath: string, numSamples: int, w: World)
    requires Verify(zipPath, numSamples, w).outcome.Finished?
    ensures var r := Verify(zipPath, numSamples, w).outcome.result;
      r.passed <==> CriticalIssues(r) == 0
  {
    if w.archive.Corrupt? {
      ExtractionFailureShape(zipPath, numSamples, w);
    } else {
      var t := w.archive.tree;
      var root := ExtractionRoot(t);
      var s := Structure.Validate(t, root);
      var f := Format.Validate(t, root, w.parse).value;
      var out := Output.Validate(t, root, DetailsDomain(f.details), numSamples, w.sandbox, w.probe);
      Output.ValidatePassedIffNoCritical(t, root, DetailsDomain(f.details), numSamples, w.sandbox, w.probe);
      AssembleCritical(zipPath, s, f, out);
    }
  }

  /** When each step passes exactly when it holds no CRITICAL issue, the assembled run passes
      exactly when its CRITICAL count is zero: a skipped output step only follows a failed,
      and so CRITICAL, earlier step. */
  lemma AssembleCritical(zipPath: string, s: StepResult, f: StepResult, out: Output.OutputRun)
    requires s.passed <==> NoCritical(s.issues)
    requires f.passed <==> NoCritical(f.issues)
    requires out.result.passed <==> NoCritical(out.result.issues)
    ensures var r := Assemble(zipPath, s, f, out).outcome.result;
      r.passed <==> CriticalIssues(r) == 0
  {
    var r := Assemble(zipPath, s, f, out).outcome.result;
    var o := r.steps[2];
    assert r.steps == [s, f, o];
    SeverityCountZero(s.issues, Critical);
    SeverityCountZero(f.issues, Critical);
    SeverityCountZero(o.issues, Critical);
    assert r.steps[1..] == [f, o] && r.steps[1..][1..] == [o] && r.steps[1..][1..][1..] == [];
    var c := StepsSeverityCount(r.steps[1..][1..], Critical);
    assert c == SeverityCount(o.issues, Critical) + StepsSeverityCount([], Critical);
    assert StepsSeverityCount(r.steps[1..], Critical) == SeverityCount(f.issues, Critical) + c;
    assert CriticalIssues(r) == SeverityCount(s.issues, Critical) + SeverityCount(f.issues, Critical) + c;
    AllPassedIffEvery(r.steps);
  }
}
