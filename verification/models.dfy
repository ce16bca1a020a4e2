/**
 The verification result data model: severities, immutable issues, per-step results and
 the whole-run result with its derived issue counts.
 */
module Models {
  import opened Wrappers

  /** How strongly an issue blocks acceptance: CRITICAL blocks, WARNING and INFO never do. */
  datatype Severity = Critical | Warning | Info

  /** One finding. `details` and `filePath` are absent unless a step supplies them. */
  datatype Issue = Issue(
    step: string,
    severity: Severity,
    message: string,
    details: Option<string> := None,
    filePath: Option<string> := None)

  /** The `details` bag each step attaches to its result. */
  datatype Details =
    | NoDetails
    | StructureDetails(requiredFilesFound: int, requiredDirsFound: int)
    | FormatDetails(domain: Option<string>)
    | OutputDetails(generatedSamples: nat, outputDirectory: Option<string>)

  /** The outcome of one step. `passed` is set by the step itself and is not always derivable
      from the severities of `issues`. */
  datatype StepResult = StepResult(
    stepName: string,
    passed: bool,
    issues: seq<Issue> := [],
    details: Details := NoDetails)

  /** The outcome of a whole verification run. */
  datatype VerificationResult = VerificationResult(
    generatorPath: string,
    domain: Option<string>,
    passed: bool,
    steps: seq<StepResult>)

  /** `if domain:` - a domain that is present and not the empty string. */
  predicate Truthy(domain: Option<string>) {
    domain.Some? && domain.value != ""
  }

  /** `sum(1 for issue in issues if issue.severity == sev)` */
  function SeverityCount(issues: seq<Issue>, sev: Severity): nat
  {
    if |issues| == 0 then 0
    else (if issues[0].severity == sev then 1 else 0) + SeverityCount(issues[1..], sev)
  }

  /** No issue of the list is CRITICAL. */
  predicate NoCritical(issues: seq<Issue>) {
    forall i :: 0 <= i < |issues| ==> issues[i].severity != Critical
  }

  /** A concatenation has no CRITICAL issue exactly when neither part has one. */
  lemma NoCriticalConcat(a: seq<Issue>, b: seq<Issue>)
    ensures NoCritical(a + b) <==> NoCritical(a) && NoCritical(b)
  {
    if NoCritical(a) && NoCritical(b) {
      forall i | 0 <= i < |a + b| ensures (a + b)[i].severity != Critical {
        if i >= |a| {
          assert (a + b)[i] == b[i - |a|];
        }
      }
    }
    if NoCritical(a + b) {
      forall i | 0 <= i < |a| ensures a[i].severity != Critical {
        assert (a + b)[i] == a[i];
      }
      forall i | 0 <= i < |b| ensures b[i].severity != Critical {
        assert (a + b)[|a| + i] == b[i];
      }
    }
  }

  /** A severity count is zero exactly when no issue has that severity. */
  lemma {:induction false} SeverityCountZero(issues: seq<Issue>, sev: Severity)
    ensures SeverityCount(issues, sev) == 0 <==> forall i :: 0 <= i < |issues| ==> issues[i].severity != sev
  {
    if |issues| > 0 {
      SeverityCountZero(issues[1..], sev);
      assert forall i :: 1 <= i < |issues| ==> issues[i] == issues[1..][i - 1];
    }
  }

  /** Counting over a concatenation adds the two counts. */
  lemma {:induction false} SeverityCountConcat(a: seq<Issue>, b: seq<Issue>, sev: Severity)
    ensures SeverityCount(a + b, sev) == SeverityCount(a, sev) + SeverityCount(b, sev)
  {
    if |a| > 0 {
      assert (a + b)[1..] == a[1..] + b;
      SeverityCountConcat(a[1..], b, sev);
    } else {
      assert a + b == b;
    }
  }

  /** When every issue has the severity, the count is the length of the list. */
  lemma {:induction false} SeverityCountAll(issues: seq<Issue>, sev: Severity)
    requires forall i :: 0 <= i < |issues| ==> issues[i].severity == sev
    ensures SeverityCount(issues, sev) == |issues|
  {
    if |issues| > 0 {
      assert forall i :: 1 <= i < |issues| ==> issues[i] == issues[1..][i - 1];
      SeverityCountAll(issues[1..], sev);
    }
  }

  /** Every issue has exactly one of the three severities, so the three counts add up to the
      length of the list. */
  lemma {:induction false} SeverityCountsPartition(issues: seq<Issue>)
    ensures SeverityCount(issues, Critical) + SeverityCount(issues, Warning) + SeverityCount(issues, Info) == |issues|
  {
    if |issues| > 0 {
      SeverityCountsPartition(issues[1..]);
    }
  }

  /** `total_issues`: `sum(len(step.issues) for step in steps)` */
  function StepsTotal(steps: seq<StepResult>): nat
  {
    if |steps| == 0 then 0 else |steps[0].issues| + StepsTotal(steps[1..])
  }

  function TotalIssues(r: VerificationResult): nat {
    StepsTotal(r.steps)
  }

  /** The per-step sum of one severity's count; `critical_issues` and `warning_issues`. */
  function StepsSeverityCount(steps: seq<StepResult>, sev: Severity): nat
  {
    if |steps| == 0 then 0 else SeverityCount(steps[0].issues, sev) + StepsSeverityCount(steps[1..], sev)
  }

  function CriticalIssues(r: VerificationResult): nat {
    StepsSeverityCount(r.steps, Critical)
  }

  function WarningIssues(r: VerificationResult): nat {
    StepsSeverityCount(r.steps, Warning)
  }

  /** `all(step.passed for step in steps)` */
  predicate AllPassed(steps: seq<StepResult>) {
    |steps| == 0 || (steps[0].passed && AllPassed(steps[1..]))
  }

  /** Every issue of every step, in step order: the reference list the counts are sums over. */
  function AllIssues(steps: seq<StepResult>): (r: seq<Issue>)
  {
    if |steps| == 0 then [] else steps[0].issues + AllIssues(steps[1..])
  }

  /** The severities of a list of issues, in order. */
  function Severities(issues: seq<Issue>): (r: seq<Severity>)
    ensures |r| == |issues|
    ensures forall i :: 0 <= i < |issues| ==> r[i] == issues[i].severity
  {
    if |issues| == 0 then [] else [issues[0].severity] + Severities(issues[1..])
  }

  /** `SeverityCount` counts the occurrences of the severity among the issues' severities. */
  lemma {:induction false} SeverityCountIsMultiplicity(issues: seq<Issue>, sev: Severity)
    ensures SeverityCount(issues, sev) == multiset(Severities(issues))[sev]
  {
    if |issues| > 0 {
      SeverityCountIsMultiplicity(issues[1..], sev);
      assert Severities(issues) == [issues[0].severity] + Severities(issues[1..]);
    }
  }

  /** `total_issues` is the number of issues over all steps. */
  lemma {:induction false} TotalIsAllIssues(steps: seq<StepResult>)
    ensures StepsTotal(steps) == |AllIssues(steps)|
  {
    if |steps| > 0 {
      TotalIsAllIssues(steps[1..]);
    }
  }

  /** A per-step severity sum counts exactly the issues of that severity over all steps. */
  lemma {:induction false} StepsCountIsAllIssuesCount(steps: seq<StepResult>, sev: Severity)
    ensures StepsSeverityCount(steps, sev) == SeverityCount(AllIssues(steps), sev)
  {
    if |steps| > 0 {
      StepsCountIsAllIssuesCount(steps[1..], sev);
      SeverityCountConcat(steps[0].issues, AllIssues(steps[1..]), sev);
    }
  }

  /** `critical_issues` and `warning_issues` count exactly the CRITICAL and the WARNING issues
      over all steps. */
  lemma CountsAreMultiplicities(r: VerificationResult)
    ensures CriticalIssues(r) == multiset(Severities(AllIssues(r.steps)))[Critical]
    ensures WarningIssues(r) == multiset(Severities(AllIssues(r.steps)))[Warning]
  {
    StepsCountIsAllIssuesCount(r.steps, Critical);
    StepsCountIsAllIssuesCount(r.steps, Warning);
    SeverityCountIsMultiplicity(AllIssues(r.steps), Critical);
    SeverityCountIsMultiplicity(AllIssues(r.steps), Warning);
  }

  /** CRITICAL and WARNING counts never exceed the total; the difference is the INFO issues. */
  lemma CountsBoundedByTotal(r: VerificationResult)
    ensures CriticalIssues(r) + WarningIssues(r) + SeverityCount(AllIssues(r.steps), Info) == TotalIssues(r)
    ensures CriticalIssues(r) + WarningIssues(r) <= TotalIssues(r)
  {
    TotalIsAllIssues(r.steps);
    StepsCountIsAllIssuesCount(r.steps, Critical);
    StepsCountIsAllIssuesCount(r.steps, Warning);
    SeverityCountsPartition(AllIssues(r.steps));
  }

  /** Appending a step adds exactly that step's own counts to all three totals. */
  lemma {:induction false} AppendStepCounts(steps: seq<StepResult>, s: StepResult)
    ensures StepsTotal(steps + [s]) == StepsTotal(steps) + |s.issues|
    ensures forall sev :: StepsSeverityCount(steps + [s], sev) == StepsSeverityCount(steps, sev) + SeverityCount(s.issues, sev)
  {
    if |steps| > 0 {
      assert (steps + [s])[1..] == steps[1..] + [s];
      AppendStepCounts(steps[1..], s);
    }
  }

  /** A step without issues leaves all three totals unchanged. */
  lemma AppendEmptyStep(r: VerificationResult, s: StepResult)
    requires s.issues == []
    ensures StepsTotal(r.steps + [s]) == StepsTotal(r.steps)
    ensures CriticalIssues(r.(steps := r.steps + [s])) == CriticalIssues(r)
    ensures WarningIssues(r.(steps := r.steps + [s])) == WarningIssues(r)
  {
    AppendStepCounts(r.steps, s);
  }

  /** An INFO issue adds to the total only. */
  lemma InfoOnlyInTotal(r: VerificationResult, s: StepResult)
    requires forall i :: 0 <= i < |s.issues| ==> s.issues[i].severity == Info
    ensures StepsTotal(r.steps + [s]) == StepsTotal(r.steps) + |s.issues|
    ensures CriticalIssues(r.(steps := r.steps + [s])) == CriticalIssues(r)
    ensures WarningIssues(r.(steps := r.steps + [s])) == WarningIssues(r)
  {
    AppendStepCounts(r.steps, s);
    SeverityCountZero(s.issues, Critical);
    SeverityCountZero(s.issues, Warning);
  }

  /** `all(...)` holds exactly when every step passed. */
  lemma {:induction false} AllPassedIffEvery(steps: seq<StepResult>)
    ensures AllPassed(steps) <==> forall i :: 0 <= i < |steps| ==> steps[i].passed
  {
    if |steps| > 0 {
      AllPassedIffEvery(steps[1..]);
      assert forall i :: 1 <= i < |steps| ==> steps[i] == steps[1..][i - 1];
    }
  }

  /** When every step passed and no passing step holds a CRITICAL issue, the run has none. */
  lemma {:induction false} PassingStepsNoCritical(steps: seq<StepResult>)
    requires forall i :: 0 <= i < |steps| ==> steps[i].passed && NoCritical(steps[i].issues)
    ensures StepsSeverityCount(steps, Critical) == 0
  {
    if |steps| > 0 {
      SeverityCountZero(steps[0].issues, Critical);
      assert forall i :: 1 <= i < |steps| ==> steps[i] == steps[1..][i - 1];
      PassingStepsNoCritical(steps[1..]);
    }
  }

  /** Omitted fields take their defaults: no elaboration, no file, no issues, no details. */
  lemma Defaults(step: string, sev: Severity, message: string, name: string, passed: bool)
    ensures Issue(step, sev, message).details == None
    ensures Issue(step, sev, message).filePath == None
    ensures StepResult(name, passed).issues == []
    ensures StepResult(name, passed).details == NoDetails
  {
  }
}
