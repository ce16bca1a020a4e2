# vm-verifier decision core, in Dafny

vm-verifier takes a zipped video-task generator and judges it in three steps:

1. **File Structure Check.** Required directories and files, empty files, leftover template keywords, and the entry-script guard.
2. **Code Format Check.** The `domain` declared in `src/config.py` and its spelling, task-identifier format, the output file names, and version pins.
3. **Output Format Check.** Builds an isolated environment, runs the generator, finds its output directory and inspects the samples.

The third step runs only when the first two passed. The run passes when every step passed, and it reports issue counts by severity.

This project models that decision logic as pure functions over a file tree, with the outside world passed in as parameters:
- the unpacked archive, as a list of entries;
- the Python parser, as a function from text to an optional syntax tree;
- the exit codes and error text of the subprocesses;
- the tree the generator leaves behind;
- the video probe.

Each operation carries a contract stating what it decides. Lemmas relate the issues an operation reports to an independent statement of what it objects to.

Modules, one per file:

| module | file | models |
|---|---|---|
| `Wrappers` | wrappers.dfy | `Option` |
| `Strings` | strings.dfy | the Python `str` operations used: `in`, `startswith`, `strip`, `split`, `replace`, `str(int)`, and `isdigit` restricted to ASCII digits |
| `Sorting` | sorting.dfy | `sorted()` of path names |
| `FileTree` | filetree.dfy | paths, lookup, directory listing, `rglob` |
| `Models` | models.dfy | `src/models.py` |
| `Structure` | structure.dfy | `src/structure_validator.py` |
| `ConfigAst` | config_ast.dfy | the part of Python's syntax tree and of `ast.walk` the domain lookup inspects |
| `DomainPatterns` | domain_patterns.dfy | the two fallback regular expressions under `re.search` |
| `Format` | format.dfy | `src/format_validator.py` |
| `Output` | output.dfy | `src/output_validator.py` |
| `Engine` | engine.dfy | `src/verification_engine.py` |

Python semantics the model follows:
- **Sets.** `REQUIRED_FILES`, `REQUIRED_DIRS` and `REQUIRED_OUTPUT_FILES` are Python sets. The source visits a set in hash order, and because string hashing is randomised per process, that order can vary between runs. The model fixes the written order instead. The per-entry lemmas and the counts do not depend on that order; only the position of an issue in the list does. The per-entry lemmas are `Structure.DirIssuesPerDir`, `Structure.FileIssuesPerFile` and `Output.SampleFileIssuesPerFile`.
- **File contents.** A file's content is the text `read_text()` returns, after universal-newline translation, so the `split('\n')` of the requirements check never sees `\r`.
- **Whitespace.** `strip()`, `split()` and the regular-expression class `\s` use the character set of `str.isspace`.
- **`split('\n')`** keeps empty pieces.
- **`replace`** removes occurrences in one left-to-right scan.
- **`re.match(r'^...$')`**: `$` also matches just before a final newline.
- **`if domain`** is false for `None` and for the empty string.
- **An f-string of `None`** renders as `None`.
- **Paths.** A path is a list of components relative to the extraction directory. An issue's `file_path` is that list joined with `/`.
- **First entry wins.** A tree is the entry list in enumeration order, and a lookup takes the first entry with the path.

## Model

`Engine.Verify` models `verify` at src/verification_engine.py:24-95. Its own contract only ties it to `Engine.Assemble`. What it promises is stated by the Engine lemmas below: `Engine.ExtractionFailureShape`, `Engine.ParseErrorEscapes`, `Engine.StepsInOrder`, `Engine.OutputInvokedIff`, `Engine.PassedMeansOutputRan` and `Engine.PassedIffNoCritical`.

| member | source | states |
|---|---|---|
| `Models.NoCriticalConcat` | src/models.py:43-48 | a concatenation of issue lists has no CRITICAL issue exactly when neither part has one |
| `Models.SeverityCountZero` | src/models.py:43-48 | a severity count is zero exactly when no issue of the list has that severity |
| `Models.SeverityCountConcat` | src/models.py:43-55 | counting one severity over a concatenation adds the counts of the parts |
| `Models.SeverityCountAll` | src/models.py:43-55 | when every issue has the severity, the count is the length of the list |
| `Models.SeverityCountsPartition` | src/models.py:8-12 | every issue has exactly one of the three severities, so the three counts add up to the number of issues |
| `Models.Severities` | src/models.py:15-21 | the severities of a list of issues, position by position |
| `Models.SeverityCountIsMultiplicity` | src/models.py:43-55 | a severity count is the multiplicity of that severity among the issues' severities |
| `Models.TotalIsAllIssues` | src/models.py:39-41 | `total_issues` is the length of the concatenation of all steps' issues |
| `Models.StepsCountIsAllIssuesCount` | src/models.py:43-55 | the per-step sum of a severity count equals the count over all issues of the run |
| `Models.CountsAreMultiplicities` | src/models.py:43-55 | `critical_issues` and `warning_issues` are the multiplicities of CRITICAL and WARNING over the run's issues |
| `Models.CountsBoundedByTotal` | src/models.py:39-55 | CRITICAL + WARNING + INFO counts equal `total_issues`; CRITICAL + WARNING never exceed it |
| `Models.AppendStepCounts` | src/models.py:39-55 | appending a step adds exactly its own issue count and its own per-severity counts |
| `Models.AppendEmptyStep` | src/models.py:39-55 | a step with no issues leaves all three totals unchanged |
| `Models.InfoOnlyInTotal` | src/models.py:39-55 | a step with only INFO issues raises `total_issues` but neither `critical_issues` nor `warning_issues` |
| `Models.AllPassedIffEvery` | src/verification_engine.py:88 | `all(r.passed for r in results)` holds exactly when every step passed |
| `Models.PassingStepsNoCritical` | src/models.py:43-48 | when every step passed and passing steps hold no CRITICAL issue, `critical_issues` is zero |
| `Models.Defaults` | src/models.py:15-29 | omitted `details` and `file_path` are absent, omitted `issues` is empty, omitted step details are empty |
| `Structure.MissingCount` | src/structure_validator.py:31-51 | the number of missing required paths is at most their number and is zero exactly when all exist |
| `Structure.EmptyCount` | src/structure_validator.py:52-58 | the number of empty required files is at most their number |
| `Structure.DirIssues` | src/structure_validator.py:31-40 | one issue per missing required directory, each the CRITICAL "Missing required directory" issue of some table entry |
| `Structure.IssueNamesInjective` | src/structure_validator.py:31-58 | the missing-directory, missing-file and empty-file issues each name exactly one path, so equal issues name equal paths |
| `Structure.DirIssuesPerDir` | src/structure_validator.py:31-40 | each required directory has its own CRITICAL issue exactly when it does not exist |
| `Structure.FileOutcome` | src/structure_validator.py:43-58 | a required file gives a CRITICAL "Missing required file" issue exactly when absent, a WARNING "File is empty" exactly when empty, nothing otherwise |
| `Structure.FileIssues` | src/structure_validator.py:42-58 | every issue of the file checks is a missing-file or empty-file issue of some required file |
| `Structure.FileIssuesSound` | src/structure_validator.py:42-58 | a missing-file or empty-file issue for a name is reported only when that file is in that state |
| `Structure.FileIssuesComplete` | src/structure_validator.py:42-58 | every missing or empty required file has its issue reported |
| `Structure.FileIssuesPerFile` | src/structure_validator.py:42-58 | each required file has its own missing-file CRITICAL exactly when it does not exist, and its own empty-file WARNING exactly when it is an empty regular file |
| `Structure.FileIssuesCounts` | src/structure_validator.py:42-58 | the file checks' CRITICAL count is the number of missing files, their WARNING count the number of empty ones, and there are no INFO issues |
| `Structure.KeywordHit` | src/structure_validator.py:94-103 | the first template keyword in list order the text contains; none exactly when it contains none |
| `Structure.FileResidue` | src/structure_validator.py:89-103 | a non-hidden `.py` entry gives one WARNING naming the first keyword its text contains, and nothing when it contains none |
| `Structure.ResidueIssues` | src/structure_validator.py:85-103 | the template scan reports at most one WARNING per scanned file, each a template-keyword message |
| `Structure.ResidueAppend` | src/structure_validator.py:89-103 | scanning one more file adds exactly that file's residue issues at the end |
| `Structure.GuardIssues` | src/structure_validator.py:63-73 | one WARNING exactly when `examples/generate.py` exists and its text lacks `if __name__` |
| `Structure.MentionCount` | src/structure_validator.py:80-81 | the number of issues whose message contains a marker is at most the number of issues |
| `Structure.MentionCountConcat` | src/structure_validator.py:80-81 | counting marker mentions over a concatenation adds the two counts |
| `Structure.NoMarkerByChar` | src/structure_validator.py:80-81 | a message lacking a character of both markers mentions neither |
| `Structure.EmptyFileMessages` | src/structure_validator.py:56 | an "File is empty" message mentions neither "Missing required file" nor "Missing required directory" |
| `Structure.MissingFileMessages` | src/structure_validator.py:49 | a missing-file message mentions its own marker and not the directory marker |
| `Structure.MissingDirMessages` | src/structure_validator.py:38 | a missing-directory message mentions its own marker and not the file marker |
| `Structure.OtherMessages` | src/structure_validator.py:71-99 | the template-keyword and entry-guard messages mention neither marker |
| `Structure.TableMessages` | src/structure_validator.py:11-25 | no message built from a table entry mentions the other kind's marker |
| `Structure.FileIssuesMentions` | src/structure_validator.py:80 | the file checks mention "Missing required file" once per missing file and never mention the directory marker |
| `Structure.DirIssuesMentions` | src/structure_validator.py:81 | the directory checks mention "Missing required directory" once per missing directory, are all CRITICAL, and never mention the file marker |
| `Structure.WarningsMentions` | src/structure_validator.py:60-73 | residue and guard issues mention neither marker and are neither CRITICAL nor INFO |
| `Structure.StepIssuesMentions` | src/structure_validator.py:79-82 | each marker is mentioned exactly once per missing required path of its kind |
| `Structure.StepIssuesCounts` | src/structure_validator.py:27-77 | the CRITICAL issues are exactly those for missing required paths, and there is no INFO issue |
| `Structure.Validate` | src/structure_validator.py:27-83 | "File Structure Check" passes exactly when every required directory and file exists; empty files, residue and a missing guard never fail it; the found counts are the table sizes minus the missing ones |
| `ConfigAst.SizeOfNode` | src/format_validator.py:50 | a node's size is one more than the total size of its children |
| `ConfigAst.SizeSeqConcat` | src/format_validator.py:50 | the size of a concatenated node list is the sum of the sizes |
| `ConfigAst.PreorderSeqConcat` | src/format_validator.py:50 | the pre-order listing of a concatenated node list is the concatenation of the listings |
| `ConfigAst.BfsIsPermutation` | src/format_validator.py:50 | the breadth-first walk visits the same nodes, with the same multiplicities, as a pre-order traversal |
| `ConfigAst.WalkVisitsTree` | src/format_validator.py:50 | a node is visited by `ast.walk` exactly when it occurs in the tree |
| `ConfigAst.KeywordDefault` | src/format_validator.py:59-62 | the first `default=` keyword whose value is a constant gives the domain; not found exactly when there is none |
| `ConfigAst.ItemDomain` | src/format_validator.py:53-62 | only an annotated assignment to the name `domain` with a constant value or a call with a constant `default=` gives a domain |
| `ConfigAst.BodyDomain` | src/format_validator.py:52-62 | a class body gives a domain exactly when some item does, and the one it gives comes from an item |
| `ConfigAst.ClassesDomain` | src/format_validator.py:50-62 | the first class in visiting order that declares a domain decides; not found exactly when no visited class declares one |
| `ConfigAst.StructuredDomain` | src/format_validator.py:48-62 | the syntax tree gives no domain exactly when no class in it declares one; otherwise it is a declaring class's body that gives it |
| `DomainPatterns.FallbacksWellFormed` | src/format_validator.py:65-68 | both fallback patterns start with a literal and never have two adjacent whitespace runs |
| `DomainPatterns.QuoteEnd` | src/format_validator.py:66-67 | the quoted group `[^"']+` extends to the first quote or the end of the text |
| `DomainPatterns.QuotedAt` | src/format_validator.py:66-67 | a found group is an opening quote, at least one non-quote character, and a closing quote |
| `DomainPatterns.QuotedAtComplete` | src/format_validator.py:66-67 | every quoted run at a position is the one found there |
| `DomainPatterns.Run` | src/format_validator.py:66-67 | matching the pattern prefix never moves backwards or past the end |
| `DomainPatterns.RunSound` | src/format_validator.py:66-67 | a prefix match is a derivation of the pattern's tokens over the text |
| `DomainPatterns.SpacesStop` | src/format_validator.py:66-67 | a greedy `\s*` stops at the first non-whitespace character |
| `DomainPatterns.RunComplete` | src/format_validator.py:66-67 | every derivation ending before a non-whitespace character is the one found, so the greedy match loses nothing |
| `DomainPatterns.FirstIsSolid` | src/format_validator.py:66-67 | a match starts on a non-whitespace character |
| `DomainPatterns.MatchAtIsRegexMatch` | src/format_validator.py:66-67 | the matcher finds group `v` at a position exactly when the regular expression matches there with group `v` |
| `DomainPatterns.SearchFrom` | src/format_validator.py:71 | the position `re.search` reports is the leftmost one with a match; no position when none matches |
| `DomainPatterns.SearchIsLeftmost` | src/format_validator.py:71-73 | a found group belongs to the leftmost matching position |
| `DomainPatterns.LeftmostIsFound` | src/format_validator.py:71-73 | the group of the leftmost matching position is the one found |
| `DomainPatterns.FirstMatch` | src/format_validator.py:70-73 | the patterns are tried in order and the first that matches decides; none exactly when none matches |
| `DomainPatterns.FallbackGroupShape` | src/format_validator.py:64-73 | a fallback result is non-empty and holds no quote character |
| `DomainPatterns.DirectAssignExample` | src/format_validator.py:67 | `domain = "maze"` yields `maze` |
| `DomainPatterns.MatchStartsWithDomain` | src/format_validator.py:66-67 | every fallback match starts with the word `domain` |
| `DomainPatterns.AnnotatedFormOneDomain` | src/format_validator.py:66-67 | `domain: str = 'maze'` holds the word `domain` only at its start |
| `DomainPatterns.WordAtChar` | src/format_validator.py:66-67 | a word at a position fixes the characters there |
| `DomainPatterns.AnnotatedFormDirect` | src/format_validator.py:67 | the direct-assignment pattern does not match `domain: str = 'maze'` at its start |
| `DomainPatterns.AnnotatedFormField` | src/format_validator.py:66 | the `Field(default=...)` pattern does not match `domain: str = 'maze'` at its start |
| `DomainPatterns.AnnotatedFormNoMatch` | src/format_validator.py:65-71 | neither fallback pattern matches anywhere in `domain: str = 'maze'` |
| `DomainPatterns.AnnotatedFormMissed` | src/format_validator.py:64-73 | neither fallback finds a domain in `domain: str = 'maze'` |
| `Format.PathsSpellFileNames` | src/format_validator.py:42-167 | the component paths spell the file names the issues report |
| `Format.ExtractDomain` | src/format_validator.py:40-81 | no config file gives no domain and no issue; a parse error escapes; the CRITICAL issue appears exactly when neither the tree nor any fallback yields a domain |
| `Format.FallbacksDecide` | src/format_validator.py:64-81 | when the tree declares no domain, the domain is the `Field(default=...)` pattern's value if it is found anywhere, else the direct-assignment pattern's value; the CRITICAL appears exactly when both miss |
| `Format.StructuredTakesPrecedence` | src/format_validator.py:48-62 | a domain declared in the syntax tree is used without consulting the fallbacks |
| `Format.NoneDomainTreeLookup` | src/format_validator.py:56-57 | a class whose `domain` is the constant `None` yields a found but absent domain |
| `Format.NoneDomainIsSilent` | src/format_validator.py:56-57 | such a class ends the lookup with no domain and no issue |
| `Format.ModuleLevelTreeLookup` | src/format_validator.py:50-54 | a module-level annotated `domain` is not found by the tree lookup |
| `Format.ModuleLevelAnnotationMissed` | src/format_validator.py:48-80 | a config holding only a module-level `domain: str = 'maze'` gets the CRITICAL "Could not extract" issue |
| `Format.DomainFormatIssues` | src/format_validator.py:83-100 | one CRITICAL exactly when the name fails `^[a-z][a-z0-9_]*$`, one WARNING exactly when it starts or ends with `_`; none exactly when neither |
| `Format.UnderscoreCases` | src/format_validator.py:85-94 | a leading underscore always fails the pattern too; a valid name can draw the warning only by a trailing underscore |
| `Format.TrailingNewlineAccepted` | src/format_validator.py:85 | a well-shaped name followed by a newline passes the pattern |
| `Format.LowercaseNameAccepted` | src/format_validator.py:83-100 | `maze` draws no issue |
| `Format.CapitalisedNameRejected` | src/format_validator.py:85-92 | `Maze` draws only the CRITICAL format issue |
| `Format.LeadingUnderscoreRejected` | src/format_validator.py:83-100 | `_maze` draws the CRITICAL and the WARNING |
| `Format.TrailingUnderscoreWarned` | src/format_validator.py:94-100 | `maze_` draws only the WARNING |
| `Format.TaskIdIssues` | src/format_validator.py:102-135 | without `core/base_generator.py` one WARNING; otherwise the format issue exactly when neither identifier spelling occurs and the start-index issue exactly when either loop header occurs, each at most once, and every issue CRITICAL |
| `Format.TaskIdCritical` | src/format_validator.py:102-135 | task-identifier checks raise no CRITICAL exactly when the file is absent, or it has an identifier spelling and no objectionable loop header |
| `Format.ZeroBasedLoopFlagged` | src/format_validator.py:128-135 | a text containing `range(num_samples)` is flagged as starting from 1 |
| `Format.AbsentNames` | src/format_validator.py:155-157 | the names reported missing are exactly the listed names the writer's text does not contain |
| `Format.AuxIssues` | src/format_validator.py:155-163 | one WARNING per missing output name, in list order |
| `Format.AuxIssueFor` | src/format_validator.py:155-163 | a name's WARNING is present exactly when the name is listed and absent from the text; the WARNING count is the number of such names and none is CRITICAL |
| `Format.AuxIssueInjective` | src/format_validator.py:161 | different names give different warnings |
| `Format.OutputNamingIssues` | src/format_validator.py:137-163 | nothing without the writer; otherwise the video-name CRITICAL exactly when `ground_truth.mp4` is not mentioned, the warning for a name exactly when it is one of the three expected names and not mentioned, and one issue per such finding |
| `Format.OutputNamingCounts` | src/format_validator.py:137-163 | the naming checks raise no CRITICAL exactly when the writer is absent or names `ground_truth.mp4`; one WARNING per missing output name |
| `Format.Entries` | src/format_validator.py:172 | at most one entry per line |
| `Format.EntriesComplete` | src/format_validator.py:172 | every non-blank line not starting with `#` contributes its stripped text |
| `Format.EntriesSound` | src/format_validator.py:172 | every entry is the stripped, non-empty text of such a line |
| `Format.Unpinned` | src/format_validator.py:175 | the unpinned entries are exactly the non-empty entries without `==` |
| `Format.Take3` | src/format_validator.py:180 | `[:3]` keeps the first three, or all when fewer |
| `Format.RequirementsIssues` | src/format_validator.py:165-183 | at most one WARNING, listing the first three unpinned entries, present exactly when the file exists and some line is an unpinned requirement |
| `Format.UnpinnedIffLine` | src/format_validator.py:172-176 | there is an unpinned entry exactly when some line is a non-comment, non-blank line without `==` |
| `Format.IndentedCommentReported` | src/format_validator.py:172-183 | an indented comment line is reported as an unpinned dependency |
| `Format.DomainPartCritical` | src/format_validator.py:18-22 | the lookup and spelling parts raise no CRITICAL exactly when a domain was extracted and, if non-empty, is well spelt |
| `Format.StepIssuesCritical` | src/format_validator.py:13-38 | the step's issues hold no CRITICAL exactly when the format is acceptable, stated without reference to the issues |
| `Format.Validate` | src/format_validator.py:13-38 | "Code Format Check" passes exactly when it has no CRITICAL issue and exactly when the format is acceptable; the details carry the extracted domain; a parse error escapes |
| `Output.SetupWarnings` | src/output_validator.py:146-163 | at most one WARNING, present exactly when a `setup.py` exists and its install failed |
| `Output.RunGeneratorIsolated` | src/output_validator.py:112-183 | a missing script launches nothing and reports one CRITICAL; the run succeeds exactly when the script exists, the dependencies (if any) installed and the script exited with 0 |
| `Output.RunIssuesShape` | src/output_validator.py:112-183 | a failed run ends with exactly one CRITICAL issue after at most non-CRITICAL ones; a successful run has at most the package-install WARNING |
| `Output.SetupFailureContinues` | src/output_validator.py:146-163 | a failed package install is only a WARNING and the generator still runs |
| `Output.DepsFailureAborts` | src/output_validator.py:126-144 | a failed dependency install reports one CRITICAL and launches nothing further |
| `Output.InstallStagesOrdered` | src/output_validator.py:126-172 | install stages run in order, each at most once; dependencies exactly when a requirements file exists; the run exactly when their install did not fail |
| `Output.Candidates` | src/output_validator.py:188-193 | four candidate directories with a domain, two without; the last two are `data/questions` and `data` |
| `Output.FirstUsable` | src/output_validator.py:195-196 | the first candidate that exists and is not empty; none exactly when no candidate is |
| `Output.FirstUsableFrom` | src/output_validator.py:195-196 | the first usable candidate at or after a position; none exactly when no later candidate is usable |
| `Output.TaskDirNames` | src/output_validator.py:199 | every sub-directory whose name contains `_task` and nothing else, the first being the first such directory listed |
| `Output.Filter` | src/output_validator.py:199 | keeps every listed name containing `_task` and nothing else, and the first kept is the first such name |
| `Output.FilterConcat` | src/output_validator.py:199 | the filter distributes over concatenation, which with `Output.FilterOne` fixes order and repetitions |
| `Output.FilterOne` | src/output_validator.py:199 | one name is kept exactly when it contains `_task` |
| `Output.FindOutputDir` | src/output_validator.py:185-204 | none exactly when no candidate is usable; a usable `questions` or `data` hit with a `_task` sub-directory gives its first such sub-directory in listing order, and any other hit is returned itself |
| `Output.DirEntryIsDir` | src/output_validator.py:199-201 | a directory the listing reports exists |
| `Output.VideoIssues` | src/output_validator.py:312-355 | an unopenable video is one CRITICAL, a probe error one WARNING; otherwise a WARNING exactly when longer than 10.5 s and a CRITICAL exactly when it has no frames |
| `Output.VideoDurationExamples` | src/output_validator.py:327-339 | at 30 fps, 330 frames draw the length WARNING and 300 frames draw nothing |
| `Output.SampleFileOutcome` | src/output_validator.py:264-279 | a required sample file draws one CRITICAL exactly when missing or empty, with the source's messages |
| `Output.SampleFileIssues` | src/output_validator.py:263-279 | the required-file checks are all CRITICAL and find nothing exactly when every required file exists and is non-empty |
| `Output.SampleIssueNamesInjective` | src/output_validator.py:263-279 | equal sample-file issues name equal files, and a missing-file issue is never an empty-file issue |
| `Output.SampleFileIssuesSound` | src/output_validator.py:263-279 | a missing-file or empty-file issue for a name is reported only when that file is in that state |
| `Output.SampleFileIssuesComplete` | src/output_validator.py:263-279 | every missing or empty required file has its issue reported |
| `Output.SampleFileIssuesPerFile` | src/output_validator.py:263-279 | each required file has its own missing-file CRITICAL exactly when absent and its own empty-file CRITICAL exactly when empty |
| `Output.SampleIdIssues` | src/output_validator.py:243-261 | with a domain, one CRITICAL exactly when the name lacks `domain_` and one WARNING exactly when removing `domain_` leaves something other than digits; nothing without a domain |
| `Output.WellNamedSample` | src/output_validator.py:243-261 | `domain_` followed by digits draws no identifier issue |
| `Output.GoalIssues` | src/output_validator.py:281-292 | one WARNING exactly when neither `final_frame.png` nor `goal.txt` exists |
| `Strings.WordsCount` | src/output_validator.py:303 | `split()` returns one word per word start: a non-whitespace character at the start of the text or after whitespace. So the word count is the number of maximal non-whitespace runs |
| `Strings.LeadingSpace` | src/output_validator.py:303 | leading whitespace adds no word start |
| `Strings.LeadingWord` | src/output_validator.py:303 | the rest of a word adds no word start |
| `Output.PromptIssues` | src/output_validator.py:299-310 | one WARNING exactly when the prompt exists and has more than 200 words |
| `Output.SampleCritical` | src/output_validator.py:239-310 | a sample draws no CRITICAL exactly when its name fits the domain, its required files are present and non-empty, and its video (if any) opens with frames |
| `Output.SampleIdCritical` | src/output_validator.py:243-251 | the identifier checks draw a CRITICAL exactly when a domain is given and the name lacks its prefix |
| `Output.SampleVideoCritical` | src/output_validator.py:294-297 | the video check draws a CRITICAL exactly when the video exists and cannot be opened or has no frames |
| `Output.InspectAllCritical` | src/output_validator.py:234-235 | the inspected samples draw no CRITICAL exactly when every one of them is acceptable |
| `Output.ValidateOutputStructure` | src/output_validator.py:206-237 | the sample directories are reported sorted and complete; none gives one CRITICAL; otherwise a count WARNING when their number differs, then the checks of the first five |
| `Output.Take5` | src/output_validator.py:234 | the first five samples, or all when fewer |
| `Output.StructureCritical` | src/output_validator.py:206-237 | a wrong count is only a WARNING: the sample-set checks find a CRITICAL exactly when there are no samples or an inspected one is not acceptable |
| `Output.CountedInspection` | src/output_validator.py:225-235 | a count WARNING ahead of the inspections neither adds nor hides a CRITICAL issue |
| `Output.Validate` | src/output_validator.py:25-83 | the environment is created first; the environment is removed exactly when the output directory was found; every early exit fails with no samples |
| `Output.ValidatePassedIffNoCritical` | src/output_validator.py:33-77 | "Output Format Check" passes exactly when it has no CRITICAL issue: every early exit carries one |
| `Output.ValidateStagesOrdered` | src/output_validator.py:25-83 | subprocesses start with the environment and follow the fixed order, each at most once |
| `Output.VenvFirst` | src/output_validator.py:29-42 | creating the environment first keeps the order when no later stage creates it |
| `Output.VenvFailure` | src/output_validator.py:29-39 | an environment failure reports one CRITICAL, launches nothing else and keeps the environment |
| `Output.MissingScriptFailure` | src/output_validator.py:114-122 | a missing entry script reports one CRITICAL and launches no install or run |
| `Output.RunFailure` | src/output_validator.py:166-181 | a failed generator run ends with the execution CRITICAL, no samples, and the environment kept |
| `Output.SuccessPath` | src/output_validator.py:68-83 | after the output directory is found, the sample count is the number of sample directories and the step passes exactly when the sample-set checks find no CRITICAL |
| `Output.NoCriticalLast` | src/output_validator.py:77 | a list ending with a CRITICAL issue does not pass |
| `Engine.ProjectDirs` | src/verification_engine.py:105-111 | the project directories are exactly the listed ones that are not hidden, `__MACOSX` or `__pycache__` |
| `Engine.ExtractionRoot` | src/verification_engine.py:113-116 | the root is a lone project directory at top level when there is exactly one, else the extraction directory |
| `Engine.NotProjectDirs` | src/verification_engine.py:108-110 | `.git`, `__MACOSX` and `__pycache__` are never the project |
| `Engine.LoneProjectDirIsRoot` | src/verification_engine.py:105-115 | one project directory beside `.git` and `__MACOSX` becomes the root |
| `Engine.TwoProjectDirsKeepTarget` | src/verification_engine.py:114-116 | two project directories leave the extraction directory as the root |
| `Engine.Assemble` | src/verification_engine.py:49-95 | three steps, the structure and format results first; the domain is the format step's; the temporary directory is removed |
| `Engine.DetailsDomain` | src/verification_engine.py:62 | `details.get("domain")` is the format result's domain and none for other details |
| `Engine.ExtractionFailureShape` | src/verification_engine.py:34-47 | an unreadable archive gives one failed "Extraction" step with one CRITICAL issue, no domain, no subprocess, and the temporary directory left |
| `Engine.ParseErrorEscapes` | src/verification_engine.py:58-63 | a parse error in the format step ends the run without a result, a subprocess or clean-up |
| `Engine.StepsInOrder` | src/verification_engine.py:49-95 | after unpacking there are exactly three steps, structure then format, the domain is the format step's, and the directory is removed |
| `Engine.AssembleThirdStep` | src/verification_engine.py:65-81 | subprocesses run exactly when both earlier steps passed; the third step is the output result or the skipped stand-in; the run passes exactly when all three passed |
| `Engine.OutputInvokedIff` | src/verification_engine.py:65-81 | the generator is run exactly when both earlier steps passed; otherwise the third step is the skipped stand-in |
| `Engine.SkippedStepShape` | src/verification_engine.py:71-81 | the stand-in is a failed "Output Format Check" with one INFO issue, adding to the total only |
| `Engine.PassedMeansOutputRan` | src/verification_engine.py:66-88 | a passing run unpacked its archive, passed both earlier steps, and ran the output step successfully |
| `Engine.PassedIffNoCritical` | src/verification_engine.py:87-95 | a finished run passes exactly when its `critical_issues` is zero |
| `Engine.AssembleCritical` | src/verification_engine.py:65-88 | when each step passes exactly without CRITICAL issues, the assembled run passes exactly when its CRITICAL count is zero |

## Left out

- The archive format, `tempfile`, `shutil.rmtree` and the file system are not modelled. The archive is its unpacked entry list, and removal is a flag on the result.
- The order of the missing-directory, missing-file, empty-file and sample-file issues within each kind is not modelled. The source takes it from set iteration (hash order), while the model uses the written order. Which issues appear, and how many, does not depend on it.
- Listing-order details beyond enumeration order are not modelled, and the absolute temporary-directory prefix of paths is left out.
- Subprocess timeouts are left out. `TimeoutExpired` is not caught by the source and would escape the run; the model has only exit codes and error text.
- The venv's Python path for each platform is not modelled, because it only chooses a command line.
- OpenCV is a probe parameter. `fps` is a real number, and floating-point rounding of `frames / fps` is not modelled.
- `Output.OneDecimal`: `.1f` formatting rounds halves up here, while Python rounds the binary value. The text can differ at exact ties.
- `ConfigAst.ItemDomain`: only string and `None` constants are modelled. A numeric constant under `domain` would flow through the source as a non-string.
- Reading a directory as text, or listing a file, raises in the source. The model reads a directory as empty text and lists nothing under a file.
- Text decoding errors are left out, as are `errors="ignore"` in the residue scan.
- A domain containing `/` is one path component here, whereas `pathlib` would split it into several.
- Logging, `_print_step_result`, `src/report_generator.py`, `vm_verify.py` and `setup.py` are left out. They are presentation and command-line code outside the decision core.
- `Output.SampleIdIssues`: only the ASCII digits `0`-`9` are recognised. Python's `isdigit` also accepts other Unicode digits, such as Arabic-Indic or full-width ones, so a sample named `maze_` followed by such digits draws the non-standard-format WARNING here but not in the source.
- `Engine.Verify`: parser errors in `src/config.py` are modelled as escaping the run. This follows the code, where `ast.parse` is called outside any `try`. The fallback patterns are sometimes described as the recovery from a failed parse. In the code they run only after a successful parse that found no class-level domain.
