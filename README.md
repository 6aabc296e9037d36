# Line-range file splitting: a Dafny model

The repository has three Python tools for cutting large source files into
smaller ones.

- `scripts/analyze_splits.py` scans a code file in one pass. It records the
  function definitions, class definitions, import span and comment section
  markers it finds. `suggest_splits` then turns that analysis into a plan of
  line chunks, either aligned with the classes and functions or of a fixed size.
- `scripts/extract_lines.py` copies or moves a line range from a source file to
  a target file. It checks permissions first, creates directories if needed,
  and appends to a target that already exists.
- `scripts/batch_extract.py` runs a plan of such extractions one after another,
  counts the successes and failures, and sets the exit status.

This project models those operations and proves what they promise.

- `wrappers.dfy` (`Wrappers`): `Option`, `Result`, `Min`, `Max`.
- `pytext.dfy` (`PyText`): the Python text operations the tools rely on.
  These are `str.strip` with Python's whitespace set, ASCII `lower`,
  `readlines` as `SplitLines` and `writelines` as `Join`.
  `SplitLines` and `Join` come with the read-back lemma.
- `analyzer.dfy` (`Analyzer`): `analyze_file`.
  - The loop is a method, `ScanLines`, proved equal to the functions `Scan` and
    `Imports`.
  - Regular-expression matching is a parameter: a `Matcher` says whether a
    pattern matches a line and which groups it captures.
  - Everything around the matching is concrete: the extension table, skipping
    blank and comment lines, the import span, the 50-character truncation and
    the name picked from the capture groups.
- `split_planner.dfy` (`SplitPlanner`): `suggest_splits`.
  - The method `SuggestSplits` uses loops (`CollectBreaks`, `WalkBreaks`,
    `SizeSplits`) and is proved equal to the function `Suggest`.
  - Lemmas state what the plan means: the chunks are consecutive and cover
    every line of the file exactly once, except the last line when the break
    loop's open chunk starts on it, which requires a class or function on the
    last line. The break loop is greedy, and the sort is a stable permutation.
- `extractor.dfy` (`Extractor`): `extract_lines` over a model file system.
  - The class `FileSystem` holds a map from paths to decoded text and a set of
    directories. Its method `ExtractLines` is proved equal to the function
    `Extract`.
  - Permission checks and operating-system failures are a fixed oracle,
    `Access`: the paths `os.access(_, W_OK)` accepts, the files that can be
    read, and the paths whose writes fail.
  - Lemmas cover the order of the error checks and the success report. They
    also cover the target's new text, how a move changes the source and which
    files stay unchanged.
- `batch.dfy` (`BatchExtract`): `process_batch` as a loop over a
  `FileSystem`, proved equal to the function `RunPlan`, plus the summary
  counts and exit code of `main`.

Two consequences of the code that a reader might not expect:

- A file no longer than the target size gives an empty plan, not a
  single-chunk plan.
- The break-aligned plan does not snap back to an earlier marker. With markers
  on lines 1, 198, 205 and 402 of a 500-line file and a target of 200, the
  code yields lines 1-204 and 205-500 (`SplitPlanner.MarkersExample`).

The three places where the code does something its authors evidently did not
intend are listed under "## Findings". For each one, the operation's model
keeps the behaviour as written, and a lemma exhibits it on a concrete input.
A separate definition states the evidently intended behaviour and carries the
property the code misses; no operation of the model calls it.

## Model

| member | source | states |
|---|---|---|
| PyText.StripShape | scripts/analyze_splits.py:67 | `strip` removes exactly a run of leading and a run of trailing whitespace; a non-empty result starts and ends with a non-space, and the result is empty exactly when the line is all whitespace |
| PyText.StripEnds | scripts/analyze_splits.py:67 | a non-empty stripped text starts and ends with a non-whitespace character |
| PyText.Lower | scripts/analyze_splits.py:40 | the suffix keeps its length and each ASCII capital becomes its lower-case letter |
| PyText.SplitLines | scripts/analyze_splits.py:27-28 | the lines `readlines` yields join back to the text; none is empty; each ends with a newline except possibly the last, and only there; no lines exactly for empty text |
| PyText.SplitJoin | scripts/extract_lines.py:129-130 | lines of the shape `readlines` yields, written with `writelines`, read back as the same lines |
| Analyzer.FamilyOf | scripts/analyze_splits.py:40-59 | the suffix, compared case-insensitively, picks the pattern family: ".py" and only it selects the Python patterns; ".js", ".jsx", ".ts", ".tsx" and only they the script patterns; ".java" and only it the Java patterns; every other suffix the generic patterns |
| Analyzer.Truncated | scripts/analyze_splits.py:90 | the definition text is the stripped line when it has at most 50 characters, otherwise its first 50 characters followed by "..." |
| Analyzer.PickName | scripts/analyze_splits.py:86 | as written: the first group that is present, non-empty and not in the exclusion list, compared without stripping, or "unknown" when there is none |
| Analyzer.PickIdentifier | scripts/analyze_splits.py:86 | as intended: the stripped text of the first group that is not blank and not in the keyword list, or "unknown" when there is none |
| Analyzer.PickedNameIsWord | scripts/analyze_splits.py:86 | a name the intended pick yields is "unknown" or a non-blank word, without whitespace at either end, that is not in the keyword list |
| Analyzer.PicksAgreeOnStrippedGroups | scripts/analyze_splits.py:86-96 | when no present group has whitespace around it, the intended pick and the pick as written give the same name, so `def public():` keeps the name "public" |
| Analyzer.EntryAt | scripts/analyze_splits.py:69-108 | a line contributes an entry only when it is not blank or a comment; the entry carries that line's number; the section rule yields section markers and the other rules definitions |
| Analyzer.TrackImports | scripts/analyze_splits.py:74-80 | an import line opens the span if none is open and moves its end to that line; any other line leaves the span; the started flag is set exactly when the span has a start |
| Analyzer.AddDefinition | scripts/analyze_splits.py:83-101 | the list grows by one definition exactly when the pattern matches the line, named by the pick as written among the groups with the rule's exclusion list |
| Analyzer.ScanLine | scripts/analyze_splits.py:67-108 | one pass of the loop: a blank or comment line changes nothing; otherwise each list grows by what the line contributes to it and the import span moves as that line demands |
| Analyzer.ScanLines | scripts/analyze_splits.py:66-108 | the loop over the lines, numbered from 1, yields for each rule the entries of the lines it fires on, and the import span |
| Analyzer.AnalyzeFile | scripts/analyze_splits.py:12-110 | a missing file gives the not-found error; an existing one gives the report with its path, its number of lines and the scanned lists and span |
| Analyzer.ScanOrdered | scripts/analyze_splits.py:83-108 | every entry of a list is the contribution of the line it names, and the entries come in strictly increasing line order |
| Analyzer.ScanComplete | scripts/analyze_splits.py:83-108 | every line a rule fires on has its entry in that rule's list |
| Analyzer.SkippedLineHasNoEntry | scripts/analyze_splits.py:69-71 | no function, class or section entry names a blank or comment line |
| Analyzer.SkippedLineOutsideImports | scripts/analyze_splits.py:69-80 | a blank or comment line is neither the start nor the end of the import span |
| Analyzer.ImportSpanEnds | scripts/analyze_splits.py:74-80 | start and end are both set or both unset; when set, start <= end within the file and both are import lines |
| Analyzer.ImportSpanContains | scripts/analyze_splits.py:74-80 | every import line lies between the start and the end of the import span |
| Analyzer.KeywordGroupTakenAsName | scripts/analyze_splits.py:86-96 | as written, "export class Widget", "async def load" and a Java "static" method are named "export ", "async " and "static" |
| Analyzer.IdentifierAfterKeyword | scripts/analyze_splits.py:86-96 | with the intended pick and the keyword list of the pattern (the rule's exclusion list, plus the modifiers for Java methods), a keyword group ("export ", "async ", "static", with or without its trailing space) followed by an identifier group names the definition by the identifier, so the three definitions above are named "Widget", "load" and "main" |
| SplitPlanner.CollectBreaks | scripts/analyze_splits.py:134-142 | the logical breaks are one per class and then one per function, in the order of the analysis, each at its line and labelled with its kind and name |
| SplitPlanner.SortByLine | scripts/analyze_splits.py:145 | the breaks sorted by line number, with as many breaks as before |
| SplitPlanner.SortByLinePermutes | scripts/analyze_splits.py:145 | the sort is a permutation of the breaks |
| SplitPlanner.SortByLineStable | scripts/analyze_splits.py:145 | breaks that share a line keep their relative order, as Python's sort does |
| SplitPlanner.FloorDiv | scripts/analyze_splits.py:175 | Python's `//`: the quotient rounded towards minus infinity, for either sign of the divisor |
| SplitPlanner.WalkBreaks | scripts/analyze_splits.py:148-161 | the loop over the sorted breaks yields the closed chunks and the start of the open one |
| SplitPlanner.SizeSplits | scripts/analyze_splits.py:174-184 | the size-based loop yields `num_chunks` chunks, chunk i spanning lines i*target+1 to min((i+1)*target, total) |
| SplitPlanner.SuggestSplits | scripts/analyze_splits.py:113-186 | `suggest_splits`: an empty plan for an error analysis or a file no longer than the target, the break-aligned plan when there are breaks (its final chunk only when the open chunk starts before the last line), the size-based plan otherwise, and the division error for a zero target with no breaks |
| SplitPlanner.TilesPartition | scripts/analyze_splits.py:155-170 | tiling chunks are in order, do not overlap, have consistent line counts and cover exactly the lines from the first to the last |
| SplitPlanner.WalkTiles | scripts/analyze_splits.py:152-161 | for a positive target the closed chunks tile the lines before the open chunk, and each holds at least `target` lines |
| SplitPlanner.WalkClosed | scripts/analyze_splits.py:154-160 | each closed chunk ends on the line before a break and is described as the section before that break's label |
| SplitPlanner.WalkReach | scripts/analyze_splits.py:152-161 | with sorted breaks, every break lies less than `target` lines past the start of the open chunk |
| SplitPlanner.WalkGreedy | scripts/analyze_splits.py:154 | with sorted breaks, no break lies between `target` lines past a chunk's start and that chunk's end: each chunk closes at the first break far enough away |
| SplitPlanner.WalkCurrentAtBreak | scripts/analyze_splits.py:148-161 | the open chunk starts on line 1 or on the line of one of the breaks |
| SplitPlanner.WalkCurrentBound | scripts/analyze_splits.py:161 | the open chunk never starts past the last line when every break lies in the file |
| SplitPlanner.WrittenBreakAlignedCoverage | scripts/analyze_splits.py:163-170 | as written, the plan covers the file exactly once when the open chunk starts before the last line, and misses the last line when it starts on it |
| SplitPlanner.BreakAlignedTiles | scripts/analyze_splits.py:163-170 | with the final chunk emitted whenever the open chunk holds a line, the break-aligned plan covers every line exactly once |
| SplitPlanner.FinalLineDropped | scripts/analyze_splits.py:164 | a 401-line file with breaks on lines 201 and 401: the plan as written ends at line 400; the intended plan adds the chunk 401-401 |
| SplitPlanner.MarkersExample | scripts/analyze_splits.py:148-170 | breaks on lines 1, 198, 205, 402 of 500 lines with target 200 give the chunks 1-204 and 205-500 |
| SplitPlanner.SizeChunksShape | scripts/analyze_splits.py:174-184 | the size-based plan has ceil(total/target) chunks, numbered 1 to that count, each of 1 to `target` lines, covering the file exactly once |
| SplitPlanner.SuggestOutcomes | scripts/analyze_splits.py:124-175 | an error analysis or a file no longer than the target gives the empty plan; the division error occurs exactly for a zero target, a non-empty file and no classes or functions |
| SplitPlanner.SortedBreaksBound | scripts/analyze_splits.py:134-145 | sorting keeps every break within the file |
| SplitPlanner.SuggestCoverage | scripts/analyze_splits.py:113-186 | for a positive target smaller than the file, with the definitions inside the file, the plan covers every line exactly once or every line but the last; all of them unless a class or function starts on the last line |
| SplitPlanner.SortedBreakStarts | scripts/analyze_splits.py:134-145 | every sorted break stands on the line of some class or function |
| SplitPlanner.AnalysisInFile | scripts/analyze_splits.py:66-108 | every class and function of an analysis lies on a line of the file, and the line count is that of `readlines` |
| SplitPlanner.PlanForFile | scripts/analyze_splits.py:113-186 | for every target from 1 up to its length minus one, the plan for the analysis of any file's text covers every line exactly once, or every line but the last; all of them unless a class or function starts on the last line |
| Extractor.MakeDirs | scripts/extract_lines.py:86 | creating the directory path leaves the files alone, makes the path a directory, keeps every existing directory and adds exactly the non-empty prefixes of the path |
| Extractor.ExistingAncestorSpec | scripts/extract_lines.py:71-75 | walking up the parents stops at the longest existing prefix of the directory path |
| Extractor.Extract | scripts/extract_lines.py:13-147 | `extract_lines` on a model disk: a failed check is reported with its error and changes nothing; a success implies every check passed; no file but the target can be created |
| Extractor.NeedsNewline | scripts/extract_lines.py:96-102 | the separator check as written: it asks for a newline only when the text's last line is open, and it declines one for an open last line only when the last character is outside ASCII |
| Extractor.Validate | scripts/extract_lines.py:31-81 | the checks before any write, in their order; when they pass, the source is a file, the range starts at `start_line` and ends at `end_line` clamped to the line count |
| Extractor.FileSystem.ExtractLines | scripts/extract_lines.py:13-147 | the new files and directories and the result are those of the extraction from the old ones |
| Extractor.FileSystem.Check | scripts/extract_lines.py:31-81 | the checks, including the loop up the parents, return the first error or the selection, without changing anything |
| Extractor.FileSystem.Write | scripts/extract_lines.py:83-138 | the directory creation, the target write and the source rewrite, each stopping at its failure |
| Extractor.FailuresBeforeWrites | scripts/extract_lines.py:31-122 | a failed check or directory creation changes nothing; a failed target write changes no file |
| Extractor.RangeChecks | scripts/extract_lines.py:32-57 | a missing source is the first error; a start outside 1 to the line count and an end before the start are rejected in that order |
| Extractor.SuccessReport | scripts/extract_lines.py:140-147 | on success, the range starts at `start_line`, ends at the clamped end within the file, and the count is the range's length; the target is appended to exactly when it existed; the source loses the lines exactly in move mode |
| Extractor.ExtractedLines | scripts/extract_lines.py:60 | the extracted lines are the source lines from `start_line` to the clamped end, in `readlines` shape |
| Extractor.CreatedTarget | scripts/extract_lines.py:114-117 | a new target holds exactly the extracted text and reads back as the extracted lines |
| Extractor.AppendedTarget | scripts/extract_lines.py:93-112 | an existing target keeps its text, followed by a newline when it is readable and the check finds that its last character is not one, followed by the extracted text |
| Extractor.AppendedReadsBack | scripts/extract_lines.py:107-111 | a readable appended target whose text is empty or ends with a newline or an ASCII character reads back as its old lines, the last one closed, followed by the extracted lines |
| Extractor.OtherFilesUnchanged | scripts/extract_lines.py:13-147 | no file but the target, and the source in move mode, is created, removed or changed |
| Extractor.MoveWritesRemaining | scripts/extract_lines.py:125-131 | a successful move writes back the source lines outside the reported range |
| Extractor.MoveRemovesRange | scripts/extract_lines.py:125-131 | after a successful move the source lines are the old ones without the reported range: those before keep their place, those after move up |
| Extractor.MoveReconstructs | scripts/extract_lines.py:125-131 | the text before, the extracted text and the text after make up the old source, and the new source is the first and last of these |
| Extractor.SourceFailureAfterTargetWrite | scripts/extract_lines.py:124-136 | when rewriting the source fails, the target already ends with the extracted text and the source is as it was |
| Extractor.ExtractKeepsWellFormed | scripts/extract_lines.py:83-138 | the file system stays well formed: every file and directory lies in a directory, and no path is both |
| Extractor.MakeDirsKeepsWellFormed | scripts/extract_lines.py:84-88 | creating the parents of a path no file blocks keeps the file system well formed |
| Extractor.PrefixesAre | scripts/extract_lines.py:86 | the directories `mkdir(parents=True)` creates for a path are exactly the non-empty paths it starts with |
| Extractor.TargetDirectoryExists | scripts/extract_lines.py:83-88 | no directory disappears, no directory outside the path to the target's directory is created, and after a success the target's directory exists |
| Extractor.AppendLines | scripts/extract_lines.py:94-111 | appending as intended: the result reads back as the old lines, the last one closed by a newline, followed by the new lines |
| Extractor.SeparatorAgrees | scripts/extract_lines.py:95-102 | the newline check as written agrees with the intended one unless the text ends with a non-ASCII character |
| Extractor.MultibyteEndMergesLines | scripts/extract_lines.py:96-102 | as written, appending "x\n" to "café" reads back as the single line "caféx\n" |
| Extractor.MultibyteEndKeptApart | scripts/extract_lines.py:107-111 | appending as intended, the same input reads back as the lines "café\n" and "x\n" |
| BatchExtract.RunPlan | scripts/batch_extract.py:30-44 | a run has one result per plan entry, in order, each with its entry |
| BatchExtract.ProcessBatch | scripts/batch_extract.py:13-51 | the loop gives the results and the file system of the run of the plan on the old file system |
| BatchExtract.RunPrefix | scripts/batch_extract.py:30-44 | the run of a prefix of the plan is the start of the run of the whole plan |
| BatchExtract.Sequential | scripts/batch_extract.py:30-44 | the i-th result is the extraction of the i-th entry on the file system the first i entries left, whatever they returned |
| BatchExtract.FailedCheckChangesNothing | scripts/batch_extract.py:33-44 | an entry whose checks fail is reported as failed and leaves the file system unchanged for the next entry |
| BatchExtract.DefaultModeCopies | scripts/batch_extract.py:38 | an entry without a mode copies, creates directories, and changes no file other than its target |
| BatchExtract.MoveShiftsLaterLines | scripts/batch_extract.py:30-44 | after a successful move, later entries see the source without the moved lines, so the lines after the range have moved up |
| BatchExtract.CountSuccessful | scripts/batch_extract.py:95 | the success count is at most the number of results, and equals it exactly when every result succeeded |
| BatchExtract.Summarize | scripts/batch_extract.py:94-102 | successes plus failures equal the number of results; the exit status is 1 when something failed and 0 exactly when everything succeeded |
| BatchExtract.CountsPartition | scripts/batch_extract.py:95-96 | the successes are the results that are not errors |

## Left out

- Regular expressions: matching is the `Matcher` parameter. The patterns' own
  behaviour (which lines they match and what they capture) is not modelled.
  Only its consequences for the name pick are shown on concrete groups.
- `Path.suffix` is a parameter of `Analyzer.AnalyzeFile`, because the path
  library is not modelled. Paths in `Extractor` are sequences of components
  under the working directory, which always exists. Absolute paths, `..`,
  symbolic links and the path string in the report are not modelled.
- `PyText.Lower`: does not lower-case letters outside ASCII, because only ASCII
  suffixes select a family.
- File contents are decoded text. Nothing models UTF-8 encoding and decoding,
  undecodable files, newline translation on reading and writing, or the text
  layer's seek cookies. The separator check is modelled by its outcome,
  `Extractor.NeedsNewline`: a newline is added only when the last character
  is ASCII and not a newline.
- `Extractor.AppendedReadsBack`: states the read-back only for a target whose
  text is empty or ends with a newline or an ASCII character. In the other
  case the code glues the first extracted line to the target's last line, as
  `Extractor.MultibyteEndMergesLines` shows.
- `os.access`, unreadable files and failing writes are the fixed oracle
  `Access`. Which write fails does not depend on the write's content. Races
  between the checks and the writes are not modelled.
- `Extractor.FileSystem.Write`: the errno 30 (read-only file system) case and
  every error message are merged into one error value per place of failure.
- `Extractor.SuccessReport`: the `extracted_range` string is represented by
  its two numbers.
- Partial writes: each write either fails before changing the file or
  completes.
- Command-line parsing, JSON plan loading, printing, split-plan file naming
  and `sys.exit` are not modelled; `BatchExtract.Summarize` returns the exit
  status.
- A plan entry with a missing key raises `KeyError`; the model's plan entries
  always have their four keys.
- An analyzed file that exists but cannot be read raises in `analyze_file`;
  `Analyzer.AnalyzeFile` takes the file's text or its absence.
- `SplitPlanner.SuggestCoverage`: proved only for target sizes from 1 to the
  line count minus 1. Smaller or larger target sizes are covered only by
  `SplitPlanner.SuggestOutcomes`.
- The `import_ended` flag of `analyze_file` never affects the result.
  `Analyzer.TrackImports` keeps it but states nothing about it.

## Findings

| source | as written | input that shows it | evidently intended | confidence | as-written member | corrected member |
|---|---|---|---|---|---|---|
| scripts/analyze_splits.py:164 | the final chunk is added only when `current_start < total_lines` | a 401-line file with a class on line 201, a function on line 401 and target 200: the chunks end at line 400 and line 401 belongs to no chunk | every line in exactly one chunk, so the final chunk is added when `current_start <= total_lines` | not executed | SplitPlanner.FinalLineDropped | SplitPlanner.BreakAlignedTiles |
| scripts/analyze_splits.py:86 | the name is the first capture group not in the exclusion list, compared without stripping | `export class Widget` in a `.ts` file is named "export "; `async def load` in a `.py` file is named "async "; a Java method `static void main(` is named "static" | the identifier, skipping the keyword groups after stripping them (for Java methods the modifiers too) | not executed | Analyzer.KeywordGroupTakenAsName | Analyzer.PickIdentifier |
| scripts/extract_lines.py:96-102 | the last character is read by seeking one byte before the end in text mode | appending "x\n" to a target holding "café" adds no newline, because decoding the last byte fails and the error is ignored; the target then reads back as the single line "caféx\n" | a newline whenever the target does not end with one | not executed | Extractor.MultibyteEndMergesLines | Extractor.AppendLines |
