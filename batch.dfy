/**
  The batch runner of scripts/batch_extract.py: `process_batch` runs the
  extractions of a plan one after another on the file system the earlier ones
  left, and `main` counts the successes and failures and picks the exit code.
*/
module BatchExtract {
  import opened Wrappers
  import opened PyText
  import opened Extractor

  /** One extraction of a plan; `mode` is absent when the plan leaves it out. */
  datatype PlanEntry = PlanEntry(source: Path, target: Path, start: int, end: int, mode: Option<string>)

  /** `{"extraction": ..., "result": ...}`. */
  datatype BatchItem = BatchItem(extraction: PlanEntry, result: Outcome)

  /** The call `process_batch` makes: the mode defaults to "copy" and
      `create_dirs` keeps its default, true. */
  function RequestOf(e: PlanEntry): Request {
    Request(e.source, e.target, e.start, e.end, if e.mode.Some? then e.mode.value else "copy", true)
  }

  /** The disk after a run and the results so far. */
  datatype Run = Run(disk: Disk, items: seq<BatchItem>)

  /** The run of a plan: each extraction on the disk the previous ones left. */
  function RunPlan(d: Disk, acc: Access, plan: seq<PlanEntry>): (run: Run)
    ensures |run.items| == |plan|
    ensures forall i :: 0 <= i < |plan| ==> run.items[i].extraction == plan[i]
    decreases |plan|
  {
    if plan == [] then Run(d, [])
    else
      var before := RunPlan(d, acc, plan[..|plan| - 1]);
      var e := plan[|plan| - 1];
      var st := Extract(before.disk, acc, RequestOf(e));
      Run(st.disk, before.items + [BatchItem(e, st.outcome)])
  }

  /** `process_batch(extractions)`. */
  method ProcessBatch(fs: FileSystem, extractions: seq<PlanEntry>) returns (results: seq<BatchItem>)
    modifies fs
    ensures Run(fs.Snapshot(), results) == RunPlan(old(fs.Snapshot()), fs.access, extractions)
  {
    ghost var d := fs.Snapshot();
    results := [];
    for i := 0 to |extractions|
      invariant Run(fs.Snapshot(), results) == RunPlan(d, fs.access, extractions[..i])
    {
      assert extractions[..i + 1][..i] == extractions[..i];
      var extraction := extractions[i];
      var result := fs.ExtractLines(extraction.source, extraction.target, extraction.start, extraction.end,
                                    if extraction.mode.Some? then extraction.mode.value else "copy", true);
      results := results + [BatchItem(extraction, result)];
    }
    assert extractions[..|extractions|] == extractions;
  }

  // ---------------------------------------------------------------------------
  // Properties of a run

  /** The run over a prefix of the plan is the beginning of the run over the
      whole plan. */
  lemma {:induction false} RunPrefix(d: Disk, acc: Access, plan: seq<PlanEntry>, n: nat)
    requires n <= |plan|
    ensures RunPlan(d, acc, plan[..n]).items == RunPlan(d, acc, plan).items[..n]
    decreases |plan| - n
  {
    if n < |plan| {
      RunPrefix(d, acc, plan, n + 1);
      assert plan[..n + 1][..n] == plan[..n];
    } else {
      assert plan[..n] == plan;
    }
  }

  /** The `i`-th result is the extraction of the `i`-th request on the disk the
      first `i` requests left, whatever they returned: a failed request does not
      stop the ones after it. */
  lemma Sequential(d: Disk, acc: Access, plan: seq<PlanEntry>, i: nat)
    requires i < |plan|
    ensures var before := RunPlan(d, acc, plan[..i]).disk;
      var st := Extract(before, acc, RequestOf(plan[i]));
      && RunPlan(d, acc, plan).items[i] == BatchItem(plan[i], st.outcome)
      && RunPlan(d, acc, plan[..i + 1]).disk == st.disk
  {
    RunPrefix(d, acc, plan, i + 1);
    var prefix := plan[..i + 1];
    assert prefix[..|prefix| - 1] == plan[..i] && prefix[|prefix| - 1] == plan[i];
    var before := RunPlan(d, acc, plan[..i]);
    var st := Extract(before.disk, acc, RequestOf(plan[i]));
    assert RunPlan(d, acc, prefix) == Run(st.disk, before.items + [BatchItem(plan[i], st.outcome)]);
  }

  /** A request whose checks fail leaves the disk of the next request as it
      found it. */
  lemma FailedCheckChangesNothing(d: Disk, acc: Access, plan: seq<PlanEntry>, i: nat)
    requires i < |plan|
    requires Validate(RunPlan(d, acc, plan[..i]).disk, acc, RequestOf(plan[i])).Err?
    ensures RunPlan(d, acc, plan[..i + 1]).disk == RunPlan(d, acc, plan[..i]).disk
    ensures RunPlan(d, acc, plan).items[i].result.Failed?
  {
    Sequential(d, acc, plan, i);
    FailuresBeforeWrites(RunPlan(d, acc, plan[..i]).disk, acc, RequestOf(plan[i]));
  }

  /** A plan entry without a mode copies: it leaves every file but its target
      as it was. */
  lemma DefaultModeCopies(d: Disk, acc: Access, e: PlanEntry)
    requires e.mode.None?
    ensures RequestOf(e).createDirs && !IsMove(RequestOf(e).mode)
    ensures var files := Extract(d, acc, RequestOf(e)).disk.files;
      forall p :: p != e.target ==> (p in files <==> p in d.files) && (p in d.files ==> files[p] == d.files[p])
  {
    OtherFilesUnchanged(d, acc, RequestOf(e));
  }

  /** A successful move shifts the lines after the moved range up for the
      requests that follow: the source the next request sees is the source
      this one saw without the moved lines. */
  lemma MoveShiftsLaterLines(d: Disk, acc: Access, plan: seq<PlanEntry>, i: nat)
    requires i < |plan|
    requires plan[i].mode == Some("move") && plan[i].source != plan[i].target
    requires RunPlan(d, acc, plan).items[i].result.Extracted?
    ensures var before, after := RunPlan(d, acc, plan[..i]).disk, RunPlan(d, acc, plan[..i + 1]).disk;
      var r := RunPlan(d, acc, plan).items[i].result;
      && plan[i].source in before.files && plan[i].source in after.files
      && r.linesExtracted == r.rangeEnd - r.rangeStart + 1
      && LinesRemoved(SplitLines(before.files[plan[i].source]), SplitLines(after.files[plan[i].source]),
                      r.rangeStart, r.rangeEnd)
  {
    Sequential(d, acc, plan, i);
    MoveRemovesRange(RunPlan(d, acc, plan[..i]).disk, acc, RequestOf(plan[i]));
  }

  // ---------------------------------------------------------------------------
  // The summary of main

  /** `sum(1 for r in results if r["result"].get("success"))`. */
  function CountSuccessful(items: seq<BatchItem>): (n: nat)
    ensures n <= |items|
    ensures n == |items| <==> forall i :: 0 <= i < |items| ==> items[i].result.Extracted?
    decreases |items|
  {
    if items == [] then 0
    else
      var rest := CountSuccessful(items[..|items| - 1]);
      assert forall i :: 0 <= i < |items| - 1 ==> items[..|items| - 1][i] == items[i];
      rest + (if items[|items| - 1].result.Extracted? then 1 else 0)
  }

  datatype Summary = Summary(successful: nat, failed: int, exitCode: int)

  /** The counts `main` prints and the exit status it ends with. */
  function Summarize(items: seq<BatchItem>): (s: Summary)
    ensures s.successful + s.failed == |items| && 0 <= s.failed
    ensures s.exitCode == (if s.failed > 0 then 1 else 0)
    ensures s.exitCode == 0 <==> forall i :: 0 <= i < |items| ==> items[i].result.Extracted?
  {
    var successful := CountSuccessful(items);
    var failed := |items| - successful;
    Summary(successful, failed, if failed > 0 then 1 else 0)
  }

  /** The successes are the results that are not errors. */
  lemma {:induction false} CountsPartition(items: seq<BatchItem>)
    ensures CountSuccessful(items) == |items| - |set i | 0 <= i < |items| && items[i].result.Failed?|
    decreases |items|
  {
    if items != [] {
      var n := |items|;
      var init := items[..n - 1];
      CountsPartition(init);
      var failedInit := set i | 0 <= i < n - 1 && init[i].result.Failed?;
      var failedAll := set i | 0 <= i < n && items[i].result.Failed?;
      assert forall i :: 0 <= i < n - 1 ==> init[i] == items[i];
      if items[n - 1].result.Failed? {
        assert failedAll == failedInit + {n - 1};
      } else {
        assert failedAll == failedInit;
      }
    }
  }
}
