/**
  The line extractor of scripts/extract_lines.py (`extract_lines`): copy or move
  the lines `start..end` (1-based, inclusive) of a source file to a target file,
  creating the target's directories when asked, appending to an existing
  target.

  The file system is a map from paths to decoded text plus a set of
  directories. The permission checks and the failures of the operating system
  are fixed oracles (`Access`): which paths `os.access(_, W_OK)` accepts, which
  paths can be opened for reading, and which paths refuse a write.
*/
module Extractor {
  import opened Wrappers
  import opened PyText

  // ---------------------------------------------------------------------------
  // Paths and the file system

  /** A path as its components below the anchor (the working directory).
      The anchor `[]` is its own parent and always exists. */
  type Path = seq<string>

  function Parent(p: Path): (q: Path)
    ensures p != [] ==> |q| == |p| - 1 && q == p[..|p| - 1]
    ensures p == [] ==> q == []
  {
    if p == [] then [] else p[..|p| - 1]
  }

  /** The file contents (decoded text) and the directories below the anchor. */
  datatype Disk = Disk(files: map<Path, string>, dirs: set<Path>)

  /** `writable`: what `os.access(path, os.W_OK)` accepts; `readable`: the
      files `open(path, 'r')` succeeds on; `failingWrites`: the paths whose
      opening for writing raises `OSError` (a read-only file system, a full
      disk, ...). */
  datatype Access = Access(writable: set<Path>, readable: set<Path>, failingWrites: set<Path>)

  predicate IsDir(d: Disk, p: Path) {
    p == [] || p in d.dirs
  }

  predicate Exists(d: Disk, p: Path) {
    IsDir(d, p) || p in d.files
  }

  /** What the operating system maintains: the anchor is no file, no path is
      both a file and a directory, and everything lies in a directory. */
  predicate WellFormed(d: Disk) {
    && [] !in d.files
    && (forall p :: p in d.files ==> p !in d.dirs)
    && (forall p :: p in d.files ==> IsDir(d, Parent(p)))
    && (forall p :: p in d.dirs ==> IsDir(d, Parent(p)))
  }

  /** `open(path, 'r')` (and reading it) raises. */
  predicate ReadFails(d: Disk, acc: Access, p: Path) {
    IsDir(d, p) || p !in acc.readable
  }

  /** `open(path, 'w')` or `open(path, 'a')` raises `OSError`. */
  predicate WriteFails(d: Disk, acc: Access, p: Path) {
    IsDir(d, p) || !IsDir(d, Parent(p)) || p in acc.failingWrites
  }

  /** `mkdir(parents=True, exist_ok=True)` raises: some part of the directory
      path, or the path itself, is a file. */
  predicate MkdirFails(d: Disk, p: Path) {
    exists k :: 1 <= k <= |p| && p[..k] in d.files
  }

  function Prefixes(p: Path): set<Path> {
    set k | 1 <= k <= |p| :: p[..k]
  }

  /** The prefixes of `p` are the non-empty paths it starts with. */
  lemma PrefixesAre(p: Path)
    ensures forall x :: x in Prefixes(p) <==> x != [] && x <= p
  {
    forall x | x != [] && x <= p
      ensures x in Prefixes(p)
    {
      assert x == p[..|x|];
    }
  }

  /** The disk after `mkdir(parents=True, exist_ok=True)`: the existing
      directories, and every directory on the way down to `p`. */
  function MakeDirs(d: Disk, p: Path): (r: Disk)
    ensures r.files == d.files
    ensures IsDir(r, p)
    ensures forall x :: x in r.dirs <==> x in d.dirs || (x != [] && x <= p)
  {
    assert p != [] ==> p[..|p|] == p && p[..|p|] in Prefixes(p);
    PrefixesAre(p);
    Disk(d.files, d.dirs + Prefixes(p))
  }

  /** The first existing path met walking up from `p` with `parent.parent`. */
  function ExistingAncestor(d: Disk, p: Path): Path
    decreases |p|
  {
    if Exists(d, p) || p == Parent(p) then p else ExistingAncestor(d, Parent(p))
  }

  /** The walk stops at an existing prefix of `p`, and every longer prefix of
      `p` does not exist. */
  lemma {:induction false} ExistingAncestorSpec(d: Disk, p: Path)
    ensures var a := ExistingAncestor(d, p);
      && |a| <= |p| && a == p[..|a|]
      && Exists(d, a)
      && forall k :: |a| < k <= |p| ==> !Exists(d, p[..k])
    decreases |p|
  {
    if !Exists(d, p) && p != Parent(p) {
      ExistingAncestorSpec(d, Parent(p));
      var a := ExistingAncestor(d, p);
      forall k | |a| < k <= |p|
        ensures !Exists(d, p[..k])
      {
        if k < |p| {
          assert p[..k] == Parent(p)[..k];
        } else {
          assert p[..k] == p;
        }
      }
    }
  }

  // ---------------------------------------------------------------------------
  // Requests and outcomes

  datatype Request = Request(source: Path, target: Path, startLine: int, endLine: int,
                             mode: string, createDirs: bool)

  /** Only the exact mode "move" removes the lines from the source; every other
      mode string behaves as "copy". */
  predicate IsMove(mode: string) {
    mode == "move"
  }

  /** The error results, in the order the checks run. */
  datatype ExtractError =
    | SourceNotFound
    | SourceNotWritable
    | SourceDirNotWritable
    | SourceUnreadable
    | InvalidStartLine(total: int)
    | EndBeforeStart
    | TargetDirNotWritable
    | AncestorNotWritable(ancestor: Path)
    | TargetDirMissing
    | TargetFileNotWritable
    | MkdirFailed
    | TargetWriteFailed
    | SourceWriteFailed

  datatype TargetAction = Appended | Created

  datatype SourceAction = RemovedFromSource | KeptInSource

  /** The returned dictionary: an error, or the success report with the range
      actually extracted. */
  datatype Outcome =
    | Failed(error: ExtractError)
    | Extracted(linesExtracted: int, targetFile: Path, targetAction: TargetAction,
                sourceAction: SourceAction, rangeStart: int, rangeEnd: int)

  /** The disk after the call, and its result. */
  datatype Step = Step(disk: Disk, outcome: Outcome)

  /** The source's lines and the range to extract, `end_line` already clamped. */
  datatype Selection = Selection(lines: seq<string>, first: int, last: int)

  predicate ValidSelection(s: Selection) {
    1 <= s.first <= s.last <= |s.lines|
  }

  /** `lines[start_line-1:end_line]`. */
  function Slice(s: Selection): seq<string>
    requires ValidSelection(s)
  {
    s.lines[s.first - 1..s.last]
  }

  /** `lines[:start_line-1] + lines[end_line:]`. */
  function Remaining(s: Selection): seq<string>
    requires ValidSelection(s)
  {
    s.lines[..s.first - 1] + s.lines[s.last..]
  }

  // ---------------------------------------------------------------------------
  // extract_lines

  /** Every check that precedes the first write: the source checks, the line
      range with the clamped end, and the target checks. */
  function Validate(d: Disk, acc: Access, q: Request): (v: Result<Selection, ExtractError>)
    ensures v.Ok? ==>
      && q.source in d.files
      && v.value.lines == SplitLines(d.files[q.source])
      && ValidSelection(v.value)
      && v.value.first == q.startLine
      && v.value.last == Min(q.endLine, |v.value.lines|)
  {
    if !Exists(d, q.source) then Err(SourceNotFound)
    else if IsMove(q.mode) && q.source !in acc.writable then Err(SourceNotWritable)
    else if IsMove(q.mode) && Parent(q.source) !in acc.writable then Err(SourceDirNotWritable)
    else if ReadFails(d, acc, q.source) then Err(SourceUnreadable)
    else
      var lines := SplitLines(d.files[q.source]);
      var total := |lines|;
      if q.startLine < 1 || q.startLine > total then Err(InvalidStartLine(total))
      else if q.endLine < q.startLine then Err(EndBeforeStart)
      else
        var last := if q.endLine > total then total else q.endLine;
        var dir := Parent(q.target);
        if Exists(d, dir) && dir !in acc.writable then Err(TargetDirNotWritable)
        else if !Exists(d, dir) && q.createDirs && ExistingAncestor(d, dir) !in acc.writable
        then Err(AncestorNotWritable(ExistingAncestor(d, dir)))
        else if !Exists(d, dir) && !q.createDirs then Err(TargetDirMissing)
        else if Exists(d, q.target) && q.target !in acc.writable then Err(TargetFileNotWritable)
        else Ok(Selection(lines, q.startLine, last))
  }

  /** The `needs_newline` test as written: it seeks one byte before the end of
      the file in text mode and decodes one character there. When the last
      character takes more than one byte in UTF-8 that byte does not start a
      character, decoding raises, the error is ignored, and no newline is
      added (see `MultibyteEndMergesLines`); `AppendLines` appends as
      intended. */
  predicate NeedsNewline(text: string)
    ensures NeedsNewline(text) ==> EndsOpen(text)
    ensures EndsOpen(text) && !NeedsNewline(text) ==> text[|text| - 1] >= '\U{80}'
  {
    text != [] && text[|text| - 1] != '\n' && text[|text| - 1] < '\U{80}'
  }

  /** The text does not end with a newline: its last line is still open. */
  predicate EndsOpen(text: string) {
    text != [] && text[|text| - 1] != '\n'
  }

  /** What is written before the extracted lines when appending to `p`: a
      newline when the file can be read and the check finds that its last
      character is not one. */
  function Separator(d: Disk, acc: Access, p: Path): string
    requires p in d.files
  {
    if p in acc.readable && NeedsNewline(d.files[p]) then "\n" else ""
  }

  /** The text is empty or ends with a newline or an ASCII character: the
      cases in which the check reads the last character correctly. */
  predicate AsciiEnd(text: string) {
    text == [] || text[|text| - 1] == '\n' || text[|text| - 1] < '\U{80}'
  }

  /** The writes: the directories, then the target, then (in move mode) the
      source. A failing write ends the call with the earlier writes done. */
  function Apply(d: Disk, acc: Access, q: Request, s: Selection): Step
    requires ValidSelection(s)
  {
    var dir := Parent(q.target);
    if q.createDirs && MkdirFails(d, dir) then Step(d, Failed(MkdirFailed))
    else
      var d1 := if q.createDirs then MakeDirs(d, dir) else d;
      if WriteFails(d1, acc, q.target) then Step(d1, Failed(TargetWriteFailed))
      else
        var appended := q.target in d1.files;
        var content := if appended then d1.files[q.target] + Separator(d1, acc, q.target) + Join(Slice(s))
                       else Join(Slice(s));
        var d2 := d1.(files := d1.files[q.target := content]);
        var action := if appended then Appended else Created;
        var report := Extracted(s.last - s.first + 1, q.target, action,
                                if IsMove(q.mode) then RemovedFromSource else KeptInSource, s.first, s.last);
        if !IsMove(q.mode) then Step(d2, report)
        else if WriteFails(d2, acc, q.source) then Step(d2, Failed(SourceWriteFailed))
        else Step(d2.(files := d2.files[q.source := Join(Remaining(s))]), report)
  }

  /** `extract_lines(source, target, start, end, mode, create_dirs)`: a failed
      check is reported and changes nothing; only the target can be a new
      file. */
  function Extract(d: Disk, acc: Access, q: Request): (st: Step)
    ensures Validate(d, acc, q).Err? ==> st == Step(d, Failed(Validate(d, acc, q).error))
    ensures st.outcome.Extracted? ==> Validate(d, acc, q).Ok?
    ensures st.disk.files.Keys <= d.files.Keys + {q.target}
  {
    match Validate(d, acc, q)
    case Err(e) => Step(d, Failed(e))
    case Ok(s) => Apply(d, acc, q, s)
  }

  // ---------------------------------------------------------------------------
  // The file system object

  class FileSystem {
    var files: map<Path, string>
    var dirs: set<Path>
    const access: Access

    function Snapshot(): Disk
      reads this
    {
      Disk(files, dirs)
    }

    constructor (d: Disk, acc: Access)
      ensures Snapshot() == d && access == acc
    {
      files := d.files;
      dirs := d.dirs;
      access := acc;
    }

    /** `extract_lines`: the checks in their order, then the writes. */
    method ExtractLines(source: Path, target: Path, startLine: int, endLine: int, mode: string, createDirs: bool)
      returns (r: Outcome)
      modifies this
      ensures Step(Snapshot(), r) == Extract(old(Snapshot()), access, Request(source, target, startLine, endLine, mode, createDirs))
    {
      var q := Request(source, target, startLine, endLine, mode, createDirs);
      var checked := Check(q);
      if checked.Err? {
        return Failed(checked.error);
      }
      r := Write(q, checked.value);
    }

    /** The checks `extract_lines` makes before it changes anything, in their
        order: the selection to extract, or the first error. */
    method Check(q: Request) returns (v: Result<Selection, ExtractError>)
      ensures v == Validate(Snapshot(), access, q)
    {
      if !Exists(Snapshot(), q.source) {
        return Err(SourceNotFound);
      }
      if q.mode == "move" {
        if q.source !in access.writable {
          return Err(SourceNotWritable);
        }
        if Parent(q.source) !in access.writable {
          return Err(SourceDirNotWritable);
        }
      }
      if ReadFails(Snapshot(), access, q.source) {
        return Err(SourceUnreadable);
      }
      var lines := SplitLines(files[q.source]);
      var total := |lines|;
      if q.startLine < 1 || q.startLine > total {
        return Err(InvalidStartLine(total));
      }
      if q.endLine < q.startLine {
        return Err(EndBeforeStart);
      }
      var last := q.endLine;
      if last > total {
        last := total;
      }
      var targetDir := Parent(q.target);
      if Exists(Snapshot(), targetDir) {
        if targetDir !in access.writable {
          return Err(TargetDirNotWritable);
        }
      } else if q.createDirs {
        var parent := targetDir;
        while !Exists(Snapshot(), parent) && parent != Parent(parent)
          invariant ExistingAncestor(Snapshot(), parent) == ExistingAncestor(Snapshot(), targetDir)
          decreases |parent|
        {
          parent := Parent(parent);
        }
        if parent !in access.writable {
          return Err(AncestorNotWritable(parent));
        }
      } else {
        return Err(TargetDirMissing);
      }
      if Exists(Snapshot(), q.target) && q.target !in access.writable {
        return Err(TargetFileNotWritable);
      }
      return Ok(Selection(lines, q.startLine, last));
    }

    /** The changes `extract_lines` makes once the checks pass: the target
        directory, the target file, and in move mode the source file. */
    method Write(q: Request, s: Selection) returns (r: Outcome)
      requires ValidSelection(s)
      modifies this
      ensures Step(Snapshot(), r) == Apply(old(Snapshot()), access, q, s)
    {
      var targetDir := Parent(q.target);
      if q.createDirs {
        if MkdirFails(Snapshot(), targetDir) {
          return Failed(MkdirFailed);
        }
        dirs := dirs + Prefixes(targetDir);
      }
      var extracted := s.lines[s.first - 1..s.last];
      var targetExists := Exists(Snapshot(), q.target);
      var action: TargetAction;
      if targetExists {
        var needsNewline := false;
        if q.target in files && q.target in access.readable && NeedsNewline(files[q.target]) {
          needsNewline := true;
        }
        if WriteFails(Snapshot(), access, q.target) {
          return Failed(TargetWriteFailed);
        }
        files := files[q.target := files[q.target] + (if needsNewline then "\n" else "") + Join(extracted)];
        action := Appended;
      } else {
        if WriteFails(Snapshot(), access, q.target) {
          return Failed(TargetWriteFailed);
        }
        files := files[q.target := Join(extracted)];
        action := Created;
      }
      var sourceAction: SourceAction;
      if q.mode == "move" {
        var remaining := s.lines[..s.first - 1] + s.lines[s.last..];
        if WriteFails(Snapshot(), access, q.source) {
          return Failed(SourceWriteFailed);
        }
        files := files[q.source := Join(remaining)];
        sourceAction := RemovedFromSource;
      } else {
        sourceAction := KeptInSource;
      }
      r := Extracted(|extracted|, q.target, action, sourceAction, s.first, s.last);
    }
  }

  // ---------------------------------------------------------------------------
  // Properties of extract_lines

  /** A failing check writes nothing, and neither does a failing `mkdir`; a
      failing target write leaves every file as it was (only directories may
      have been created). */
  lemma FailuresBeforeWrites(d: Disk, acc: Access, q: Request)
    ensures var st := Extract(d, acc, q);
      && (Validate(d, acc, q).Err? ==> st.disk == d && st.outcome.Failed?)
      && ((st.outcome.Failed? && st.outcome.error != TargetWriteFailed && st.outcome.error != SourceWriteFailed)
            ==> st.disk == d)
      && (st.outcome == Failed(TargetWriteFailed) ==> st.disk.files == d.files && d.dirs <= st.disk.dirs)
  {
  }

  /** The errors about the source and the line range, each in its place in
      the order of the checks. */
  lemma RangeChecks(d: Disk, acc: Access, q: Request)
    ensures Extract(d, acc, q) == Step(d, Failed(SourceNotFound)) <==> !Exists(d, q.source)
    ensures Exists(d, q.source) && !ReadFails(d, acc, q.source)
            && (IsMove(q.mode) ==> q.source in acc.writable && Parent(q.source) in acc.writable) ==>
      var total := |SplitLines(d.files[q.source])|;
      && (q.startLine < 1 || total < q.startLine ==> Extract(d, acc, q) == Step(d, Failed(InvalidStartLine(total))))
      && (1 <= q.startLine <= total && q.endLine < q.startLine ==> Extract(d, acc, q) == Step(d, Failed(EndBeforeStart)))
  {
    var st := Extract(d, acc, q);
    if st == Step(d, Failed(SourceNotFound)) {
      assert Validate(d, acc, q) == Err(SourceNotFound);
    }
  }

  /** The success report: the range with the clamped end, the count of lines
      taken from it, and the two actions. */
  lemma SuccessReport(d: Disk, acc: Access, q: Request)
    requires Extract(d, acc, q).outcome.Extracted?
    ensures Validate(d, acc, q).Ok? && q.source in d.files
    ensures var r := Extract(d, acc, q).outcome; var total := |SplitLines(d.files[q.source])|;
      && r.rangeStart == q.startLine
      && 1 <= r.rangeStart <= r.rangeEnd <= total
      && r.rangeEnd == Min(q.endLine, total)
      && r.linesExtracted == r.rangeEnd - r.rangeStart + 1
      && r.targetFile == q.target
      && (r.targetAction == Appended <==> q.target in d.files)
      && (r.sourceAction == RemovedFromSource <==> IsMove(q.mode))
  {
  }

  /** The lines a request takes from its source. */
  function ExtractedLines(d: Disk, acc: Access, q: Request): (ext: seq<string>)
    requires Validate(d, acc, q).Ok?
    ensures WellFormedLines(ext)
    ensures var lines := SplitLines(d.files[q.source]);
      ext == lines[q.startLine - 1..Min(q.endLine, |lines|)]
  {
    var s := Validate(d, acc, q).value;
    SliceWellFormed(s.lines, s.first - 1, s.last);
    Slice(s)
  }

  /** A target that did not exist holds exactly the extracted text, and reads
      back as the extracted lines. */
  lemma CreatedTarget(d: Disk, acc: Access, q: Request)
    requires Extract(d, acc, q).outcome.Extracted?
    requires Extract(d, acc, q).outcome.targetAction == Created
    ensures Validate(d, acc, q).Ok?
    ensures var files := Extract(d, acc, q).disk.files; var ext := ExtractedLines(d, acc, q);
      && q.target !in d.files
      && q.target in files && files[q.target] == Join(ext)
      && SplitLines(files[q.target]) == ext
  {
    SplitJoin(ExtractedLines(d, acc, q));
  }

  /** An existing target keeps its text, followed by a newline when the check
      finds its last character is not one, followed by the extracted text. */
  lemma AppendedTarget(d: Disk, acc: Access, q: Request)
    requires Extract(d, acc, q).outcome.Extracted?
    requires Extract(d, acc, q).outcome.targetAction == Appended
    requires !IsMove(q.mode) || q.target != q.source
    ensures Validate(d, acc, q).Ok?
    ensures var files := Extract(d, acc, q).disk.files;
      && q.target in d.files && q.target in files
      && files[q.target] == d.files[q.target]
           + (if q.target in acc.readable && NeedsNewline(d.files[q.target]) then "\n" else "")
           + Join(ExtractedLines(d, acc, q))
  {
  }

  /** A readable target that was appended to, whose text is empty or ends
      with a newline or an ASCII character, reads back as its old lines, the
      last one closed by a newline, followed by the extracted lines. */
  lemma AppendedReadsBack(d: Disk, acc: Access, q: Request)
    requires Extract(d, acc, q).outcome.Extracted?
    requires Extract(d, acc, q).outcome.targetAction == Appended
    requires !IsMove(q.mode) || q.target != q.source
    requires q.target in acc.readable
    ensures Validate(d, acc, q).Ok? && q.target in d.files && q.target in Extract(d, acc, q).disk.files
    ensures AsciiEnd(d.files[q.target]) ==>
      SplitLines(Extract(d, acc, q).disk.files[q.target])
        == CloseLast(SplitLines(d.files[q.target])) + ExtractedLines(d, acc, q)
  {
    AppendedTarget(d, acc, q);
    var ext := ExtractedLines(d, acc, q);
    if AsciiEnd(d.files[q.target]) {
      SeparatorAgrees(d.files[q.target], ext);
    }
  }

  /** Whatever the outcome, no file other than the target (and, in move mode,
      the source) is created, removed or changed; in copy mode the source is
      left as it was. */
  lemma OtherFilesUnchanged(d: Disk, acc: Access, q: Request)
    ensures var files := Extract(d, acc, q).disk.files;
      forall p :: p != q.target && (p != q.source || !IsMove(q.mode)) ==>
        (p in files <==> p in d.files) && (p in d.files ==> files[p] == d.files[p])
  {
  }

  /** `now` is `was` without its lines `first` to `last` (1-based): the lines
      before the range keep their place, the lines after it move up. */
  predicate LinesRemoved(was: seq<string>, now: seq<string>, first: int, last: int) {
    && 1 <= first <= last <= |was|
    && |now| == |was| - (last - first + 1)
    && (forall k :: 0 <= k < first - 1 ==> now[k] == was[k])
    && (forall k :: last <= k < |was| ==> now[k - (last - first + 1)] == was[k])
  }

  lemma CutRemoves(was: seq<string>, a: nat, b: nat)
    requires a < b <= |was|
    ensures LinesRemoved(was, was[..a] + was[b..], a + 1, b)
  {
    var now := was[..a] + was[b..];
    forall k | b <= k < |was|
      ensures now[k - (b - a)] == was[k]
    {
      assert now[k - (b - a)] == was[b..][k - b];
    }
  }

  /** A successful move leaves in the source the lines it had, without the
      extracted range. */
  lemma MoveRemovesRange(d: Disk, acc: Access, q: Request)
    requires Extract(d, acc, q).outcome.Extracted?
    requires IsMove(q.mode) && q.target != q.source
    ensures q.source in d.files && q.source in Extract(d, acc, q).disk.files
    ensures var r := Extract(d, acc, q).outcome;
      && r.linesExtracted == r.rangeEnd - r.rangeStart + 1
      && LinesRemoved(SplitLines(d.files[q.source]), SplitLines(Extract(d, acc, q).disk.files[q.source]),
                      r.rangeStart, r.rangeEnd)
  {
    MoveReconstructs(d, acc, q);
    SuccessReport(d, acc, q);
    var r := Extract(d, acc, q).outcome;
    CutRemoves(SplitLines(d.files[q.source]), r.rangeStart - 1, r.rangeEnd);
  }

  /** In move mode the source keeps the lines before and after the range, and
      the text before, the extracted text and the text after make up the old
      source again. */
  lemma MoveReconstructs(d: Disk, acc: Access, q: Request)
    requires Extract(d, acc, q).outcome.Extracted?
    requires IsMove(q.mode) && q.target != q.source
    ensures q.source in d.files && q.source in Extract(d, acc, q).disk.files
    ensures var r := Extract(d, acc, q).outcome;
      var lines := SplitLines(d.files[q.source]);
      var before, taken, after := lines[..r.rangeStart - 1], lines[r.rangeStart - 1..r.rangeEnd], lines[r.rangeEnd..];
      var now := Extract(d, acc, q).disk.files[q.source];
      && 1 <= r.rangeStart <= r.rangeEnd <= |lines|
      && now == Join(before) + Join(after)
      && SplitLines(now) == before + after
      && Join(before) + Join(taken) + Join(after) == d.files[q.source]
  {
    MoveWritesRemaining(d, acc, q);
    var r := Extract(d, acc, q).outcome;
    CutJoin(SplitLines(d.files[q.source]), r.rangeStart - 1, r.rangeEnd);
    CutReadsBack(SplitLines(d.files[q.source]), r.rangeStart - 1, r.rangeEnd);
  }

  /** A successful move writes back the source lines outside the range. */
  lemma MoveWritesRemaining(d: Disk, acc: Access, q: Request)
    requires Extract(d, acc, q).outcome.Extracted?
    requires IsMove(q.mode) && q.target != q.source
    ensures Validate(d, acc, q).Ok? && q.source in d.files && q.source in Extract(d, acc, q).disk.files
    ensures Extract(d, acc, q).outcome.rangeStart == Validate(d, acc, q).value.first
    ensures Extract(d, acc, q).outcome.rangeEnd == Validate(d, acc, q).value.last
    ensures Extract(d, acc, q).disk.files[q.source] == Join(Remaining(Validate(d, acc, q).value))
  {
  }

  /** Cutting a run out of lines: the three parts make the text, and the text
      of what is left is the text before the run and the text after it. */
  lemma CutJoin(lines: seq<string>, a: nat, b: nat)
    requires a <= b <= |lines|
    ensures Join(lines[..a]) + Join(lines[a..b]) + Join(lines[b..]) == Join(lines)
    ensures Join(lines[..a] + lines[b..]) == Join(lines[..a]) + Join(lines[b..])
  {
    JoinSplit(lines, b);
    JoinSplit(lines[..b], a);
    assert lines[..b][..a] == lines[..a];
    JoinConcat(lines[..a], lines[b..]);
  }

  /** What is left of well-formed lines after a cut reads back as itself. */
  lemma CutReadsBack(lines: seq<string>, a: nat, b: nat)
    requires WellFormedLines(lines) && a <= b <= |lines|
    ensures SplitLines(Join(lines[..a] + lines[b..])) == lines[..a] + lines[b..]
  {
    CutWellFormed(lines, a, b);
    SplitJoin(lines[..a] + lines[b..]);
  }

  /** The target is written before the source: when rewriting the source
      fails, the extracted text has already been added to the target, and the
      source is as it was. */
  lemma SourceFailureAfterTargetWrite(d: Disk, acc: Access, q: Request)
    requires Extract(d, acc, q).outcome == Failed(SourceWriteFailed)
    ensures IsMove(q.mode) && Validate(d, acc, q).Ok?
    ensures var files := Extract(d, acc, q).disk.files; var ext := Join(ExtractedLines(d, acc, q));
      && q.target in files
      && EndsWith(files[q.target], ext)
      && (q.target in d.files ==> StartsWith(files[q.target], d.files[q.target]))
      && (q.target !in d.files ==> files[q.target] == ext)
      && (q.source != q.target ==> q.source in files && files[q.source] == d.files[q.source])
  {
    var files := Extract(d, acc, q).disk.files;
    var ext := Join(ExtractedLines(d, acc, q));
    if q.target in d.files {
      var before := d.files[q.target];
      var sep := if q.target in acc.readable && NeedsNewline(before) then "\n" else "";
      assert files[q.target] == before + sep + ext;
      assert files[q.target][|files[q.target]| - |ext|..] == ext;
      assert files[q.target][..|before|] == before;
    }
  }

  /** The operating system's invariants hold after the call. */
  lemma ExtractKeepsWellFormed(d: Disk, acc: Access, q: Request)
    requires WellFormed(d)
    ensures WellFormed(Extract(d, acc, q).disk)
  {
    var dir := Parent(q.target);
    var v := Validate(d, acc, q);
    if v.Ok? && !(q.createDirs && MkdirFails(d, dir)) {
      var s := v.value;
      var d1 := if q.createDirs then MakeDirs(d, dir) else d;
      if q.createDirs {
        MakeDirsKeepsWellFormed(d, dir);
      }
      if !WriteFails(d1, acc, q.target) {
        var st := Apply(d, acc, q, s);
        var content := if q.target in d1.files
          then d1.files[q.target] + Separator(d1, acc, q.target) + Join(Slice(s)) else Join(Slice(s));
        var d2 := d1.(files := d1.files[q.target := content]);
        WriteKeepsWellFormed(d1, acc, q.target, content);
        if IsMove(q.mode) && !WriteFails(d2, acc, q.source) {
          WriteKeepsWellFormed(d2, acc, q.source, Join(Remaining(s)));
          assert st.disk == d2.(files := d2.files[q.source := Join(Remaining(s))]);
        } else {
          assert st.disk == d2;
        }
      }
    }
  }

  /** A write that succeeds puts a file in an existing directory. */
  lemma WriteKeepsWellFormed(d: Disk, acc: Access, p: Path, content: string)
    requires WellFormed(d) && !WriteFails(d, acc, p)
    ensures WellFormed(d.(files := d.files[p := content]))
  {
  }

  lemma MakeDirsKeepsWellFormed(d: Disk, p: Path)
    requires WellFormed(d) && !MkdirFails(d, p)
    ensures WellFormed(MakeDirs(d, p))
  {
    var r := MakeDirs(d, p);
    forall x | x in Prefixes(p)
      ensures x !in d.files && IsDir(r, Parent(x))
    {
      var k :| 1 <= k <= |p| && x == p[..k];
      if k > 1 {
        assert Parent(x) == p[..k - 1];
      }
    }
  }

  /** After a successful call the target's directory exists, and no directory
      ever disappears. */
  lemma TargetDirectoryExists(d: Disk, acc: Access, q: Request)
    ensures d.dirs <= Extract(d, acc, q).disk.dirs
    ensures Extract(d, acc, q).disk.dirs <= d.dirs + Prefixes(Parent(q.target))
    ensures Extract(d, acc, q).outcome.Extracted? ==> IsDir(Extract(d, acc, q).disk, Parent(q.target))
  {
  }

  // ---------------------------------------------------------------------------
  // The separator check and multi-byte characters

  /** The old lines with the last one closed by a newline. */
  function CloseLast(ls: seq<string>): seq<string> {
    if ls == [] || Terminated(ls[|ls| - 1]) then ls
    else ls[..|ls| - 1] + [ls[|ls| - 1] + "\n"]
  }

  /** Appending as intended: a newline first whenever the old text is not
      empty and does not end with one. */
  function AppendLines(text: string, ext: seq<string>): (r: string)
    requires WellFormedLines(ext)
    ensures SplitLines(r) == CloseLast(SplitLines(text)) + ext
  {
    var sep := if EndsOpen(text) then "\n" else "";
    ClosedText(text);
    var ls := CloseLast(SplitLines(text));
    SplitJoin(ls);
    JoinConcat(ls, ext);
    ConcatWellFormed(ls, ext);
    SplitJoin(ls + ext);
    text + sep + Join(ext)
  }

  /** Closing the text with a newline closes its last line. */
  lemma ClosedText(text: string)
    ensures var ls := CloseLast(SplitLines(text));
      && WellFormedLines(ls)
      && (ls != [] ==> Terminated(ls[|ls| - 1]))
      && Join(ls) == text + (if EndsOpen(text) then "\n" else "")
  {
    var lines := SplitLines(text);
    if lines != [] {
      var last := lines[|lines| - 1];
      JoinLast(lines);
      assert text[|text| - 1] == last[|last| - 1];
      if !Terminated(last) {
        CloseOpenLineShape(lines);
        CloseOpenLineText(lines);
      }
    }
  }

  lemma CloseOpenLineShape(lines: seq<string>)
    requires WellFormedLines(lines) && lines != [] && !Terminated(lines[|lines| - 1])
    ensures WellFormedLines(CloseLast(lines))
  {
    var n := |lines|;
    var init, last := lines[..n - 1], lines[n - 1];
    var closed := last + "\n";
    assert CloseLast(lines) == init + [closed];
    assert WellFormedLines(init + [closed]) by {
      assert LineShaped(closed) by {
        forall k | 0 <= k < |closed| - 1
          ensures closed[k] != '\n'
        {
          assert closed[k] == last[k];
        }
      }
      SliceWellFormed(lines, 0, n - 1);
      if init != [] {
        assert init[|init| - 1] == lines[n - 2];
      }
      ConcatWellFormed(init, [closed]);
    }
  }

  lemma CloseOpenLineText(lines: seq<string>)
    requires lines != [] && !Terminated(lines[|lines| - 1])
    ensures Join(CloseLast(lines)) == Join(lines) + "\n"
  {
    var n := |lines|;
    var ls := CloseLast(lines);
    assert |ls| == n && ls[..n - 1] == lines[..n - 1] && ls[n - 1] == lines[n - 1] + "\n";
    JoinLast(ls);
    JoinLast(lines);
  }

  /** As written and as intended agree unless the text ends with a character
      outside ASCII other than a newline. */
  lemma SeparatorAgrees(text: string, ext: seq<string>)
    requires WellFormedLines(ext)
    requires AsciiEnd(text)
    ensures text + (if NeedsNewline(text) then "\n" else "") + Join(ext) == AppendLines(text, ext)
  {
  }

  /** A target whose text ends in "é" (two bytes in UTF-8): as written, no
      newline is added and the first extracted line is glued to the target's
      last line. */
  lemma MultibyteEndMergesLines()
    ensures var text, ext := "caf\U{e9}", ["x\n"];
      SplitLines(text + (if NeedsNewline(text) then "\n" else "") + Join(ext)) == ["caf\U{e9}x\n"]
  {
    var text, ext := "caf\U{e9}", ["x\n"];
    assert !NeedsNewline(text);
    assert Join(ext) == "x\n" + Join([]);
    assert text + "" + Join(ext) == "caf\U{e9}x\n";
    OneLine("caf\U{e9}x\n");
  }

  /** Appending as intended keeps the target's last line and the first
      extracted line apart. */
  lemma MultibyteEndKeptApart()
    ensures SplitLines(AppendLines("caf\U{e9}", ["x\n"])) == ["caf\U{e9}\n", "x\n"]
  {
    OneLine("caf\U{e9}");
    assert !Terminated("caf\U{e9}");
    assert ["caf\U{e9}"][..0] == [];
    assert "caf\U{e9}" + "\n" == "caf\U{e9}\n";
    assert CloseLast(["caf\U{e9}"]) == ["caf\U{e9}\n"];
  }

  /** Text with no newline but at its end reads back as one line. */
  lemma OneLine(l: string)
    requires LineShaped(l)
    ensures SplitLines(l) == [l]
  {
    assert Join([l]) == l + Join([]);
    SplitJoin([l]);
  }
}
