/**
  The line-scan analyzer of scripts/analyze_splits.py (`analyze_file`).

  The regular expressions are not modelled: a `Matcher` answers, for a pattern
  and a line, whether `re.match` succeeds and which capture groups it yields.
  Everything around the regexes is concrete: the extension table that picks a
  pattern family, the skipping of blank and comment lines, the import span, the
  ordered function/class/section lists, the 50-character truncation and the
  choice of a name among the capture groups.
*/
module Analyzer {
  import opened Wrappers
  import opened PyText

  /** The four pattern families: indentation-based definitions, the
      JavaScript/TypeScript forms, the Java forms, and the generic fallback. */
  datatype Family = Python | Script | Java | Generic

  /** The table keyed on the lower-cased file suffix. */
  function FamilyOf(suffix: string): (f: Family)
    ensures f == Python <==> Lower(suffix) == ".py"
    ensures f == Java <==> Lower(suffix) == ".java"
    ensures f == Script <==> Lower(suffix) in [".js", ".jsx", ".ts", ".tsx"]
    ensures f == Generic <==> Lower(suffix) !in [".py", ".js", ".jsx", ".ts", ".tsx", ".java"]
  {
    var ext := Lower(suffix);
    if ext == ".py" then Python
    else if ext == ".js" || ext == ".jsx" || ext == ".ts" || ext == ".tsx" then Script
    else if ext == ".java" then Java
    else Generic
  }

  /** The regular expressions the analyzer uses: per family an import, a
      function and a class pattern, and the two section-marker patterns shared
      by all families (a comment banner of dashes or equal signs, and a comment
      banner in capital letters). */
  datatype Pattern =
    | ImportPattern(family: Family)
    | FunctionPattern(family: Family)
    | ClassPattern(family: Family)
    | RuleBanner
    | CapitalsBanner

  /** The capture groups of a match; a group that did not take part is None. */
  type Groups = seq<Option<string>>

  /** `re.match(pattern, text)`: None when there is no match at the start of
      `text`, otherwise the groups of the match. */
  type Matcher = (Pattern, string) -> Option<Groups>

  /** A function or class definition, or a section marker. */
  datatype Entry =
    | Definition(name: string, line: nat, definition: string)
    | Section(line: nat, marker: string)

  /** `analysis["imports"]`: both None until an import line is seen. */
  datatype ImportSpan = ImportSpan(start: Option<nat>, end: Option<nat>)

  datatype Analysis =
    | FileNotFound(path: string)
    | Report(file: string, totalLines: nat, functions: seq<Entry>, classes: seq<Entry>,
             imports: ImportSpan, sections: seq<Entry>)

  const FunctionExclusions: seq<string> := ["export", "async", "const", "=>"]
  const ClassExclusions: seq<string> := ["export", "public"]
  const Width: nat := 50
  const Ellipsis: string := "..."
  const Unknown: string := "unknown"

  /** Blank lines and lines starting with '#' or '//' (after stripping) take
      part in no pattern matching. */
  predicate Skipped(stripped: string) {
    stripped == [] || StartsWith(stripped, "#") || StartsWith(stripped, "//")
  }

  /** The `definition` field: the stripped line, cut to 50 characters and
      marked with an ellipsis when it is longer. */
  function Truncated(stripped: string): (d: string)
    ensures |d| <= Width + |Ellipsis|
    ensures |stripped| <= Width ==> d == stripped
    ensures Width < |stripped| ==>
      |d| == Width + |Ellipsis| && d[..Width] == stripped[..Width] && EndsWith(d, Ellipsis)
  {
    if |stripped| > Width then stripped[..Width] + Ellipsis else stripped
  }

  /** A capture group the name pick accepts: present, non-empty, not excluded. */
  predicate Eligible(g: Option<string>, excluded: seq<string>) {
    g.Some? && g.value != [] && g.value !in excluded
  }

  /** The name pick of `analyze_file`: the first group that is present,
      non-empty and not in the exclusion list, compared without stripping, or
      "unknown". `KeywordGroupTakenAsName` shows where this names a definition
      by a keyword; `PickIdentifier` is the intended pick. */
  function PickName(groups: Groups, excluded: seq<string>): (name: string)
    ensures
      || (exists j :: 0 <= j < |groups| && Eligible(groups[j], excluded) && groups[j].value == name
            && forall k :: 0 <= k < j ==> !Eligible(groups[k], excluded))
      || (name == Unknown && forall j :: 0 <= j < |groups| ==> !Eligible(groups[j], excluded))
    decreases |groups|
  {
    if groups == [] then Unknown
    else if Eligible(groups[0], excluded) then groups[0].value
    else
      var name := PickName(groups[1..], excluded);
      assert forall j :: 1 <= j < |groups| ==> groups[j] == groups[1..][j - 1];
      name
  }

  /** The three kinds of list the scan builds. */
  datatype Rule = FunctionRule | ClassRule | SectionRule

  /** A function or class pattern's match on line number `n`: the definition
      named by the pick among its groups, with the rule's exclusion list. */
  function DefinitionOf(found: Option<Groups>, excluded: seq<string>, stripped: string, n: nat): Option<Entry>
  {
    match found
    case None => None
    case Some(groups) => Some(Definition(PickName(groups, excluded), n, Truncated(stripped)))
  }

  /** What line number `n` (1-based), holding `line`, adds to the list of a rule. */
  function EntryAt(m: Matcher, fam: Family, rule: Rule, line: string, n: nat): (e: Option<Entry>)
    ensures e.Some? ==> e.value.line == n && !Skipped(Strip(line))
    ensures e.Some? ==> (rule == SectionRule <==> e.value.Section?)
  {
    var stripped := Strip(line);
    if Skipped(stripped) then None
    else
      match rule
      case FunctionRule => DefinitionOf(m(FunctionPattern(fam), line), FunctionExclusions, stripped, n)
      case ClassRule => DefinitionOf(m(ClassPattern(fam), line), ClassExclusions, stripped, n)
      case SectionRule =>
        if m(RuleBanner, stripped).Some? || m(CapitalsBanner, stripped).Some?
        then Some(Section(n, stripped[..Min(|stripped|, Width)]))
        else None
  }

  /** What each line contributes to the list of a rule: `found[i]` for the
      line numbered `i + 1`. */
  function Found(m: Matcher, fam: Family, rule: Rule, lines: seq<string>): (found: seq<Option<Entry>>)
    ensures |found| == |lines|
    ensures forall i :: 0 <= i < |lines| ==> found[i] == EntryAt(m, fam, rule, lines[i], i + 1)
  {
    seq(|lines|, i requires 0 <= i < |lines| => EntryAt(m, fam, rule, lines[i], i + 1))
  }

  function AsSeq(e: Option<Entry>): seq<Entry> {
    if e.Some? then [e.value] else []
  }

  /** The entries present, in the order of the lines. */
  function Collect(found: seq<Option<Entry>>): seq<Entry>
    decreases |found|
  {
    if found == [] then [] else Collect(found[..|found| - 1]) + AsSeq(found[|found| - 1])
  }

  /** The list a rule builds over `lines`, in line order. */
  function Scan(m: Matcher, fam: Family, rule: Rule, lines: seq<string>): seq<Entry> {
    Collect(Found(m, fam, rule, lines))
  }

  predicate IsImportLine(m: Matcher, fam: Family, line: string) {
    !Skipped(Strip(line)) && m(ImportPattern(fam), line).Some?
  }

  /** Which lines are import lines. */
  function ImportFlags(m: Matcher, fam: Family, lines: seq<string>): (flags: seq<bool>)
    ensures |flags| == |lines|
    ensures forall i :: 0 <= i < |lines| ==> flags[i] == IsImportLine(m, fam, lines[i])
  {
    seq(|lines|, i requires 0 <= i < |lines| => IsImportLine(m, fam, lines[i]))
  }

  /** The span of the flagged lines: the first one opens it, every later one
      moves its end. */
  function Span(flags: seq<bool>): ImportSpan
    decreases |flags|
  {
    if flags == [] then ImportSpan(None, None)
    else
      var before := Span(flags[..|flags| - 1]);
      if flags[|flags| - 1]
      then ImportSpan(if before.start.None? then Some(|flags|) else before.start, Some(|flags|))
      else before
  }

  /** The import span after scanning `lines`. */
  function Imports(m: Matcher, fam: Family, lines: seq<string>): ImportSpan {
    Span(ImportFlags(m, fam, lines))
  }

  /** The dictionary `analyze_file` returns; `text` is None when the file does
      not exist. */
  function Analyze(path: string, suffix: string, text: Option<string>, m: Matcher): Analysis
  {
    match text
    case None => FileNotFound(path)
    case Some(t) =>
      var lines := SplitLines(t);
      var fam := FamilyOf(suffix);
      Report(path, |lines|, Scan(m, fam, FunctionRule, lines), Scan(m, fam, ClassRule, lines),
             Imports(m, fam, lines), Scan(m, fam, SectionRule, lines))
  }

  /** The import bookkeeping of `analyze_file` for line number `n`, which is
      not blank or a comment: an import line opens the span if none is open and
      moves its end; the first other line after the span only raises a flag. */
  method TrackImports(m: Matcher, fam: Family, line: string, n: nat, imports: ImportSpan, started: bool, ended: bool)
    returns (imports': ImportSpan, started': bool, ended': bool)
    requires started <==> imports.start.Some?
    requires ended ==> started
    ensures imports' == if m(ImportPattern(fam), line).Some?
      then ImportSpan(if imports.start.None? then Some(n) else imports.start, Some(n))
      else imports
    ensures started' <==> imports'.start.Some?
    ensures ended' ==> started'
  {
    imports', started', ended' := imports, started, ended;
    if m(ImportPattern(fam), line).Some? {
      if !started' {
        imports' := imports'.(start := Some(n));
        started' := true;
      }
      imports' := imports'.(end := Some(n));
    } else if started' && !ended' && m(ImportPattern(fam), line).None? {
      ended' := true;
    }
  }

  /** `analyze_file`: reads the file and makes one pass over its lines. */
  method AnalyzeFile(path: string, suffix: string, text: Option<string>, m: Matcher) returns (a: Analysis)
    ensures a == Analyze(path, suffix, text, m)
    ensures text.None? <==> a.FileNotFound?
    ensures text.Some? ==> a.Report? && a.file == path && a.totalLines == |SplitLines(text.value)|
  {
    if text.None? {
      return FileNotFound(path);
    }
    var lines := SplitLines(text.value);
    var functions, classes, imports, sections := ScanLines(m, FamilyOf(suffix), lines);
    a := Report(path, |lines|, functions, classes, imports, sections);
  }

  /** A function or class pattern tried on line number `n`: on a match, the
      definition named by the pick among the groups is appended. */
  method AddDefinition(m: Matcher, pattern: Pattern, excluded: seq<string>, line: string, stripped: string,
                       n: nat, entries: seq<Entry>) returns (entries': seq<Entry>)
    ensures entries' == entries + AsSeq(DefinitionOf(m(pattern, line), excluded, stripped, n))
  {
    entries' := entries;
    var found := m(pattern, line);
    if found.Some? {
      var name := PickName(found.value, excluded);
      entries' := entries' + [Definition(name, n, Truncated(stripped))];
    }
  }

  /** The body of the loop of `analyze_file` for line number `n`: a blank or
      comment line changes nothing; any other line is tried against the import,
      function, class and section patterns in that order. */
  method ScanLine(m: Matcher, fam: Family, line: string, n: nat, imports: ImportSpan, started: bool, ended: bool,
                  functions: seq<Entry>, classes: seq<Entry>, sections: seq<Entry>)
    returns (imports': ImportSpan, started': bool, ended': bool, functions': seq<Entry>, classes': seq<Entry>, sections': seq<Entry>)
    requires started <==> imports.start.Some?
    requires ended ==> started
    ensures imports' == if IsImportLine(m, fam, line)
      then ImportSpan(if imports.start.None? then Some(n) else imports.start, Some(n))
      else imports
    ensures started' <==> imports'.start.Some?
    ensures ended' ==> started'
    ensures functions' == functions + AsSeq(EntryAt(m, fam, FunctionRule, line, n))
    ensures classes' == classes + AsSeq(EntryAt(m, fam, ClassRule, line, n))
    ensures sections' == sections + AsSeq(EntryAt(m, fam, SectionRule, line, n))
  {
    imports', started', ended', functions', classes', sections' := imports, started, ended, functions, classes, sections;
    var stripped := Strip(line);
    if Skipped(stripped) {
      return;
    }
    imports', started', ended' := TrackImports(m, fam, line, n, imports, started, ended);
    functions' := AddDefinition(m, FunctionPattern(fam), FunctionExclusions, line, stripped, n, functions);
    classes' := AddDefinition(m, ClassPattern(fam), ClassExclusions, line, stripped, n, classes);
    if m(RuleBanner, stripped).Some? || m(CapitalsBanner, stripped).Some? {
      sections' := sections' + [Section(n, stripped[..Min(|stripped|, Width)])];
    }
  }

  /** The loop of `analyze_file` over the lines, numbered from 1. */
  method ScanLines(m: Matcher, fam: Family, lines: seq<string>)
    returns (functions: seq<Entry>, classes: seq<Entry>, imports: ImportSpan, sections: seq<Entry>)
    ensures functions == Scan(m, fam, FunctionRule, lines)
    ensures classes == Scan(m, fam, ClassRule, lines)
    ensures imports == Imports(m, fam, lines)
    ensures sections == Scan(m, fam, SectionRule, lines)
  {
    functions, classes, sections := [], [], [];
    imports := ImportSpan(None, None);
    var importStarted, importEnded := false, false;
    for i := 0 to |lines|
      invariant functions == Scan(m, fam, FunctionRule, lines[..i])
      invariant classes == Scan(m, fam, ClassRule, lines[..i])
      invariant sections == Scan(m, fam, SectionRule, lines[..i])
      invariant imports == Imports(m, fam, lines[..i])
      invariant importStarted <==> imports.start.Some?
      invariant importEnded ==> importStarted
    {
      ScanStep(m, fam, FunctionRule, lines, i);
      ScanStep(m, fam, ClassRule, lines, i);
      ScanStep(m, fam, SectionRule, lines, i);
      ImportsStep(m, fam, lines, i);
      imports, importStarted, importEnded, functions, classes, sections :=
        ScanLine(m, fam, lines[i], i + 1, imports, importStarted, importEnded, functions, classes, sections);
    }
    assert lines[..|lines|] == lines;
  }

  // ---------------------------------------------------------------------------
  // Properties of the scan

  /** One more line extends the list of a rule by what that line contributes. */
  lemma ScanStep(m: Matcher, fam: Family, rule: Rule, lines: seq<string>, i: nat)
    requires i < |lines|
    ensures Scan(m, fam, rule, lines[..i + 1]) == Scan(m, fam, rule, lines[..i]) + AsSeq(EntryAt(m, fam, rule, lines[i], i + 1))
  {
    var longer, shorter := Found(m, fam, rule, lines[..i + 1]), Found(m, fam, rule, lines[..i]);
    assert longer[..i] == shorter;
    assert longer[i] == EntryAt(m, fam, rule, lines[i], i + 1);
  }

  /** One more line moves the import span as that line demands. */
  lemma ImportsStep(m: Matcher, fam: Family, lines: seq<string>, i: nat)
    requires i < |lines|
    ensures var before := Imports(m, fam, lines[..i]);
      Imports(m, fam, lines[..i + 1]) ==
        if IsImportLine(m, fam, lines[i])
        then ImportSpan(if before.start.None? then Some(i + 1) else before.start, Some(i + 1))
        else before
  {
    var longer, shorter := ImportFlags(m, fam, lines[..i + 1]), ImportFlags(m, fam, lines[..i]);
    assert longer[..i] == shorter;
    assert longer[i] == IsImportLine(m, fam, lines[i]);
  }

  /** Each contribution names the line it comes from. */
  predicate Numbered(found: seq<Option<Entry>>) {
    forall i :: 0 <= i < |found| && found[i].Some? ==> found[i].value.line == i + 1
  }

  /** Each entry of `es` is the contribution of the line it names. */
  predicate FromLines(es: seq<Entry>, found: seq<Option<Entry>>) {
    forall j :: 0 <= j < |es| ==> 1 <= es[j].line <= |found| && found[es[j].line - 1] == Some(es[j])
  }

  /** The entries come in strictly increasing line order. */
  predicate InLineOrder(es: seq<Entry>) {
    forall j, k :: 0 <= j < k < |es| ==> es[j].line < es[k].line
  }

  lemma {:induction false} CollectFromLines(found: seq<Option<Entry>>)
    requires Numbered(found)
    ensures FromLines(Collect(found), found)
    decreases |found|
  {
    if found != [] {
      var n := |found|;
      var init := found[..n - 1];
      assert Numbered(init) by {
        forall i | 0 <= i < n - 1 ensures init[i] == found[i] { }
      }
      CollectFromLines(init);
      var before := Collect(init);
      var es := Collect(found);
      assert es == before + AsSeq(found[n - 1]);
      forall j | 0 <= j < |es|
        ensures 1 <= es[j].line <= n && found[es[j].line - 1] == Some(es[j])
      {
        if j < |before| {
          assert es[j] == before[j];
          assert init[before[j].line - 1] == found[before[j].line - 1];
        } else {
          assert es[j] == found[n - 1].value;
        }
      }
    }
  }

  lemma {:induction false} CollectInOrder(found: seq<Option<Entry>>)
    requires Numbered(found)
    ensures InLineOrder(Collect(found))
    decreases |found|
  {
    if found != [] {
      var n := |found|;
      var init := found[..n - 1];
      assert Numbered(init) by {
        forall i | 0 <= i < n - 1 ensures init[i] == found[i] { }
      }
      CollectInOrder(init);
      CollectFromLines(init);
      var before := Collect(init);
      var es := Collect(found);
      assert es == before + AsSeq(found[n - 1]);
      forall j, k | 0 <= j < k < |es|
        ensures es[j].line < es[k].line
      {
        assert es[j] == before[j];
        if k < |before| {
          assert es[k] == before[k];
        } else {
          assert es[k] == found[n - 1].value;
          assert before[j].line <= n - 1;
        }
      }
    }
  }

  lemma {:induction false} CollectComplete(found: seq<Option<Entry>>)
    ensures forall i :: 0 <= i < |found| && found[i].Some? ==> found[i].value in Collect(found)
    decreases |found|
  {
    if found != [] {
      var n := |found|;
      var init := found[..n - 1];
      CollectComplete(init);
      assert Collect(found) == Collect(init) + AsSeq(found[n - 1]);
      forall i | 0 <= i < n - 1 ensures init[i] == found[i] { }
    }
  }

  /** The span is set at both ends or at neither, and when set it runs from a
      flagged line to a flagged line. */
  predicate SpanEnds(span: ImportSpan, flags: seq<bool>) {
    && (span.start.Some? <==> span.end.Some?)
    && (span.start.Some? ==>
          && 1 <= span.start.value <= span.end.value <= |flags|
          && flags[span.start.value - 1] && flags[span.end.value - 1])
  }

  /** Every flagged line lies within the span. */
  predicate SpanHolds(span: ImportSpan, flags: seq<bool>) {
    forall i :: 0 <= i < |flags| && flags[i] ==>
      span.start.Some? && span.end.Some? && span.start.value <= i + 1 <= span.end.value
  }

  lemma {:induction false} SpanBounds(flags: seq<bool>)
    ensures SpanEnds(Span(flags), flags)
    ensures SpanHolds(Span(flags), flags)
    decreases |flags|
  {
    if flags != [] {
      var n := |flags|;
      var init := flags[..n - 1];
      SpanBounds(init);
      forall i | 0 <= i < n - 1 ensures init[i] == flags[i] { }
    }
  }

  /** Every entry of a list stands for the line it names, and the entries come
      in strictly increasing line order. */
  lemma ScanOrdered(m: Matcher, fam: Family, rule: Rule, lines: seq<string>)
    ensures FromLines(Scan(m, fam, rule, lines), Found(m, fam, rule, lines))
    ensures InLineOrder(Scan(m, fam, rule, lines))
  {
    var found := Found(m, fam, rule, lines);
    CollectFromLines(found);
    CollectInOrder(found);
  }

  /** Every line a rule fires on has its entry in that rule's list. */
  lemma ScanComplete(m: Matcher, fam: Family, rule: Rule, lines: seq<string>)
    ensures forall i :: 0 <= i < |lines| && EntryAt(m, fam, rule, lines[i], i + 1).Some? ==>
      EntryAt(m, fam, rule, lines[i], i + 1).value in Scan(m, fam, rule, lines)
  {
    CollectComplete(Found(m, fam, rule, lines));
  }

  /** A blank or comment line contributes no function, class or section entry. */
  lemma SkippedLineHasNoEntry(m: Matcher, fam: Family, rule: Rule, lines: seq<string>, i: nat)
    requires i < |lines| && Skipped(Strip(lines[i]))
    ensures forall j :: 0 <= j < |Scan(m, fam, rule, lines)| ==> Scan(m, fam, rule, lines)[j].line != i + 1
  {
    var found := Found(m, fam, rule, lines);
    CollectFromLines(found);
    assert found[i] == None;
  }

  /** A blank or comment line is neither end of the import span. */
  lemma SkippedLineOutsideImports(m: Matcher, fam: Family, lines: seq<string>, i: nat)
    requires i < |lines| && Skipped(Strip(lines[i]))
    ensures Imports(m, fam, lines).start != Some(i + 1)
    ensures Imports(m, fam, lines).end != Some(i + 1)
  {
    SkippedNotFlagged(m, fam, lines, i);
    UnflaggedOutsideSpan(ImportFlags(m, fam, lines), i);
  }

  lemma UnflaggedOutsideSpan(flags: seq<bool>, i: nat)
    requires i < |flags| && !flags[i]
    ensures Span(flags).start != Some(i + 1) && Span(flags).end != Some(i + 1)
  {
    SpanBounds(flags);
  }

  lemma SkippedNotFlagged(m: Matcher, fam: Family, lines: seq<string>, i: nat)
    requires i < |lines| && Skipped(Strip(lines[i]))
    ensures !ImportFlags(m, fam, lines)[i]
  {
  }

  /** The import span is open exactly when it is closed, and then runs from an
      import line to an import line, within the file. */
  lemma ImportSpanEnds(m: Matcher, fam: Family, lines: seq<string>)
    ensures Imports(m, fam, lines).start.Some? <==> Imports(m, fam, lines).end.Some?
    ensures Imports(m, fam, lines).start.Some? ==>
      && 1 <= Imports(m, fam, lines).start.value <= Imports(m, fam, lines).end.value <= |lines|
      && IsImportLine(m, fam, lines[Imports(m, fam, lines).start.value - 1])
      && IsImportLine(m, fam, lines[Imports(m, fam, lines).end.value - 1])
  {
    var flags := ImportFlags(m, fam, lines);
    var span := Span(flags);
    SpanBounds(flags);
    if span.start.Some? {
      FlaggedIsImport(m, fam, lines, span.start.value - 1);
      FlaggedIsImport(m, fam, lines, span.end.value - 1);
    }
  }

  lemma FlaggedIsImport(m: Matcher, fam: Family, lines: seq<string>, i: nat)
    requires i < |lines| && ImportFlags(m, fam, lines)[i]
    ensures IsImportLine(m, fam, lines[i])
  {
  }

  /** Every import line lies within the import span. */
  lemma ImportSpanContains(m: Matcher, fam: Family, lines: seq<string>, i: nat)
    requires i < |lines| && IsImportLine(m, fam, lines[i])
    ensures Imports(m, fam, lines).start.Some? && Imports(m, fam, lines).end.Some?
    ensures Imports(m, fam, lines).start.value <= i + 1 <= Imports(m, fam, lines).end.value
  {
    var flags := ImportFlags(m, fam, lines);
    SpanBounds(flags);
    assert flags[i];
  }

  // ---------------------------------------------------------------------------
  // The name pick and the optional keyword groups

  /** The name pick as written compares each group with the exclusion list
      without stripping it, but the optional groups of the patterns capture
      their trailing whitespace ("export ", "async "), and the Java method
      pattern captures its last modifier: in each case the keyword is taken as
      the name. */
  lemma KeywordGroupTakenAsName()
    ensures PickName([Some("export "), Some("Widget")], ClassExclusions) == "export "
    ensures PickName([Some("async "), Some("load")], FunctionExclusions) == "async "
    ensures PickName([Some("static"), Some("main")], FunctionExclusions) == "static"
  {
    assert "export " != "export" && "export " != "public";
    assert "async " !in FunctionExclusions;
    assert "static" !in FunctionExclusions;
  }

  /** The Java modifiers the first group of the Java method pattern captures. */
  const JavaModifiers: seq<string> := ["public", "private", "protected", "static"]

  /** The keywords the intended pick skips for a pattern: the rule's own
      exclusion list, and for Java methods the modifiers too. */
  function KeywordsOf(p: Pattern): seq<string> {
    match p
    case FunctionPattern(Java) => FunctionExclusions + JavaModifiers
    case FunctionPattern(_) => FunctionExclusions
    case _ => ClassExclusions
  }

  /** A group the intended name pick accepts: present, and its stripped text
      is neither empty nor a keyword. */
  predicate NameGroup(g: Option<string>, excluded: seq<string>) {
    g.Some? && Strip(g.value) != [] && Strip(g.value) !in excluded
  }

  /** The name pick as intended: the stripped text of the first group that is
      not blank and not a keyword, or "unknown". */
  function PickIdentifier(groups: Groups, excluded: seq<string>): (name: string)
    ensures
      || (exists j :: 0 <= j < |groups| && NameGroup(groups[j], excluded) && Strip(groups[j].value) == name
            && forall k :: 0 <= k < j ==> !NameGroup(groups[k], excluded))
      || (name == Unknown && forall j :: 0 <= j < |groups| ==> !NameGroup(groups[j], excluded))
    decreases |groups|
  {
    if groups == [] then Unknown
    else if NameGroup(groups[0], excluded) then Strip(groups[0].value)
    else
      var name := PickIdentifier(groups[1..], excluded);
      assert forall j :: 1 <= j < |groups| ==> groups[j] == groups[1..][j - 1];
      name
  }

  /** A name the intended pick yields is "unknown" or an identifier-like
      word: not blank, without whitespace at either end, and no keyword. */
  lemma {:induction false} PickedNameIsWord(groups: Groups, excluded: seq<string>)
    ensures var name := PickIdentifier(groups, excluded);
      || name == Unknown
      || (name != [] && !IsSpace(name[0]) && !IsSpace(name[|name| - 1]) && name !in excluded)
    decreases |groups|
  {
    if groups != [] {
      if NameGroup(groups[0], excluded) {
        StripEnds(groups[0].value);
      } else {
        PickedNameIsWord(groups[1..], excluded);
      }
    }
  }

  /** The two picks differ only on groups with whitespace around them: when
      every present group is its own stripped text, they agree. */
  lemma {:induction false} PicksAgreeOnStrippedGroups(groups: Groups, excluded: seq<string>)
    requires forall j :: 0 <= j < |groups| && groups[j].Some? ==> Strip(groups[j].value) == groups[j].value
    ensures PickIdentifier(groups, excluded) == PickName(groups, excluded)
    decreases |groups|
  {
    if groups != [] && !Eligible(groups[0], excluded) {
      assert forall j :: 1 <= j < |groups| ==> groups[1..][j - 1] == groups[j];
      PicksAgreeOnStrippedGroups(groups[1..], excluded);
    }
  }

  /** The intended pick names a definition by its identifier when a keyword
      group, alone or followed by one space, precedes the identifier's group:
      "export class Widget" is named "Widget", "async def load" is named "load",
      and a Java "static" method "main" is named "main". */
  lemma IdentifierAfterKeyword(p: Pattern, g: string, k: string, w: string)
    requires g == k || g == k + " "
    requires k in KeywordsOf(p)
    requires k != [] && !IsSpace(k[0]) && !IsSpace(k[|k| - 1])
    requires w != [] && !IsSpace(w[0]) && !IsSpace(w[|w| - 1]) && w !in KeywordsOf(p)
    ensures PickIdentifier([Some(g), Some(w)], KeywordsOf(p)) == w
  {
    StripKeyword(g, k);
    StripWord(w);
    PickSecond(Some(g), Some(w), KeywordsOf(p));
  }

  lemma PickSecond(first: Option<string>, second: Option<string>, excluded: seq<string>)
    requires !NameGroup(first, excluded) && NameGroup(second, excluded)
    ensures PickIdentifier([first, second], excluded) == Strip(second.value)
  {
    assert [first, second][1..] == [second];
  }
  /** A keyword followed by one space strips to the keyword. */
  lemma StripKeyword(g: string, k: string)
    requires g == k || g == k + " "
    requires k != [] && !IsSpace(k[0]) && !IsSpace(k[|k| - 1])
    ensures Strip(g) == k
  {
    assert g[0] == k[0];
    assert SkipSpaces(g, 0) == 0;
    if g == k + " " {
      assert g[|g| - 1] == ' ';
      assert SkipSpacesBack(g, 0, |g|) == SkipSpacesBack(g, 0, |k|);
      assert g[..|k|] == k;
    }
  }

  /** A word without whitespace at either end strips to itself. */
  lemma StripWord(w: string)
    requires w != [] && !IsSpace(w[0]) && !IsSpace(w[|w| - 1])
    ensures Strip(w) == w
  {
    assert SkipSpaces(w, 0) == 0;
  }
}
