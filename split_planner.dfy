/**
  The split planner of scripts/analyze_splits.py (`suggest_splits`): from an
  analysis and a target size, a list of chunks (start line, end line, line
  count, description).

  Two paths: when the analysis found classes or functions, their lines are the
  logical breaks and a chunk is closed just before the first break that lies at
  least `target` lines past the current start; otherwise the file is cut into
  fixed chunks of `target` lines.
*/
module SplitPlanner {
  import opened Wrappers
  import opened PyText
  import opened Analyzer

  /** The label of a logical break: "class <name>" or "function <name>". */
  datatype Label = ClassLabel(name: string) | FunctionLabel(name: string)

  datatype Break = Break(line: int, title: Label)

  /** "Section before <label>", "Final section" or "Chunk <index>/<count>". */
  datatype Description = SectionBefore(title: Label) | FinalSection | ChunkOf(index: int, count: int)

  datatype Chunk = Chunk(start: int, end: int, lines: int, description: Description)

  /** The outcome of `suggest_splits`: its list, or the ZeroDivisionError the
      size-based path raises for a target size of 0. */
  datatype Suggestion = Suggested(chunks: seq<Chunk>) | DivisionByZero

  function NameOf(e: Entry): string {
    if e.Definition? then e.name else ""
  }

  /** One break per entry, in the order of the entries. */
  function BreaksOf(es: seq<Entry>, classes: bool): (bs: seq<Break>)
    ensures |bs| == |es|
    decreases |es|
  {
    if es == [] then []
    else
      var e := es[|es| - 1];
      var title := if classes then ClassLabel(NameOf(e)) else FunctionLabel(NameOf(e));
      BreaksOf(es[..|es| - 1], classes) + [Break(e.line, title)]
  }

  /** The class breaks followed by the function breaks, before sorting. */
  function LogicalBreaks(a: Analysis): seq<Break>
    requires a.Report?
  {
    BreaksOf(a.classes, true) + BreaksOf(a.functions, false)
  }

  // ---------------------------------------------------------------------------
  // `logical_breaks.sort(key=lambda x: x[0])`: a stable sort on the line

  predicate SortedByLine(bs: seq<Break>) {
    forall i, j :: 0 <= i < j < |bs| ==> bs[i].line <= bs[j].line
  }

  /** Puts `b` after every element whose line is not greater than its own. */
  function InsertByLine(sorted: seq<Break>, b: Break): (r: seq<Break>)
    requires SortedByLine(sorted)
    ensures SortedByLine(r)
    ensures |r| == |sorted| + 1
    ensures r[0] == if sorted == [] || b.line < sorted[0].line then b else sorted[0]
    decreases |sorted|
  {
    if sorted == [] then [b]
    else if b.line < sorted[0].line then [b] + sorted
    else
      var rest := InsertByLine(sorted[1..], b);
      assert |sorted| > 1 ==> sorted[0].line <= sorted[1].line;
      [sorted[0]] + rest
  }

  lemma {:induction false} InsertByLinePermutes(sorted: seq<Break>, b: Break)
    requires SortedByLine(sorted)
    ensures multiset(InsertByLine(sorted, b)) == multiset(sorted) + multiset{b}
    decreases |sorted|
  {
    if sorted != [] && b.line >= sorted[0].line {
      InsertByLinePermutes(sorted[1..], b);
      assert sorted == [sorted[0]] + sorted[1..];
    }
  }

  /** Insertion sort on the line: sorted, and a permutation of its input. */
  function SortByLine(bs: seq<Break>): (r: seq<Break>)
    ensures SortedByLine(r)
    ensures |r| == |bs|
    decreases |bs|
  {
    if bs == [] then [] else InsertByLine(SortByLine(bs[..|bs| - 1]), bs[|bs| - 1])
  }

  lemma {:induction false} SortByLinePermutes(bs: seq<Break>)
    ensures multiset(SortByLine(bs)) == multiset(bs)
    decreases |bs|
  {
    if bs != [] {
      SortByLinePermutes(bs[..|bs| - 1]);
      InsertByLinePermutes(SortByLine(bs[..|bs| - 1]), bs[|bs| - 1]);
      assert bs == bs[..|bs| - 1] + [bs[|bs| - 1]];
    }
  }

  /** The breaks on one line, in their order. */
  function OnLine(bs: seq<Break>, line: int): seq<Break>
    decreases |bs|
  {
    if bs == [] then []
    else (if bs[0].line == line then [bs[0]] else []) + OnLine(bs[1..], line)
  }

  lemma {:induction false} OnLineConcat(a: seq<Break>, b: seq<Break>, line: int)
    ensures OnLine(a + b, line) == OnLine(a, line) + OnLine(b, line)
    decreases |a|
  {
    if a != [] {
      assert (a + b)[1..] == a[1..] + b;
      OnLineConcat(a[1..], b, line);
    } else {
      assert a + b == b;
    }
  }

  lemma {:induction false} OnLineBelow(sorted: seq<Break>, line: int)
    requires SortedByLine(sorted)
    requires sorted != [] && line < sorted[0].line
    ensures OnLine(sorted, line) == []
    decreases |sorted|
  {
    if |sorted| > 1 {
      OnLineBelow(sorted[1..], line);
    }
  }

  lemma {:induction false} InsertOnLine(sorted: seq<Break>, b: Break, line: int)
    requires SortedByLine(sorted)
    ensures OnLine(InsertByLine(sorted, b), line) == OnLine(sorted, line) + OnLine([b], line)
    decreases |sorted|
  {
    if sorted == [] {
    } else if b.line < sorted[0].line {
      var r := [b] + sorted;
      assert r[1..] == sorted;
      if b.line == line {
        OnLineBelow(sorted, line);
      }
    } else {
      var rest := InsertByLine(sorted[1..], b);
      InsertOnLine(sorted[1..], b, line);
      var r := [sorted[0]] + rest;
      assert r[1..] == rest;
    }
  }

  /** The sort is stable: the breaks that share a line keep their order. */
  lemma {:induction false} SortByLineStable(bs: seq<Break>, line: int)
    ensures OnLine(SortByLine(bs), line) == OnLine(bs, line)
    decreases |bs|
  {
    if bs != [] {
      var init, last := bs[..|bs| - 1], bs[|bs| - 1];
      SortByLineStable(init, line);
      InsertOnLine(SortByLine(init), last, line);
      assert bs == init + [last];
      OnLineConcat(init, [last], line);
    }
  }

  // ---------------------------------------------------------------------------
  // The break-aligned path

  /** The state of the break loop: the chunks closed so far and the first
      line of the chunk still open (`current_start`). */
  datatype Cursor = Cursor(chunks: seq<Chunk>, current: int)

  /** The loop's state after it has visited the breaks `bs`. */
  function Walk(bs: seq<Break>, target: int): (c: Cursor)
    decreases |bs|
  {
    if bs == [] then Cursor([], 1)
    else
      var c := Walk(bs[..|bs| - 1], target);
      var b := bs[|bs| - 1];
      if b.line - c.current >= target
      then Cursor(c.chunks + [Chunk(c.current, b.line - 1, b.line - c.current, SectionBefore(b.title))], b.line)
      else c
  }

  /** The break-aligned list as intended: the closed chunks, then a final
      chunk whenever the open one holds at least one line of the file. */
  function BreakAligned(bs: seq<Break>, total: int, target: int): seq<Chunk>
  {
    var c := Walk(bs, target);
    if c.current <= total then c.chunks + [Chunk(c.current, total, total - c.current + 1, FinalSection)]
    else c.chunks
  }

  /** The break-aligned list of `suggest_splits`: the final chunk only when
      the open one starts before the last line. */
  function WrittenBreakAligned(bs: seq<Break>, total: int, target: int): seq<Chunk>
  {
    var c := Walk(bs, target);
    if c.current < total then c.chunks + [Chunk(c.current, total, total - c.current + 1, FinalSection)]
    else c.chunks
  }

  // ---------------------------------------------------------------------------
  // The size-based path

  /** Python's `//`: the quotient rounded towards minus infinity. */
  function FloorDiv(a: int, b: int): (q: int)
    requires b != 0
    ensures 0 < b ==> b * q <= a < b * q + b
    ensures b < 0 ==> b * q + b < a <= b * q
  {
    if b > 0 then a / b else (-a) / (-b)
  }

  function SizeChunk(i: int, total: int, target: int, count: int): Chunk
  {
    var start := i * target + 1;
    var end := Min((i + 1) * target, total);
    Chunk(start, end, end - start + 1, ChunkOf(i + 1, count))
  }

  /** `range(num_chunks)` is empty for a negative count. */
  function SizeChunks(total: int, target: int): seq<Chunk>
    requires target != 0
  {
    var count := FloorDiv(total + target - 1, target);
    seq(Max(count, 0), i => SizeChunk(i, total, target, count))
  }

  /** The logical break points: one per class, then one per function, in the
      order the analysis lists them. */
  method CollectBreaks(a: Analysis) returns (breaks: seq<Break>)
    requires a.Report?
    ensures breaks == LogicalBreaks(a)
  {
    breaks := [];
    for i := 0 to |a.classes|
      invariant breaks == BreaksOf(a.classes[..i], true)
    {
      assert a.classes[..i + 1][..i] == a.classes[..i];
      breaks := breaks + [Break(a.classes[i].line, ClassLabel(NameOf(a.classes[i])))];
    }
    assert a.classes[..|a.classes|] == a.classes;
    for i := 0 to |a.functions|
      invariant breaks == BreaksOf(a.classes, true) + BreaksOf(a.functions[..i], false)
    {
      assert a.functions[..i + 1][..i] == a.functions[..i];
      breaks := breaks + [Break(a.functions[i].line, FunctionLabel(NameOf(a.functions[i])))];
    }
    assert a.functions[..|a.functions|] == a.functions;
  }

  /** `suggest_splits(analysis, target_size)`. */
  function Suggest(a: Analysis, target: int): Suggestion
  {
    if a.FileNotFound? then Suggested([])
    else if a.totalLines <= target then Suggested([])
    else
      var breaks := SortByLine(LogicalBreaks(a));
      if breaks != [] then Suggested(WrittenBreakAligned(breaks, a.totalLines, target))
      else if target == 0 then DivisionByZero
      else Suggested(SizeChunks(a.totalLines, target))
  }

  method SuggestSplits(a: Analysis, target: int) returns (s: Suggestion)
    ensures s == Suggest(a, target)
  {
    if a.FileNotFound? {
      return Suggested([]);
    }
    var total := a.totalLines;
    if total <= target {
      return Suggested([]);
    }
    var breaks := CollectBreaks(a);
    breaks := SortByLine(breaks);
    if |breaks| > 0 {
      var c := WalkBreaks(breaks, target);
      var chunks, current := c.chunks, c.current;
      if current < total {
        chunks := chunks + [Chunk(current, total, total - current + 1, FinalSection)];
      }
      s := Suggested(chunks);
    } else {
      if target == 0 {
        return DivisionByZero;
      }
      var suggestions := SizeSplits(total, target);
      s := Suggested(suggestions);
    }
  }

  /** The size-based loop of `suggest_splits`: `num_chunks` chunks of
      `target_size` lines, the last one cut at the end of the file. */
  method SizeSplits(total: int, target: int) returns (suggestions: seq<Chunk>)
    requires target != 0
    ensures suggestions == SizeChunks(total, target)
  {
    var count := FloorDiv(total + target - 1, target);
    suggestions := [];
    for i := 0 to Max(count, 0)
      invariant suggestions == SizeChunks(total, target)[..i]
    {
      var start := i * target + 1;
      var end := Min((i + 1) * target, total);
      suggestions := suggestions + [Chunk(start, end, end - start + 1, ChunkOf(i + 1, count))];
    }
  }

  /** The loop of `suggest_splits` over the sorted breaks. */
  method WalkBreaks(breaks: seq<Break>, target: int) returns (c: Cursor)
    ensures c == Walk(breaks, target)
  {
    var chunks: seq<Chunk> := [];
    var current := 1;
    for i := 0 to |breaks|
      invariant Cursor(chunks, current) == Walk(breaks[..i], target)
    {
      assert breaks[..i + 1][..i] == breaks[..i];
      var b := breaks[i];
      if b.line - current >= target {
        chunks := chunks + [Chunk(current, b.line - 1, b.line - current, SectionBefore(b.title))];
        current := b.line;
      }
    }
    assert breaks[..|breaks|] == breaks;
    c := Cursor(chunks, current);
  }

  // ---------------------------------------------------------------------------
  // What the list of chunks means

  /** `cs` lists consecutive ranges of lines that together run from `first` to
      `next - 1`, each with a consistent line count. */
  predicate Tiles(cs: seq<Chunk>, first: int, next: int)
    decreases |cs|
  {
    if cs == [] then first == next
    else
      var last := cs[|cs| - 1];
      && last.start <= last.end
      && last.lines == last.end - last.start + 1
      && last.end + 1 == next
      && Tiles(cs[..|cs| - 1], first, last.start)
  }

  /** Some chunk of `cs` contains `line`. */
  predicate Covers(cs: seq<Chunk>, line: int) {
    exists k :: 0 <= k < |cs| && cs[k].start <= line <= cs[k].end
  }

  /** Tiling chunks are in order, do not overlap, and cover exactly the lines
      from `first` to `next - 1`. */
  lemma {:induction false} TilesPartition(cs: seq<Chunk>, first: int, next: int)
    requires Tiles(cs, first, next)
    ensures first <= next
    ensures forall k :: 0 <= k < |cs| ==>
      first <= cs[k].start <= cs[k].end < next && cs[k].lines == cs[k].end - cs[k].start + 1
    ensures forall j, k :: 0 <= j < k < |cs| ==> cs[j].end < cs[k].start
    ensures forall line :: Covers(cs, line) <==> first <= line < next
    decreases |cs|
  {
    if cs != [] {
      var init, last := cs[..|cs| - 1], cs[|cs| - 1];
      TilesPartition(init, first, last.start);
      forall line | first <= line < next
        ensures Covers(cs, line)
      {
        if line < last.start {
          assert Covers(init, line);
          var k :| 0 <= k < |init| && init[k].start <= line <= init[k].end;
          assert cs[k] == init[k];
        } else {
          assert cs[|cs| - 1] == last;
        }
      }
      forall line | Covers(cs, line)
        ensures first <= line < next
      {
        var k :| 0 <= k < |cs| && cs[k].start <= line <= cs[k].end;
        if k < |init| {
          assert init[k] == cs[k];
          assert Covers(init, line);
        }
      }
    }
  }

  // ---------------------------------------------------------------------------
  // The break loop

  /** A chunk closed by the loop ends just before a break, and is described by
      that break's label. */
  predicate ClosedAtBreak(bs: seq<Break>, c: Chunk) {
    exists i :: 0 <= i < |bs| && bs[i].line == c.end + 1 && c.description == SectionBefore(bs[i].title)
  }

  /** For a positive target size, the closed chunks tile the lines before the
      open one and each holds at least `target` lines. */
  lemma {:induction false} WalkTiles(bs: seq<Break>, target: int)
    requires 1 <= target
    ensures 1 <= Walk(bs, target).current
    ensures Tiles(Walk(bs, target).chunks, 1, Walk(bs, target).current)
    ensures forall k :: 0 <= k < |Walk(bs, target).chunks| ==> Walk(bs, target).chunks[k].lines >= target
    decreases |bs|
  {
    if bs != [] {
      var init, b := bs[..|bs| - 1], bs[|bs| - 1];
      WalkTiles(init, target);
      var c0 := Walk(init, target);
      var c := Walk(bs, target);
      if b.line - c0.current >= target {
        assert c.chunks[..|c.chunks| - 1] == c0.chunks;
      }
    }
  }

  /** Each closed chunk ends just before the break that closed it and is
      described by that break's label. */
  lemma {:induction false} WalkClosed(bs: seq<Break>, target: int)
    ensures forall k :: 0 <= k < |Walk(bs, target).chunks| ==> ClosedAtBreak(bs, Walk(bs, target).chunks[k])
    decreases |bs|
  {
    if bs != [] {
      var init, b := bs[..|bs| - 1], bs[|bs| - 1];
      WalkClosed(init, target);
      var c0 := Walk(init, target);
      var c := Walk(bs, target);
      forall k | 0 <= k < |c.chunks|
        ensures ClosedAtBreak(bs, c.chunks[k])
      {
        if k < |c0.chunks| {
          assert c.chunks[k] == c0.chunks[k];
          var i :| 0 <= i < |init| && init[i].line == c0.chunks[k].end + 1
            && c0.chunks[k].description == SectionBefore(init[i].title);
          assert bs[i] == init[i];
        } else {
          assert bs[|bs| - 1] == b;
        }
      }
    }
  }

  /** With the breaks sorted, every break lies less than `target` lines past
      the start of the open chunk. */
  lemma {:induction false} WalkReach(bs: seq<Break>, target: int)
    requires 1 <= target && SortedByLine(bs)
    ensures forall i :: 0 <= i < |bs| ==> bs[i].line < Walk(bs, target).current + target
    decreases |bs|
  {
    if bs != [] {
      var init, b := bs[..|bs| - 1], bs[|bs| - 1];
      WalkReach(init, target);
      var c0, c := Walk(init, target), Walk(bs, target);
      assert c0.current <= c.current;
      forall i | 0 <= i < |init|
        ensures bs[i].line < c.current + target
      {
        assert bs[i] == init[i];
      }
    }
  }

  /** With the breaks sorted, the loop is greedy: no break lies between
      `target` lines past a chunk's start and that chunk's end, so each chunk is
      closed at the first break far enough from its start. */
  lemma {:induction false} WalkGreedy(bs: seq<Break>, target: int)
    requires 1 <= target && SortedByLine(bs)
    ensures forall k, i :: 0 <= k < |Walk(bs, target).chunks| && 0 <= i < |bs| ==>
      !(Walk(bs, target).chunks[k].start + target <= bs[i].line <= Walk(bs, target).chunks[k].end)
    decreases |bs|
  {
    if bs != [] {
      var init, b := bs[..|bs| - 1], bs[|bs| - 1];
      WalkGreedy(init, target);
      WalkReach(init, target);
      WalkTiles(init, target);
      var c0 := Walk(init, target);
      var c := Walk(bs, target);
      TilesPartition(c0.chunks, 1, c0.current);
      if c0.chunks != [] {
        WalkLastClose(init, target);
      }
      forall k, i | 0 <= k < |c.chunks| && 0 <= i < |bs|
        ensures !(c.chunks[k].start + target <= bs[i].line <= c.chunks[k].end)
      {
        if i < |init| {
          assert bs[i] == init[i];
        }
        if k < |c0.chunks| {
          assert c.chunks[k] == c0.chunks[k];
        }
      }
    }
  }

  /** Once a chunk has been closed, the open chunk starts at a break no later
      than the last one visited. */
  lemma {:induction false} WalkLastClose(bs: seq<Break>, target: int)
    requires 1 <= target && SortedByLine(bs)
    requires Walk(bs, target).chunks != []
    ensures bs != [] && Walk(bs, target).current <= bs[|bs| - 1].line
    decreases |bs|
  {
    var init, b := bs[..|bs| - 1], bs[|bs| - 1];
    if b.line - Walk(init, target).current < target {
      WalkLastClose(init, target);
      assert init[|init| - 1] == bs[|bs| - 2];
    }
  }

  /** The open chunk starts at line 1 or at a break, so never past the last
      line when no break does. */
  lemma {:induction false} WalkCurrentAtBreak(bs: seq<Break>, target: int)
    ensures var c := Walk(bs, target);
      c.current == 1 || exists i :: 0 <= i < |bs| && bs[i].line == c.current
    decreases |bs|
  {
    if bs != [] {
      var init := bs[..|bs| - 1];
      WalkCurrentAtBreak(init, target);
      if Walk(bs, target).current == Walk(init, target).current && Walk(init, target).current != 1 {
        var i :| 0 <= i < |init| && init[i].line == Walk(init, target).current;
        assert bs[i] == init[i];
      }
    }
  }

  lemma {:induction false} WalkCurrentBound(bs: seq<Break>, target: int, total: int)
    requires 1 <= total
    requires forall i :: 0 <= i < |bs| ==> bs[i].line <= total
    ensures Walk(bs, target).current <= total
    decreases |bs|
  {
    if bs != [] {
      WalkCurrentBound(bs[..|bs| - 1], target, total);
    }
  }

  /** The break-aligned list as written: when the open chunk starts before the
      last line, the chunks cover every line of the file exactly once; when it
      starts on the last line, that line is in no chunk. */
  lemma WrittenBreakAlignedCoverage(bs: seq<Break>, total: int, target: int)
    requires 1 <= target && 1 <= total
    requires forall i :: 0 <= i < |bs| ==> bs[i].line <= total
    ensures var c := Walk(bs, target); var r := WrittenBreakAligned(bs, total, target);
      && (c.current < total ==> Tiles(r, 1, total + 1))
      && (c.current == total ==> Tiles(r, 1, total) && !Covers(r, total))
      && c.current <= total
  {
    var c := Walk(bs, target);
    var r := WrittenBreakAligned(bs, total, target);
    WalkTiles(bs, target);
    WalkCurrentBound(bs, target, total);
    if c.current < total {
      assert r[..|r| - 1] == c.chunks;
    } else {
      TilesPartition(r, 1, total);
    }
  }

  /** For a positive target size and breaks within the file, the intended
      break-aligned list covers every line from 1 to `total` exactly once. */
  lemma BreakAlignedTiles(bs: seq<Break>, total: int, target: int)
    requires 1 <= target && 1 <= total
    requires forall i :: 0 <= i < |bs| ==> bs[i].line <= total
    ensures Tiles(BreakAligned(bs, total, target), 1, total + 1)
  {
    var c := Walk(bs, target);
    var r := BreakAligned(bs, total, target);
    WalkTiles(bs, target);
    WalkCurrentBound(bs, target, total);
    assert r[..|r| - 1] == c.chunks;
  }

  /** A file of 401 lines with a class on line 201 and a function on its last
      line: the list as written ends at line 400, and line 401 is in no chunk;
      the break-aligned list ends with a one-line final chunk. */
  lemma FinalLineDropped()
    ensures var bs := [Break(201, ClassLabel("A")), Break(401, FunctionLabel("f"))];
      && WrittenBreakAligned(bs, 401, 200)
         == [Chunk(1, 200, 200, SectionBefore(ClassLabel("A"))),
             Chunk(201, 400, 200, SectionBefore(FunctionLabel("f")))]
      && !Covers(WrittenBreakAligned(bs, 401, 200), 401)
      && BreakAligned(bs, 401, 200) == WrittenBreakAligned(bs, 401, 200) + [Chunk(401, 401, 1, FinalSection)]
  {
    var bs := [Break(201, ClassLabel("A")), Break(401, FunctionLabel("f"))];
    assert bs[..1] == [bs[0]];
    assert [bs[0]][..0] == [];
    assert Walk(bs, 200).current == 401;
    WrittenBreakAlignedCoverage(bs, 401, 200);
  }

  /** Markers on lines 1, 198, 205 and 402 of a 500-line file with a target of
      200: the loop does not snap back to line 198, it closes the first chunk
      before line 205 and leaves the rest to the final chunk. */
  lemma MarkersExample()
    ensures var bs := [Break(1, FunctionLabel("a")), Break(198, FunctionLabel("b")),
                       Break(205, FunctionLabel("c")), Break(402, FunctionLabel("d"))];
      WrittenBreakAligned(bs, 500, 200)
        == [Chunk(1, 204, 204, SectionBefore(FunctionLabel("c"))), Chunk(205, 500, 296, FinalSection)]
  {
    var bs := [Break(1, FunctionLabel("a")), Break(198, FunctionLabel("b")),
               Break(205, FunctionLabel("c")), Break(402, FunctionLabel("d"))];
    assert bs[..3][..2][..1][..0] == [];
    assert Walk(bs[..1], 200) == Cursor([], 1);
    assert bs[..3][..2] == bs[..2];
    assert Walk(bs[..2], 200) == Cursor([], 1);
    assert bs[..3][..2] == bs[..2];
    assert Walk(bs[..3], 200) == Cursor([Chunk(1, 204, 204, SectionBefore(FunctionLabel("c")))], 205);
  }

  // ---------------------------------------------------------------------------
  // The size-based path

  lemma MulMono(a: int, b: int, t: int)
    requires a <= b && 0 <= t
    ensures a * t <= b * t
  {
  }

  /** For a positive target size and a non-empty file, the size-based list has
      `ceil(total / target)` chunks numbered 1 to that count, each of 1 to
      `target` lines, that cover the file exactly once. */
  lemma SizeChunksShape(total: int, target: int)
    requires 1 <= target && 1 <= total
    ensures var r := SizeChunks(total, target);
      && |r| == (total + target - 1) / target
      && Tiles(r, 1, total + 1)
      && (forall k :: 0 <= k < |r| ==> 1 <= r[k].lines <= target)
      && (forall k :: 0 <= k < |r| ==> r[k].description == ChunkOf(k + 1, |r|))
  {
    var count := FloorDiv(total + target - 1, target);
    var r := SizeChunks(total, target);
    assert 1 <= count;
    SizePrefixTiles(total, target, count);
    assert r[..count] == r;
    forall k | 0 <= k < |r|
      ensures 1 <= r[k].lines <= target
    {
      MulMono(k, count - 1, target);
    }
  }

  lemma {:induction false} SizePrefixTiles(total: int, target: int, n: int)
    requires 1 <= target && 1 <= total
    requires 0 <= n <= FloorDiv(total + target - 1, target)
    ensures Tiles(SizeChunks(total, target)[..n], 1, Min(n * target, total) + 1)
    decreases n
  {
    var r := SizeChunks(total, target);
    if n > 0 {
      SizePrefixTiles(total, target, n - 1);
      assert r[..n][..n - 1] == r[..n - 1];
      SizeChunkStart(total, target, n - 1);
      var a := (n - 1) * target;
      assert r[n - 1] == SizeChunk(n - 1, total, target, |r|);
      assert Min(a, total) == a && n * target == a + target;
    }
  }

  /** Every chunk of the size-based list starts within the file. */
  lemma SizeChunkStart(total: int, target: int, i: int)
    requires 1 <= target && 1 <= total
    requires 0 <= i < FloorDiv(total + target - 1, target)
    ensures i * target < total
  {
    var count := FloorDiv(total + target - 1, target);
    MulMono(i, count - 1, target);
    assert (count - 1) * target == count * target - target;
  }

  // ---------------------------------------------------------------------------
  // The whole of `suggest_splits`

  /** The cases that return an empty list or raise: a missing file, a file no
      longer than the target size, and a target size of 0 with no class or
      function to align to. */
  lemma SuggestOutcomes(a: Analysis, target: int)
    ensures a.FileNotFound? ==> Suggest(a, target) == Suggested([])
    ensures a.Report? && a.totalLines <= target ==> Suggest(a, target) == Suggested([])
    ensures Suggest(a, target) == DivisionByZero <==>
      a.Report? && target == 0 < a.totalLines && a.classes == [] && a.functions == []
  {
  }

  /** Every break lies at or before line `total` when every entry does. */
  lemma {:induction false} BreaksOfLines(es: seq<Entry>, classes: bool, total: int)
    requires forall j :: 0 <= j < |es| ==> es[j].line <= total
    ensures forall i :: 0 <= i < |BreaksOf(es, classes)| ==> BreaksOf(es, classes)[i].line <= total
    decreases |es|
  {
    if es != [] {
      BreaksOfLines(es[..|es| - 1], classes, total);
    }
  }

  /** The `i`-th break of a list stands at the line of the `i`-th entry. */
  lemma {:induction false} BreakLineOf(es: seq<Entry>, classes: bool, i: int)
    requires 0 <= i < |es|
    ensures BreaksOf(es, classes)[i].line == es[i].line
    decreases |es|
  {
    if i < |es| - 1 {
      BreakLineOf(es[..|es| - 1], classes, i);
    }
  }

  /** A plan whose chunks are consecutive, in order, and cover every line of a
      file of `total` lines exactly once, or every line but the last. */
  predicate CoversFile(s: Suggestion, total: int) {
    s.Suggested? && (Tiles(s.chunks, 1, total + 1) || (Tiles(s.chunks, 1, total) && !Covers(s.chunks, total)))
  }

  /** Some class or function of a report starts on `line`. */
  predicate StartsOn(a: Analysis, line: int)
    requires a.Report?
  {
    || (exists j :: 0 <= j < |a.classes| && a.classes[j].line == line)
    || (exists j :: 0 <= j < |a.functions| && a.functions[j].line == line)
  }

  /** Every function and class of a report lies within the file. */
  predicate InFile(a: Analysis) {
    && a.Report?
    && (forall j :: 0 <= j < |a.classes| ==> a.classes[j].line <= a.totalLines)
    && (forall j :: 0 <= j < |a.functions| ==> a.functions[j].line <= a.totalLines)
  }

  /** For a positive target size and a file longer than it whose classes and
      functions lie on its lines, the suggested chunks cover every line
      exactly once, except that the last line is left out when the loop's
      open chunk starts on it; that happens only when a class or function
      starts on the last line. */
  lemma SuggestCoverage(a: Analysis, target: int)
    requires a.Report? && 1 <= target < a.totalLines
    requires InFile(a)
    ensures CoversFile(Suggest(a, target), a.totalLines)
    ensures !StartsOn(a, a.totalLines) ==> Tiles(Suggest(a, target).chunks, 1, a.totalLines + 1)
  {
    var total := a.totalLines;
    var breaks := SortByLine(LogicalBreaks(a));
    if breaks != [] {
      SortedBreaksBound(a);
      WrittenBreakAlignedCoverage(breaks, total, target);
      var c := Walk(breaks, target);
      if c.current == total {
        WalkCurrentAtBreak(breaks, target);
        var i :| 0 <= i < |breaks| && breaks[i].line == total;
        SortedBreakStarts(a, i);
      }
    } else {
      SizeChunksShape(total, target);
    }
  }

  /** Every sorted break stands at the line of some class or function. */
  lemma SortedBreakStarts(a: Analysis, i: int)
    requires a.Report?
    requires 0 <= i < |SortByLine(LogicalBreaks(a))|
    ensures StartsOn(a, SortByLine(LogicalBreaks(a))[i].line)
  {
    var logical := LogicalBreaks(a);
    var b := SortByLine(logical)[i];
    SortByLinePermutes(logical);
    assert b in multiset(logical);
    var j :| 0 <= j < |logical| && logical[j] == b;
    LogicalBreakStarts(a, j);
  }

  lemma LogicalBreakStarts(a: Analysis, j: int)
    requires a.Report?
    requires 0 <= j < |LogicalBreaks(a)|
    ensures StartsOn(a, LogicalBreaks(a)[j].line)
  {
    var cb := BreaksOf(a.classes, true);
    if j < |cb| {
      assert LogicalBreaks(a)[j] == cb[j];
      BreakLineOf(a.classes, true, j);
      assert a.classes[j].line == LogicalBreaks(a)[j].line;
    } else {
      var k := j - |cb|;
      assert LogicalBreaks(a)[j] == BreaksOf(a.functions, false)[k];
      BreakLineOf(a.functions, false, k);
      assert a.functions[k].line == LogicalBreaks(a)[j].line;
    }
  }

  /** Sorting keeps every break within the file. */
  lemma SortedBreaksBound(a: Analysis)
    requires a.Report?
    requires InFile(a)
    ensures forall i :: 0 <= i < |SortByLine(LogicalBreaks(a))| ==> SortByLine(LogicalBreaks(a))[i].line <= a.totalLines
  {
    var logical := LogicalBreaks(a);
    var cb, fb := BreaksOf(a.classes, true), BreaksOf(a.functions, false);
    BreaksOfLines(a.classes, true, a.totalLines);
    BreaksOfLines(a.functions, false, a.totalLines);
    forall i | 0 <= i < |logical|
      ensures logical[i].line <= a.totalLines
    {
      if i < |cb| {
        assert logical[i] == cb[i];
      } else {
        assert logical[i] == fb[i - |cb|];
      }
    }
    SortByLinePermutes(logical);
    PermutedBound(logical, SortByLine(logical), a.totalLines);
  }

  lemma PermutedBound(xs: seq<Break>, ys: seq<Break>, total: int)
    requires multiset(xs) == multiset(ys)
    requires forall i :: 0 <= i < |xs| ==> xs[i].line <= total
    ensures forall i :: 0 <= i < |ys| ==> ys[i].line <= total
  {
    forall i | 0 <= i < |ys|
      ensures ys[i].line <= total
    {
      assert ys[i] in multiset(xs);
      var j :| 0 <= j < |xs| && xs[j] == ys[i];
    }
  }

  /** From a file's text to its plan: the analysis of any existing file meets
      the conditions above, so for every target size smaller than its length
      its plan covers the file, all of it unless a class or function starts on
      the last line. */
  lemma PlanForFile(path: string, suffix: string, text: string, m: Matcher, target: int)
    requires 1 <= target < |SplitLines(text)|
    ensures var a := Analyze(path, suffix, Some(text), m);
      && CoversFile(Suggest(a, target), |SplitLines(text)|)
      && (!StartsOn(a, |SplitLines(text)|) ==> Tiles(Suggest(a, target).chunks, 1, |SplitLines(text)| + 1))
  {
    var a := Analyze(path, suffix, Some(text), m);
    AnalysisInFile(path, suffix, text, m);
    SuggestCoverage(a, target);
  }

  /** Every function and class the analysis of a file lists lies in the file. */
  lemma AnalysisInFile(path: string, suffix: string, text: string, m: Matcher)
    ensures InFile(Analyze(path, suffix, Some(text), m))
    ensures Analyze(path, suffix, Some(text), m).totalLines == |SplitLines(text)|
  {
    var lines := SplitLines(text);
    var fam := FamilyOf(suffix);
    ScanLinesBound(m, fam, ClassRule, lines);
    ScanLinesBound(m, fam, FunctionRule, lines);
  }

  lemma ScanLinesBound(m: Matcher, fam: Family, rule: Rule, lines: seq<string>)
    ensures forall j :: 0 <= j < |Scan(m, fam, rule, lines)| ==> Scan(m, fam, rule, lines)[j].line <= |lines|
  {
    CollectFromLines(Found(m, fam, rule, lines));
  }
}
