/** Head and tail samples of a trace file, and the whole lines that can be read from them. */
module TraceWindows {
  import opened Bytes

  const LF: Byte := 10
  const CR: Byte := 13

  datatype Window = Window(offset: nat, data: Buffer) {
    function End(): nat { offset + |data| }
  }

  datatype Line = Line(offset: nat, text: Buffer) {
    function End(): nat { offset + |text| }
  }

  /** The windows are parts of the file, in order and apart from each other. */
  ghost predicate Samples(file: Buffer, windows: seq<Window>) {
    && (forall i | 0 <= i < |windows| :: Samples1(file, windows[i]))
    && (forall i, j | 0 <= i < j < |windows| :: windows[i].End() <= windows[j].offset)
  }

  ghost predicate Samples1(file: Buffer, w: Window) {
    w.End() <= |file| && w.data == file[w.offset..w.End()]
  }

  function Total(windows: seq<Window>): nat {
    if windows == [] then 0 else |windows[0].data| + Total(windows[1..])
  }

  /** Never more than the limit, never less than it when the file has as much, and never a byte twice. */
  method ReadTraceWindows(file: Buffer, maximum: int) returns (r: Result<seq<Window>>)
    ensures r.Err? <==> maximum < 2
    ensures r.Ok? ==>
              && Samples(file, r.value) && Total(r.value) == Min(|file|, maximum)
              && r.value != [] && r.value[0].offset == 0
              && (|file| <= maximum <==> r.value == [Window(0, file)])
              && (|file| > maximum ==> |r.value| == 2 && r.value[1].End() == |file|
                                       && |r.value[0].data| == maximum / 2)
  {
    if maximum < 2 {
      return Err("ValueError: trace sample limit must be at least two bytes");
    }
    var total := |file|;
    if total <= maximum {
      assert file[0..|file|] == file;
      return Ok([Window(0, file)]);
    }
    var head := maximum / 2;
    var tail := total - (maximum - head);
    var windows := [Window(0, file[..head]), Window(tail, file[tail..])];
    assert Total(windows[1..]) == maximum - head + Total(windows[1..][1..]);
    r := Ok(windows);
  }

  /** _trace_sample_metadata: what was observed is all there is exactly when nothing was cut. */
  method SampleMetadata(file: Buffer, windows: seq<Window>) returns (observed: nat, truncated: bool)
    requires Samples(file, windows)
    ensures observed == Total(windows) && (truncated <==> observed < |file|)
  {
    observed := 0;
    for i := 0 to |windows|
      invariant observed + Total(windows[i..]) == Total(windows)
    {
      assert windows[i..][1..] == windows[i + 1..];
      observed := observed + |windows[i].data|;
    }
    truncated := |file| > observed;
  }

  // Lines.

  /** A line ends here: behind a line feed, or behind a carriage return that none follows. */
  predicate BreakAt(data: Buffer, e: nat) {
    0 < e <= |data| && (data[e - 1] == LF || (data[e - 1] == CR && !(e < |data| && data[e] == LF)))
  }

  /** One of the lines splitlines(keepends=True) makes of the whole file. */
  ghost predicate IsLine(file: Buffer, s: nat, e: nat) {
    && s < e <= |file| && (s == 0 || BreakAt(file, s)) && (e == |file| || BreakAt(file, e))
    && forall k | s < k < e :: !BreakAt(file, k)
  }

  /** The end of the line that starts at i. */
  function NextBreak(data: Buffer, i: nat): (e: nat)
    requires i < |data|
    ensures i < e <= |data| && (e == |data| || BreakAt(data, e))
    ensures forall k | i < k < e :: !BreakAt(data, k)
    decreases |data| - i
  {
    if i + 1 == |data| || BreakAt(data, i + 1) then i + 1 else NextBreak(data, i + 1)
  }

  /** A line of the file that ends with a line feed or with the file. */
  ghost predicate Terminated(file: Buffer, s: nat, e: nat) {
    IsLine(file, s, e) && (file[e - 1] == LF || e == |file|)
  }

  /** The sample shows the whole line, and that it is the whole line. */
  predicate Covers(w: Window, s: nat, e: nat) {
    w.offset <= s && e <= w.End() && (s == 0 || w.offset < s)
  }

  /** The lines up to byte `limit` of this window, and no others, in order. */
  ghost predicate Yields(lines: seq<Line>, file: Buffer, windows: seq<Window>, done: nat, limit: nat) {
    && (forall i, j | 0 <= i < j < |lines| :: lines[i].End() <= lines[j].offset)
    && (forall i | 0 <= i < |lines| :: |lines[i].text| > 0)
    && forall line: Line :: line in lines <==> Wanted(line, file, windows, done, limit)
  }

  /** A terminated line of the file, at its offset, that one of the first windows covers. */
  ghost predicate Wanted(line: Line, file: Buffer, windows: seq<Window>, done: nat, limit: nat) {
    && Terminated(file, line.offset, line.End()) && line.text == file[line.offset..line.End()]
    && line.End() <= limit && Sampled(windows, done, line.offset, line.End())
  }

  /** One of the first windows covers the line. */
  predicate Sampled(windows: seq<Window>, done: nat, s: nat, e: nat) {
    exists i | 0 <= i < done && i < |windows| :: Covers(windows[i], s, e)
  }

  /**
   * Yields, in order, exactly the terminated lines of the file that some window covers: each is a
   * whole line at its stated offset, and no line is joined across the cut.
   */
  method TraceLines(windows: seq<Window>, total: nat, ghost file: Buffer) returns (lines: seq<Line>)
    requires Samples(file, windows) && total == |file|
    ensures Yields(lines, file, windows, |windows|, total)
  {
    hide IsLine, Yields, Samples1;
    lines := [];
    NothingYet(file, windows);
    for i := 0 to |windows|
      invariant Yields(lines, file, windows, i, total)
    {
      var data := windows[i].data;
      var position := 0;
      Within(lines, file, windows, i);
      while position < |data|
        invariant position <= |data| && (position == 0 || BreakAt(data, position) || position == |data|)
        invariant Yields(lines, file, windows, i + 1, windows[i].offset + position)
      {
        var next := NextBreak(data, position);
        var offset, line := windows[i].offset + position, data[position..next];
        OneLine(lines, file, windows, i, position);
        if (offset == 0 || position > 0) && (line[|line| - 1] == LF || offset + |line| == total) {
          lines := lines + [Line(offset, line)];
        }
        position := next;
      }
      WindowDone(lines, file, windows, i);
    }
  }

  lemma NothingYet(file: Buffer, windows: seq<Window>)
    ensures Yields([], file, windows, 0, |file|)
  {
  }

  lemma CoveredInside(windows: seq<Window>, file: Buffer, i: nat, s: nat, e: nat)
    requires Samples(file, windows) && i < |windows| && s < e
    ensures Sampled(windows, i + 1, s, e) ==> e <= windows[i].End()
    ensures Sampled(windows, i, s, e) ==> e <= windows[i].offset
    ensures Sampled(windows, i + 1, s, e) && windows[i].offset < e ==> Covers(windows[i], s, e)
    ensures Covers(windows[i], s, e) ==> Sampled(windows, i + 1, s, e) && windows[i].offset < e
    ensures Sampled(windows, i, s, e) ==> Sampled(windows, i + 1, s, e)
    ensures Sampled(windows, i + 1, s, e) && e <= windows[i].offset ==> Sampled(windows, i, s, e)
  {
    if Sampled(windows, i, s, e) {
      var k :| 0 <= k < i && Covers(windows[k], s, e);
      assert windows[k].End() <= windows[i].offset;
    }
  }

  /** Between two windows nothing changes. */
  lemma Within(lines: seq<Line>, file: Buffer, windows: seq<Window>, i: nat)
    requires Samples(file, windows) && i < |windows| && Yields(lines, file, windows, i, |file|)
    ensures Yields(lines, file, windows, i + 1, windows[i].offset)
  {
    hide Sampled, BreakAt;
    forall line: Line | line.text != []
      ensures Sampled(windows, i + 1, line.offset, line.End()) && line.End() <= windows[i].offset
              <==> Sampled(windows, i, line.offset, line.End())
    {
      CoveredInside(windows, file, i, line.offset, line.End());
    }
  }

  lemma WindowDone(lines: seq<Line>, file: Buffer, windows: seq<Window>, i: nat)
    requires Samples(file, windows) && i < |windows| && Yields(lines, file, windows, i + 1, windows[i].End())
    ensures Yields(lines, file, windows, i + 1, |file|)
  {
    hide Sampled, BreakAt;
    forall line: Line | line.text != []
      ensures Sampled(windows, i + 1, line.offset, line.End()) ==> line.End() <= windows[i].End() <= |file|
    {
      CoveredInside(windows, file, i, line.offset, line.End());
      assert Samples1(file, windows[i]);
    }
  }

  /** Inside a window its line ends are those of the file. */
  lemma SameBreak(file: Buffer, w: Window, p: nat)
    requires Samples1(file, w) && 0 < p < |w.data|
    ensures BreakAt(w.data, p) <==> BreakAt(file, w.offset + p)
  {
  }

  /** The only terminated line that ends within this stretch of the window is the stretch itself. */
  lemma OnlyLine(file: Buffer, w: Window, position: nat, s: nat, e: nat)
    requires Samples1(file, w) && position < |w.data| && (position == 0 || BreakAt(w.data, position))
    requires IsLine(file, s, e) && Covers(w, s, e)
    requires w.offset + position < e <= w.offset + NextBreak(w.data, position)
    ensures s == w.offset + position && e == w.offset + NextBreak(w.data, position)
  {
    hide BreakAt;
    var next := NextBreak(w.data, position);
    if e < w.offset + next {
      SameBreak(file, w, e - w.offset);
    }
    if s < w.offset + position {
      SameBreak(file, w, position);
    } else if s > w.offset + position {
      SameBreak(file, w, s - w.offset);
    }
  }

  lemma StretchIsLine(file: Buffer, w: Window, position: nat)
    requires Samples1(file, w) && position < |w.data| && (position == 0 || BreakAt(w.data, position))
    ensures var s, e := w.offset + position, w.offset + NextBreak(w.data, position);
            (s == 0 || position > 0) && (file[e - 1] == LF || e == |file|)
            <==> Terminated(file, s, e) && Covers(w, s, e)
  {
    var next := NextBreak(w.data, position);
    var s, e := w.offset + position, w.offset + next;
    if position > 0 {
      SameBreak(file, w, position);
    }
    forall k | s < k < e ensures !BreakAt(file, k) {
      SameBreak(file, w, k - w.offset);
    }
  }

  /** The line that starts at this position of the window, when it is to be yielded. */
  predicate Complete(file: Buffer, w: Window, position: nat)
    requires position < |w.data|
  {
    var next := NextBreak(w.data, position);
    (w.offset + position == 0 || position > 0) && (w.data[next - 1] == LF || w.offset + next == |file|)
  }

  function LineAt(w: Window, position: nat): Line
    requires position < |w.data|
  {
    Line(w.offset + position, w.data[position..NextBreak(w.data, position)])
  }

  /** The line at this position is wanted if it is complete. */
  lemma ThisLine(file: Buffer, windows: seq<Window>, i: nat, position: nat)
    requires Samples(file, windows) && i < |windows| && position < |windows[i].data|
    requires position == 0 || BreakAt(windows[i].data, position)
    ensures var line := LineAt(windows[i], position);
            Wanted(line, file, windows, i + 1, line.End()) <==> Complete(file, windows[i], position)
  {
    hide Sampled, BreakAt, IsLine, Covers;
    var w := windows[i];
    assert Samples1(file, w);
    var line := LineAt(w, position);
    SliceOfSlice(file, w.offset, w.End(), position, NextBreak(w.data, position));
    StretchIsLine(file, w, position);
    CoveredInside(windows, file, i, line.offset, line.End());
  }

  /** From one line end to the next only this line can be wanted. */
  lemma NoOtherLine(other: Line, file: Buffer, windows: seq<Window>, i: nat, position: nat)
    requires Samples(file, windows) && i < |windows| && position < |windows[i].data|
    requires position == 0 || BreakAt(windows[i].data, position)
    requires Wanted(other, file, windows, i + 1, LineAt(windows[i], position).End())
    requires other.End() > windows[i].offset + position
    ensures other == LineAt(windows[i], position)
  {
    hide Sampled, BreakAt, IsLine, Covers;
    var w := windows[i];
    assert Samples1(file, w);
    var next := NextBreak(w.data, position);
    SliceOfSlice(file, w.offset, w.End(), position, next);
    NotEmpty(file, other.offset, other.End());
    CoveredInside(windows, file, i, other.offset, other.End());
    OnlyLine(file, w, position, other.offset, other.End());
  }

  /** One turn of the inner loop. */
  lemma WantedNext(other: Line, file: Buffer, windows: seq<Window>, i: nat, position: nat)
    requires Samples(file, windows) && i < |windows| && position < |windows[i].data|
    requires position == 0 || BreakAt(windows[i].data, position)
    ensures var line := LineAt(windows[i], position);
            Wanted(other, file, windows, i + 1, line.End())
            <==> Wanted(other, file, windows, i + 1, line.offset)
                 || (Complete(file, windows[i], position) && other == line)
  {
    hide Sampled, BreakAt, Terminated, Samples, Complete;
    ThisLine(file, windows, i, position);
    var line := LineAt(windows[i], position);
    if Wanted(other, file, windows, i + 1, line.End()) && other.End() > line.offset {
      NoOtherLine(other, file, windows, i, position);
    }
  }

  lemma OneLine(lines: seq<Line>, file: Buffer, windows: seq<Window>, i: nat, position: nat)
    requires Samples(file, windows) && i < |windows| && position < |windows[i].data|
    requires position == 0 || BreakAt(windows[i].data, position)
    requires Yields(lines, file, windows, i + 1, windows[i].offset + position)
    ensures var line := LineAt(windows[i], position);
            Yields(if Complete(file, windows[i], position) then lines + [line] else lines, file, windows, i + 1,
                   line.End())
  {
    hide Samples, BreakAt, Complete, Wanted;
    var line := LineAt(windows[i], position);
    var near, far, done := line.offset, line.End(), i + 1;
    forall other: Line
      ensures Wanted(other, file, windows, done, far)
              <==> Wanted(other, file, windows, done, near) || (Complete(file, windows[i], position) && other == line)
    {
      WantedNext(other, file, windows, i, position);
    }
    forall k | 0 <= k < |lines| ensures lines[k].End() <= near {
      assert lines[k] in lines;
      WantedEnds(lines[k], file, windows, i + 1, near);
    }
  }

  lemma WantedEnds(line: Line, file: Buffer, windows: seq<Window>, done: nat, limit: nat)
    requires Wanted(line, file, windows, done, limit)
    ensures line.End() <= limit
  {
  }

  lemma NotEmpty(file: Buffer, s: nat, e: nat)
    requires IsLine(file, s, e)
    ensures s < e
  {
  }

  /** Without a cut, every line that ends with a line feed or with the file is yielded. */
  lemma WholeFile(file: Buffer, lines: seq<Line>, s: nat, e: nat)
    requires Yields(lines, file, [Window(0, file)], 1, |file|) && Terminated(file, s, e)
    ensures Line(s, file[s..e]) in lines
  {
    hide BreakAt;
    var line := Line(s, file[s..e]);
    assert Covers([Window(0, file)][0], line.offset, line.End());
    assert Sampled([Window(0, file)], 1, line.offset, line.End());
  }
}
