/** Building the runs of a line in visual order, and that they spell its visual form. */
module BidiRuns {
  import opened Prelude
  import opened Bidi
  import opened BidiShown

  /** The maximal runs of a line in logical order. */
  function RunsOf(glyphs: string, d: seq<Side>): (runs: seq<Run>)
    requires |d| == |glyphs|
    ensures d == [] <==> runs == []
  {
    if d == [] then [] else
      var s := RunStart(d, |d| - 1);
      RunsOf(glyphs[..s], d[..s]) + [Run(d[s], glyphs[s..])]
  }

  predicate Alternates(runs: seq<Run>) {
    && (forall i | 0 <= i < |runs| :: runs[i].text != "")
    && (forall i | 0 < i < |runs| :: runs[i - 1].dir != runs[i].dir)
  }

  /** A run as it appears on the page. */
  function Shown(run: Run): string {
    if run.dir == R then Reversed(run.text) else run.text
  }

  function Concat(runs: seq<Run>): string {
    if runs == [] then "" else Shown(runs[0]) + Concat(runs[1..])
  }

  lemma {:induction false} RunsAlternate(glyphs: string, d: seq<Side>)
    requires |d| == |glyphs|
    ensures Alternates(RunsOf(glyphs, d))
    ensures d != [] ==> var runs := RunsOf(glyphs, d); runs[|runs| - 1].dir == d[|d| - 1]
  {
    if d != [] {
      var s, e := RunAt(d, |d| - 1);
      RunsAlternate(glyphs[..s], d[..s]);
    }
  }

  /** One more glyph extends the last run or opens a new one. */
  function Push(runs: seq<Run>, dir: Side, glyph: char): seq<Run> {
    if runs != [] && runs[|runs| - 1].dir == dir
    then runs[..|runs| - 1] + [Run(dir, runs[|runs| - 1].text + [glyph])]
    else runs + [Run(dir, [glyph])]
  }

  lemma LastRunIs(glyphs: string, d: seq<Side>, s: nat)
    requires |d| == |glyphs| > 0 && IsRun(d, |d| - 1, s, |d|)
    ensures RunsOf(glyphs, d) == RunsOf(glyphs[..s], d[..s]) + [Run(d[s], glyphs[s..])]
  {
    RunIsUnique(d, |d| - 1, s, |d|);
  }

  lemma PushExtends(front: seq<Run>, dir: Side, text: string, glyph: char)
    ensures Push(front + [Run(dir, text)], dir, glyph) == front + [Run(dir, text + [glyph])]
  {
  }

  lemma RunShorter(d: seq<Side>, n: nat, s: nat)
    requires |d| == n + 1 && n > 0 && d[n - 1] == d[n] && IsRun(d, n, s, n + 1)
    ensures s < n && IsRun(d[..n], n - 1, s, n)
  {
  }

  lemma RunsOfFront(glyphs: string, d: seq<Side>, n: nat, s: nat)
    requires |d| == |glyphs| && s < n <= |d| && IsRun(d[..n], n - 1, s, n)
    ensures RunsOf(glyphs[..n], d[..n]) == RunsOf(glyphs[..s], d[..s]) + [Run(d[s], glyphs[s..n])]
  {
    LastRunIs(glyphs[..n], d[..n], s);
    assert d[..n][..s] == d[..s] && glyphs[..n][..s] == glyphs[..s] && glyphs[..n][s..] == glyphs[s..n];
  }

  lemma SliceGrows(glyphs: string, s: nat, n: nat)
    requires s <= n && |glyphs| == n + 1
    ensures glyphs[s..] == glyphs[s..n] + [glyphs[n]]
  {
  }

  lemma RunExtendsFrom(glyphs: string, d: seq<Side>, n: nat, s: nat)
    requires |d| == |glyphs| == n + 1 && s < n && d[s] == d[n] && IsRun(d, n, s, n + 1) && IsRun(d[..n], n - 1, s, n)
    ensures RunsOf(glyphs, d) == Push(RunsOf(glyphs[..n], d[..n]), d[n], glyphs[n])
  {
    LastRunIs(glyphs, d, s);
    RunsOfFront(glyphs, d, n, s);
    SliceGrows(glyphs, s, n);
    PushExtends(RunsOf(glyphs[..s], d[..s]), d[s], glyphs[s..n], glyphs[n]);
  }

  lemma RunExtends(glyphs: string, d: seq<Side>, n: nat)
    requires |d| == |glyphs| == n + 1 && n > 0 && d[n - 1] == d[n]
    ensures RunsOf(glyphs, d) == Push(RunsOf(glyphs[..n], d[..n]), d[n], glyphs[n])
  {
    var s, _ := RunAt(d, n);
    RunShorter(d, n, s);
    RunExtendsFrom(glyphs, d, n, s);
  }

  lemma RunOpens(glyphs: string, d: seq<Side>, n: nat)
    requires |d| == |glyphs| == n + 1 && (n > 0 ==> d[n - 1] != d[n])
    ensures RunsOf(glyphs, d) == Push(RunsOf(glyphs[..n], d[..n]), d[n], glyphs[n])
  {
    LastRunIs(glyphs, d, n);
    RunsAlternate(glyphs[..n], d[..n]);
    assert glyphs[n..] == [glyphs[n]];
  }

  lemma RunsGrow(glyphs: string, d: seq<Side>, n: nat)
    requires |d| == |glyphs| && n < |d|
    ensures RunsOf(glyphs[..n + 1], d[..n + 1]) == Push(RunsOf(glyphs[..n], d[..n]), d[n], glyphs[n])
  {
    assert d[..n + 1][..n] == d[..n] && glyphs[..n + 1][..n] == glyphs[..n];
    if n > 0 && d[n - 1] == d[n] {
      RunExtends(glyphs[..n + 1], d[..n + 1], n);
    } else {
      RunOpens(glyphs[..n + 1], d[..n + 1], n);
    }
  }

  /** The text of the runs, read off the page from left to right. */
  lemma {:induction false} RunsSpellReversal(glyphs: string, d: seq<Side>)
    requires |d| == |glyphs|
    ensures Concat(Reversed(RunsOf(glyphs, d))) == Reversed(ReverseLtrRuns(glyphs, d))
  {
    if d == [] {
      return;
    }
    var s, e := RunAt(d, |d| - 1);
    var front, last := RunsOf(glyphs[..s], d[..s]), Run(d[s], glyphs[s..]);
    RunsSpellReversal(glyphs[..s], d[..s]);
    LastRunIs(glyphs, d, s);
    LastRunSplitsOff(glyphs, d, s);
    LastRunComesFirst(front, last);
  }

  lemma LastRunComesFirst(front: seq<Run>, last: Run)
    ensures Concat(Reversed(front + [last])) == Shown(last) + Concat(Reversed(front))
  {
    var reversed := Reversed(front);
    assert Reversed(front + [last]) == [last] + reversed;
    assert ([last] + reversed)[1..] == reversed;
  }

  lemma FrontUnaffected(glyphs: string, d: seq<Side>, s: nat)
    requires s < |d| == |glyphs| && IsRun(d, |d| - 1, s, |d|)
    ensures ReverseLtrRuns(glyphs, d)[..s] == ReverseLtrRuns(glyphs[..s], d[..s])
  {
    forall i | 0 <= i < s ensures Reflect(d, i) == Reflect(d[..s], i) {
      var s', e' := RunAt(d[..s], i);
      RunIsUnique(d, i, s', e');
    }
  }

  lemma LastRunReversed(glyphs: string, d: seq<Side>, s: nat)
    requires s < |d| == |glyphs| && IsRun(d, |d| - 1, s, |d|)
    ensures Reversed(ReverseLtrRuns(glyphs, d)[s..]) == Shown(Run(d[s], glyphs[s..]))
  {
    var tail := ReverseLtrRuns(glyphs, d)[s..];
    if d[s] == R {
      assert tail == glyphs[s..];
    } else {
      assert tail == Reversed(glyphs[s..]) by {
        forall i | s <= i < |d| ensures Reflect(d, i) == s + |d| - 1 - i {
          RunIsUnique(d, i, s, |d|);
        }
      }
      assert Reversed(Reversed(glyphs[s..])) == glyphs[s..];
    }
  }

  lemma LastRunSplitsOff(glyphs: string, d: seq<Side>, s: nat)
    requires s < |d| == |glyphs| && IsRun(d, |d| - 1, s, |d|)
    ensures Reversed(ReverseLtrRuns(glyphs, d)) ==
            Shown(Run(d[s], glyphs[s..])) + Reversed(ReverseLtrRuns(glyphs[..s], d[..s]))
  {
    FrontUnaffected(glyphs, d, s);
    LastRunReversed(glyphs, d, s);
    var w := ReverseLtrRuns(glyphs, d);
    assert Reversed(w) == Reversed(w[s..]) + Reversed(w[..s]);
  }

  /** Runs in visual order, the leftmost first, each in logical order. */
  function VisualRuns(line: string): seq<Run> {
    var d := Resolve(Classes(line));
    Reversed(RunsOf(Mirrored(line, d), d))
  }

  /** The run list spells exactly the reordered line, and its directions alternate. */
  lemma {:induction false} VisualRunsAreVisualLine(line: string)
    ensures Concat(VisualRuns(line)) == VisualLine(line)
    ensures Alternates(VisualRuns(line))
  {
    var d := Resolve(Classes(line));
    RunsSpellReversal(Mirrored(line, d), d);
    RunsAlternate(Mirrored(line, d), d);
  }

  // What the runs hold, character by character.

  function Texts(runs: seq<Run>): string {
    if runs == [] then "" else Texts(runs[..|runs| - 1]) + runs[|runs| - 1].text
  }

  function Dirs(runs: seq<Run>): seq<Side> {
    if runs == [] then [] else
      var last := runs[|runs| - 1];
      Dirs(runs[..|runs| - 1]) + seq(|last.text|, i => last.dir)
  }

  /** In logical order the runs hold the line: a character of a right-to-left run faces the other way, one of a
      left-to-right run stands as it is, and the run goes left-to-right exactly where the line does. */
  ghost predicate Holds(runs: seq<Run>, line: string) {
    && |Texts(runs)| == |Dirs(runs)| == |line|
    && forall k | 0 <= k < |line| ::
         && (Dirs(runs)[k] == L <==> IsLtr(line, k))
         && if Dirs(runs)[k] == L then Texts(runs)[k] == line[k] else Faces(line[k], Texts(runs)[k])
  }

  lemma {:induction false} RunsHoldGlyphs(glyphs: string, d: seq<Side>)
    requires |d| == |glyphs|
    ensures Texts(RunsOf(glyphs, d)) == glyphs && Dirs(RunsOf(glyphs, d)) == d
  {
    if d != [] {
      var s, _ := RunAt(d, |d| - 1);
      RunsHoldGlyphs(glyphs[..s], d[..s]);
      assert glyphs == glyphs[..s] + glyphs[s..] && d == d[..s] + seq(|d| - s, i => d[s]);
    }
  }

  lemma {:induction false} VisualRunsHold(line: string)
    ensures Holds(Reversed(VisualRuns(line)), line)
  {
    var d := Resolve(Classes(line));
    var glyphs := Mirrored(line, d);
    assert Reversed(VisualRuns(line)) == RunsOf(glyphs, d);
    RunsHoldGlyphs(glyphs, d);
    forall k | 0 <= k < |line|
      ensures d[k] == L <==> IsLtr(line, k)
      ensures if d[k] == L then glyphs[k] == line[k] else Faces(line[k], glyphs[k])
    {
      DirectionIs(line, k);
      MirrorFaces(line[k]);
    }
  }

  method LayoutRtlRuns(line: string) returns (runs: seq<Run>)
    ensures runs == VisualRuns(line)
    ensures Concat(runs) == VisualLine(line) && Alternates(runs)
    ensures Holds(Reversed(runs), line)
  {
    VisualRunsAreVisualLine(line);
    VisualRunsHold(line);
    if |line| == 0 {
      return [];
    }
    var resolved := ResolveDirections(line);
    ghost var glyphs := Mirrored(line, resolved);
    runs := [];
    for i := 0 to |line|
      invariant runs == RunsOf(glyphs[..i], resolved[..i])
    {
      var dir: Side := resolved[i];
      var glyph := if dir == R then Mirror(line[i]) else line[i];
      RunsGrow(glyphs, resolved, i);
      if runs != [] && runs[|runs| - 1].dir == dir {
        var last := runs[|runs| - 1];
        runs := runs[..|runs| - 1] + [last.(text := last.text + [glyph])];
      } else {
        runs := runs + [Run(dir, [glyph])];
      }
    }
    assert glyphs[..|line|] == glyphs && resolved[..|line|] == resolved;
    runs := Reversed(runs);
  }
}
