/** Layout of right-to-left lines: direction resolution, run building and visual reordering.
    A reduced form of Unicode Standard Annex #9: rules N1/N2 of section 3.3.5 with a right-to-left
    base direction, and rules L2/L4 of section 3.4 with two levels. */
module Bidi {
  import opened Prelude

  datatype Dir = R | L | N

  type Side = d: Dir | d != N witness R

  /** A run of one direction, its text in logical order. */
  datatype Run = Run(dir: Side, text: string)

  // ---------------------------------------------------------------------------------------------
  // Characters
  // ---------------------------------------------------------------------------------------------

  predicate IsHebrew(c: char) {
    '\U{0590}' <= c <= '\U{05FF}' || '\U{FB1D}' <= c <= '\U{FB4F}'
  }

  predicate IsArabic(c: char) {
    || '\U{0600}' <= c <= '\U{06FF}' || '\U{0750}' <= c <= '\U{077F}'
    || '\U{FB50}' <= c <= '\U{FDFF}' || '\U{FE70}' <= c <= '\U{FEFF}'
  }

  predicate IsLatin(c: char) {
    'A' <= c <= 'Z' || 'a' <= c <= 'z' || '\U{00C0}' <= c <= '\U{024F}'
  }

  predicate IsArabicIndicDigit(c: char) {
    '\U{0660}' <= c <= '\U{0669}'
  }

  predicate IsDigit(c: char) {
    '0' <= c <= '9' || IsArabicIndicDigit(c)
  }

  predicate IsGlue(c: char) {
    c == '.' || c == ',' || c == ':' || c == '/' || c == '-' || c == '+' || c == '%'
  }

  function Mirror(c: char): (m: char)
    ensures Classify(m) == Classify(c) && (m != c ==> Classify(c) == N && !IsGlue(c) && !IsGlue(m))
    ensures m == '\n' <==> c == '\n'
  {
    match c
    case '(' => ')'
    case ')' => '('
    case '[' => ']'
    case ']' => '['
    case '{' => '}'
    case '}' => '{'
    case '<' => '>'
    case '>' => '<'
    case '\U{00AB}' => '\U{00BB}'
    case '\U{00BB}' => '\U{00AB}'
    case _ => c
  }

  function Classify(c: char): Dir {
    if IsHebrew(c) || IsArabic(c) then R
    else if IsLatin(c) || IsDigit(c) then L
    else N
  }

  predicate ContainsRtl(text: string) {
    exists i | 0 <= i < |text| :: Classify(text[i]) == R
  }

  // ---------------------------------------------------------------------------------------------
  // Direction resolution
  // ---------------------------------------------------------------------------------------------

  /** Punctuation between two digits, which the first pass makes part of the number. */
  predicate Glued(line: string, i: nat)
    requires i < |line|
  {
    && 0 < i < |line| - 1
    && Classify(line[i]) == N && IsGlue(line[i]) && IsDigit(line[i - 1]) && IsDigit(line[i + 1])
  }

  /** Character classes before the numeric-glue pass. */
  function RawClasses(line: string): (cs: seq<Dir>)
    ensures |cs| == |line|
  {
    seq(|line|, i requires 0 <= i < |line| => Classify(line[i]))
  }

  /** Character classes after the numeric-glue pass. */
  function Classes(line: string): (cs: seq<Dir>)
    ensures |cs| == |line|
  {
    seq(|line|, i requires 0 <= i < |line| => if Glued(line, i) then L else Classify(line[i]))
  }

  /** N1 for left-to-right text: strong L on both sides with no strong R in between. */
  ghost predicate Surrounded(cs: seq<Dir>, i: nat)
    requires i < |cs|
  {
    exists a, b | 0 <= a <= i <= b < |cs| :: Spans(cs, a, b)
  }

  ghost predicate Spans(cs: seq<Dir>, a: nat, b: nat)
    requires a <= b < |cs|
  {
    cs[a] == L && cs[b] == L && forall k | a <= k <= b :: cs[k] != R
  }

  /** The nearest strong class strictly before position i, scanning left. */
  function StrongBefore(cs: seq<Dir>, i: nat): Option<Side>
    requires i <= |cs|
  {
    if i == 0 then None else if cs[i - 1] != N then Some(cs[i - 1]) else StrongBefore(cs, i - 1)
  }

  /** The nearest strong class at position i or later, scanning right. */
  function StrongFrom(cs: seq<Dir>, i: nat): Option<Side>
    requires i <= |cs|
    decreases |cs| - i
  {
    if i == |cs| then None else if cs[i] != N then Some(cs[i]) else StrongFrom(cs, i + 1)
  }

  /** A neutral takes the direction of its nearest strong neighbours when they agree, else the base one. */
  function ResolveAt(cs: seq<Dir>, i: nat): Side
    requires i < |cs|
  {
    if cs[i] != N then cs[i]
    else
      var before, after := StrongBefore(cs, i), StrongFrom(cs, i + 1);
      if before.Some? && before == after then before.value else R
  }

  function Resolve(cs: seq<Dir>): (d: seq<Side>)
    ensures |d| == |cs|
  {
    seq(|cs|, i requires 0 <= i < |cs| => ResolveAt(cs, i))
  }

  ghost predicate LBefore(cs: seq<Dir>, i: nat, a: nat)
    requires i <= |cs|
  {
    a < i && cs[a] == L && forall k | a <= k < i :: cs[k] != R
  }

  ghost predicate LFrom(cs: seq<Dir>, i: nat, b: nat)
    requires i <= |cs|
  {
    i <= b < |cs| && cs[b] == L && forall k | i <= k <= b :: cs[k] != R
  }

  lemma {:induction false} StrongBeforeIsL(cs: seq<Dir>, i: nat)
    requires i <= |cs|
    ensures StrongBefore(cs, i) == Some(L) <==>
            exists a :: LBefore(cs, i, a)
  {
    if i > 0 && cs[i - 1] == N {
      var p := i - 1;
      StrongBeforeIsL(cs, p);
      assert forall a :: LBefore(cs, i, a) <==> LBefore(cs, p, a);
    } else if i > 0 {
      assert cs[i - 1] == L ==> LBefore(cs, i, i - 1);
    }
  }

  lemma {:induction false} StrongFromIsL(cs: seq<Dir>, i: nat)
    requires i <= |cs|
    ensures StrongFrom(cs, i) == Some(L) <==>
            exists b :: LFrom(cs, i, b)
    decreases |cs| - i
  {
    if i < |cs| && cs[i] == N {
      var p := i + 1;
      StrongFromIsL(cs, p);
      assert forall b :: LFrom(cs, i, b) <==> LFrom(cs, p, b);
    } else if i < |cs| {
      assert cs[i] == L ==> LFrom(cs, i, i);
    }
  }

  lemma SurroundedSplits(cs: seq<Dir>, i: nat, next: nat)
    requires i < |cs| && next == i + 1 && cs[i] == N
    ensures Surrounded(cs, i) <==> (exists a :: LBefore(cs, i, a)) && (exists b :: LFrom(cs, next, b))
  {
    if a, b :| LBefore(cs, i, a) && LFrom(cs, next, b) {
      assert Spans(cs, a, b);
    }
    if Surrounded(cs, i) {
      var a, b :| 0 <= a <= i <= b < |cs| && Spans(cs, a, b);
      assert LBefore(cs, i, a) && LFrom(cs, next, b);
    }
  }

  /** The two scans decide exactly rules N1 and N2 with a right-to-left base. */
  lemma ResolvesByN1(cs: seq<Dir>, i: nat)
    requires i < |cs|
    ensures Resolve(cs)[i] == L <==> Surrounded(cs, i)
  {
    if cs[i] == N {
      StrongBeforeIsL(cs, i);
      StrongFromIsL(cs, i + 1);
      SurroundedSplits(cs, i, i + 1);
    } else if cs[i] == L {
      assert Spans(cs, i, i);
    }
  }

  method ResolveDirections(chars: string) returns (resolved: seq<Side>)
    ensures resolved == Resolve(Classes(chars))
  {
    var n := |chars|;
    var classes := new Dir[n](i requires 0 <= i < n => Classify(chars[i]));

    var i := 1;
    while i < n - 1
      invariant 1 <= i
      invariant forall k | 0 <= k < n ::
        classes[k] == if k < i && Glued(chars, k) then L else Classify(chars[k])
    {
      if classes[i] == N && IsGlue(chars[i]) && IsDigit(chars[i - 1]) && IsDigit(chars[i + 1]) {
        classes[i] := L;
      }
      i := i + 1;
    }
    assert classes[..] == Classes(chars);

    ghost var cs := classes[..];
    var out := new Side[n](i => R);
    for i := 0 to n
      invariant classes[..] == cs == Classes(chars)
      invariant forall k | 0 <= k < i :: out[k] == ResolveAt(cs, k)
    {
      if classes[i] != N {
        out[i] := classes[i];
        continue;
      }

      var before: Option<Side> := None;
      var j: int := i - 1;
      while j >= 0
        invariant -1 <= j < i
        invariant before == None
        invariant StrongBefore(cs, i) == StrongBefore(cs, j + 1)
      {
        if classes[j] != N {
          before := Some(classes[j]);
          break;
        }
        j := j - 1;
      }

      var after: Option<Side> := None;
      j := i + 1;
      while j < n
        invariant i < j <= n
        invariant after == None
        invariant StrongFrom(cs, i + 1) == StrongFrom(cs, j)
      {
        if classes[j] != N {
          after := Some(classes[j]);
          break;
        }
        j := j + 1;
      }

      out[i] := if before.Some? && before == after then before.value else R;
    }
    resolved := out[..];
  }

  // ---------------------------------------------------------------------------------------------
  // Reordering: rules L2 and L4 of UAX #9, section 3.4
  // ---------------------------------------------------------------------------------------------

  /** [s, e) is the maximal stretch of one direction around position i. */
  ghost predicate IsRun(d: seq<Side>, i: nat, s: nat, e: nat) {
    && s <= i < e <= |d|
    && (forall k | s <= k < e :: d[k] == d[i])
    && (s > 0 ==> d[s - 1] != d[i])
    && (e < |d| ==> d[e] != d[i])
  }

  function RunStart(d: seq<Side>, i: nat): (s: nat)
    requires i < |d|
    ensures s <= i
  {
    if i > 0 && d[i - 1] == d[i] then RunStart(d, i - 1) else i
  }

  function RunEnd(d: seq<Side>, i: nat): (e: nat)
    requires i < |d|
    ensures i < e <= |d|
    decreases |d| - i
  {
    if i + 1 < |d| && d[i + 1] == d[i] then RunEnd(d, i + 1) else i + 1
  }

  lemma {:induction false} RunStartIs(d: seq<Side>, i: nat)
    requires i < |d|
    ensures var s := RunStart(d, i);
      (s > 0 ==> d[s - 1] != d[i]) && forall k | s <= k <= i :: d[k] == d[i]
  {
    if i > 0 && d[i - 1] == d[i] {
      RunStartIs(d, i - 1);
    }
  }

  lemma {:induction false} RunEndIs(d: seq<Side>, i: nat)
    requires i < |d|
    ensures var e := RunEnd(d, i);
      (e < |d| ==> d[e] != d[i]) && forall k | i <= k < e :: d[k] == d[i]
    decreases |d| - i
  {
    if i + 1 < |d| && d[i + 1] == d[i] {
      RunEndIs(d, i + 1);
    }
  }

  lemma RunAt(d: seq<Side>, i: nat) returns (s: nat, e: nat)
    requires i < |d|
    ensures s == RunStart(d, i) && e == RunEnd(d, i) && IsRun(d, i, s, e)
  {
    s, e := RunStart(d, i), RunEnd(d, i);
    RunStartIs(d, i);
    RunEndIs(d, i);
  }

  lemma RunIsUnique(d: seq<Side>, i: nat, s: nat, e: nat)
    requires IsRun(d, i, s, e)
    ensures RunStart(d, i) == s && RunEnd(d, i) == e
  {
    var _, _ := RunAt(d, i);
  }

  /** The position that i trades places with when its run is reversed in place. */
  function Reflect(d: seq<Side>, i: nat): (j: nat)
    requires i < |d|
    ensures j < |d| && d[j] == d[i]
  {
    assert d[RunStart(d, i) + RunEnd(d, i) - 1 - i] == d[i] by {
      var s, e := RunAt(d, i);
    }
    RunStart(d, i) + RunEnd(d, i) - 1 - i
  }

  lemma ReflectTwice(d: seq<Side>, i: nat)
    requires i < |d|
    ensures Reflect(d, Reflect(d, i)) == i
  {
    var s, e := RunAt(d, i);
    RunIsUnique(d, Reflect(d, i), RunStart(d, i), RunEnd(d, i));
  }

  /** L4: characters resolved right-to-left are shown by their mirror image. */
  function Mirrored(line: string, d: seq<Side>): (m: string)
    requires |d| == |line|
    ensures |m| == |line|
  {
    seq(|line|, i requires 0 <= i < |line| => if d[i] == R then Mirror(line[i]) else line[i])
  }

  /** L2, highest level: every left-to-right run is reversed in place. */
  function ReverseLtrRuns(line: string, d: seq<Side>): (r: string)
    requires |d| == |line|
    ensures |r| == |line|
  {
    seq(|line|, i requires 0 <= i < |line| => if d[i] == L then line[Reflect(d, i)] else line[i])
  }

  /** L2 and L4 together: mirror, reverse the left-to-right runs, then reverse the whole line. */
  function Reorder(line: string, d: seq<Side>): (v: string)
    requires |d| == |line|
    ensures |v| == |line|
  {
    Reversed(ReverseLtrRuns(Mirrored(line, d), d))
  }

  /** Where the character shown at place k comes from. */
  function Origin(d: seq<Side>, k: nat): (j: nat)
    requires k < |d|
    ensures j < |d| && d[j] == d[|d| - 1 - k]
  {
    var i := |d| - 1 - k;
    if d[i] == L then Reflect(d, i) else i
  }

  lemma ReorderAt(line: string, d: seq<Side>, k: nat)
    requires |d| == |line| && k < |line|
    ensures Reorder(line, d)[k] ==
            if d[|d| - 1 - k] == R then Mirror(line[Origin(d, k)]) else line[Origin(d, k)]
  {
  }

  lemma ReversedRun(d: seq<Side>, i: nat)
    requires i < |d|
    ensures RunStart(Reversed(d), |d| - 1 - i) == |d| - RunEnd(d, i)
    ensures RunEnd(Reversed(d), |d| - 1 - i) == |d| - RunStart(d, i)
  {
    var s, e := RunAt(d, i);
    RunIsUnique(Reversed(d), |d| - 1 - i, |d| - RunEnd(d, i), |d| - RunStart(d, i));
  }

  lemma OriginTwice(d: seq<Side>, k: nat)
    requires k < |d|
    ensures Origin(d, Origin(Reversed(d), k)) == k
  {
    ReversedRun(d, k);
    ReflectTwice(d, k);
  }

  lemma MirrorTwice(c: char)
    ensures Mirror(Mirror(c)) == c
  {
  }

  lemma ReorderUndoesAt(line: string, d: seq<Side>, k: nat)
    requires |d| == |line| && k < |line|
    ensures Reorder(Reorder(line, d), Reversed(d))[k] == line[k]
  {
    var d', v := Reversed(d), Reorder(line, d);
    var j := Origin(d', k);
    assert Reorder(v, d')[k] == if d[k] == R then Mirror(v[j]) else v[j] by {
      ReorderAt(v, d', k);
    }
    assert v[j] == if d[k] == R then Mirror(line[k]) else line[k] by {
      ReorderAt(line, d, j);
      OriginTwice(d, k);
    }
    MirrorTwice(line[k]);
  }

  /** Reordering by the same directions read backwards undoes a reordering. */
  lemma ReorderUndoes(line: string, d: seq<Side>)
    requires |d| == |line|
    ensures Reorder(Reorder(line, d), Reversed(d)) == line
  {
    forall k | 0 <= k < |line| ensures Reorder(Reorder(line, d), Reversed(d))[k] == line[k] {
      ReorderUndoesAt(line, d, k);
    }
  }

  /** The visual form of one line. */
  function VisualLine(line: string): (v: string)
    ensures |v| == |line|
  {
    Reorder(line, Resolve(Classes(line)))
  }

  lemma ResolveIs(cs: seq<Dir>, d: seq<Side>)
    requires |d| == |cs| && forall i | 0 <= i < |cs| :: d[i] == L <==> Surrounded(cs, i)
    ensures Resolve(cs) == d
  {
    forall i | 0 <= i < |cs| ensures Resolve(cs)[i] == d[i] {
      ResolvesByN1(cs, i);
    }
  }
}
