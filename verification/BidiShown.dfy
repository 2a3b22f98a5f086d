/** What a reader of a laid-out line sees, told by code points and places in the line alone. */
module BidiShown {
  import opened Prelude
  import opened Bidi

  /** Letters of the Hebrew and Arabic blocks, with the Arabic-Indic digits among them. */
  predicate StrongRtl(c: char) {
    var p := c as int;
    0x590 <= p <= 0x6FF || 0x750 <= p <= 0x77F || 0xFB1D <= p <= 0xFDFF || 0xFE70 <= p <= 0xFEFF
  }

  predicate AnyDigit(c: char) {
    c in "0123456789" || 0x660 <= c as int <= 0x669
  }

  /** Latin letters, European digits, and the punctuation inside a number. */
  predicate LtrAt(line: string, i: nat)
    requires i < |line|
  {
    var p := line[i] as int;
    || 0x30 <= p <= 0x39 || 0x41 <= p <= 0x5A || 0x61 <= p <= 0x7A || 0xC0 <= p <= 0x24F
    || (line[i] in ".,:/-+%" && 0 < i < |line| - 1 && AnyDigit(line[i - 1]) && AnyDigit(line[i + 1]))
  }

  ghost predicate LtrStretch(line: string, a: nat, b: nat) {
    a <= b < |line| && LtrAt(line, a) && LtrAt(line, b) && forall k | a <= k <= b :: !StrongRtl(line[k])
  }

  /** Within a stretch that starts and ends left-to-right and has nothing right-to-left inside. */
  ghost predicate IsLtr(line: string, i: nat) {
    exists a: nat, b: nat | a <= i <= b :: LtrStretch(line, a, b)
  }

  /** The four pairs of brackets and the guillemets. */
  predicate IsPair(open: char, close: char) {
    (open, close) in {('(', ')'), ('[', ']'), ('{', '}'), ('<', '>'), ('\U{00AB}', '\U{00BB}')}
  }

  ghost predicate Faces(c: char, m: char) {
    IsPair(c, m) || IsPair(m, c) || (c == m && forall other :: !IsPair(c, other) && !IsPair(other, c))
  }

  lemma ClassIs(line: string, i: nat)
    requires i < |line|
    ensures Classes(line)[i] == R <==> StrongRtl(line[i])
    ensures Classes(line)[i] == L <==> LtrAt(line, i)
  {
  }

  lemma StretchIs(line: string, a: nat, b: nat)
    requires a <= b < |line|
    ensures Spans(Classes(line), a, b) <==> LtrStretch(line, a, b)
  {
    forall k | a <= k <= b
      ensures Classes(line)[k] == R <==> StrongRtl(line[k])
      ensures Classes(line)[k] == L <==> LtrAt(line, k)
    {
      ClassIs(line, k);
    }
  }

  /** A character is laid out left-to-right exactly within a left-to-right stretch. */
  lemma DirectionIs(line: string, i: nat)
    requires i < |line|
    ensures Resolve(Classes(line))[i] == L <==> IsLtr(line, i)
  {
    ResolvesByN1(Classes(line), i);
    forall a: nat, b: nat | a <= b < |line|
      ensures Spans(Classes(line), a, b) <==> LtrStretch(line, a, b)
    {
      StretchIs(line, a, b);
    }
  }

  lemma MirrorFaces(c: char)
    ensures Faces(c, Mirror(c))
  {
  }

  /** Rule L4: a right-to-left character stands at its place from the right, and faces the other way. */
  lemma RtlShown(line: string, k: nat)
    requires k < |line| && !IsLtr(line, k)
    ensures Faces(line[k], VisualLine(line)[|line| - 1 - k])
  {
    DirectionIs(line, k);
    MirrorFaces(line[k]);
  }

  ghost predicate LtrRun(line: string, s: nat, e: nat) {
    && s < e <= |line| && (forall i | s <= i < e :: IsLtr(line, i))
    && (s > 0 ==> !IsLtr(line, s - 1)) && (e < |line| ==> !IsLtr(line, e))
  }

  lemma LtrRunIs(line: string, s: nat, e: nat, i: nat)
    requires LtrRun(line, s, e) && s <= i < e
    ensures Resolve(Classes(line))[i] == L && IsRun(Resolve(Classes(line)), i, s, e)
  {
    forall k | 0 <= k < |line| ensures Resolve(Classes(line))[k] == L <==> IsLtr(line, k) {
      DirectionIs(line, k);
    }
  }

  /** Rule L2: a maximal left-to-right stretch stands at its place from the right, in reading order. */
  lemma LtrShown(line: string, s: nat, e: nat, k: nat)
    requires LtrRun(line, s, e) && s <= k < e
    ensures VisualLine(line)[|line| - e + (k - s)] == line[k]
  {
    var d, place := Resolve(Classes(line)), |line| - e + (k - s);
    var i := |line| - 1 - place;
    LtrRunIs(line, s, e, i);
    RunIsUnique(d, i, s, e);
    ReorderAt(line, d, place);
  }
}
