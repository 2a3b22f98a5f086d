/** When laying a line or a text out twice gives it back. */
module BidiRoundTrip {
  import opened Prelude
  import opened Bidi
  import opened BidiShown

  /** What the layout can tell apart about a character. */
  datatype Kind = Indic | Rtl | Digit | Latin | Glue | Other

  function KindOf(c: char): Kind {
    if IsArabicIndicDigit(c) then Indic
    else if Classify(c) == R then Rtl
    else if IsDigit(c) then Digit
    else if Classify(c) == L then Latin
    else if IsGlue(c) then Glue
    else Other
  }

  function ClassOf(k: Kind): Dir {
    if k.Indic? || k.Rtl? then R else if k.Digit? || k.Latin? then L else N
  }

  function Kinds(line: string): (ks: seq<Kind>)
    ensures |ks| == |line|
  {
    seq(|line|, i requires 0 <= i < |line| => KindOf(line[i]))
  }

  predicate IndicAt(ks: seq<Kind>, i: int) {
    0 <= i < |ks| && ks[i] == Indic
  }

  predicate GlueAt(ks: seq<Kind>, i: int) {
    0 <= i < |ks| && ks[i] == Glue
  }

  predicate DigitAt(ks: seq<Kind>, i: int) {
    0 <= i < |ks| && (ks[i] == Digit || ks[i] == Indic)
  }

  predicate GluedAt(ks: seq<Kind>, i: int) {
    GlueAt(ks, i) && DigitAt(ks, i - 1) && DigitAt(ks, i + 1)
  }

  lemma KindFacts(c: char)
    ensures ClassOf(KindOf(c)) == Classify(c) && KindOf(Mirror(c)) == KindOf(c)
    ensures IsDigit(c) <==> KindOf(c) == Digit || KindOf(c) == Indic
    ensures Classify(c) == N && IsGlue(c) <==> KindOf(c) == Glue
  {
  }

  lemma GluedIsKind(line: string, i: nat)
    requires i < |line|
    ensures Glued(line, i) <==> GluedAt(Kinds(line), i)
  {
    KindFacts(line[i]);
    if i > 0 { KindFacts(line[i - 1]); }
    if i + 1 < |line| { KindFacts(line[i + 1]); }
  }

  /** cs are the classes of kinds ks after the glue pass. */
  ghost predicate HasClasses(ks: seq<Kind>, cs: seq<Dir>) {
    |cs| == |ks| && forall i | 0 <= i < |ks| :: cs[i] == if GluedAt(ks, i) then L else ClassOf(ks[i])
  }

  lemma LineHasClasses(line: string)
    ensures HasClasses(Kinds(line), Classes(line))
  {
    var ks := Kinds(line);
    forall i | 0 <= i < |line| ensures Classes(line)[i] == if GluedAt(ks, i) then L else ClassOf(ks[i]) {
      GluedIsKind(line, i);
      KindFacts(line[i]);
    }
  }

  ghost predicate IsLtrRun(d: seq<Side>, s: nat, e: nat) {
    s < |d| && d[s] == L && IsRun(d, s, s, e)
  }

  /** Punctuation taken into the run next to an Arabic-Indic digit has one at the other end of the run as
      well, and punctuation left out of it next to one would not be taken in at the other end. */
  predicate SteadyRun(ks: seq<Kind>, s: nat, e: nat) {
    && (e - s >= 2 && GlueAt(ks, s) && IndicAt(ks, s - 1) ==> IndicAt(ks, e))
    && (e - s >= 2 && GlueAt(ks, e - 1) && IndicAt(ks, e) ==> IndicAt(ks, s - 1))
    && !(DigitAt(ks, s) && GlueAt(ks, e) && IndicAt(ks, e + 1))
    && !(DigitAt(ks, e - 1) && GlueAt(ks, s - 1) && IndicAt(ks, s - 2))
  }

  ghost predicate Steady(line: string) {
    forall s: nat, e: nat | IsLtrRun(Resolve(Classes(line)), s, e) :: SteadyRun(Kinds(line), s, e)
  }

  /** No number punctuation touches an Arabic-Indic digit; every text with ASCII digits only qualifies. */
  ghost predicate PlainNumbers(line: string) {
    forall i | 0 < i < |line| ::
      && !(IsGlue(line[i - 1]) && IsArabicIndicDigit(line[i]))
      && !(IsArabicIndicDigit(line[i - 1]) && IsGlue(line[i]))
  }

  lemma PlainNeighbours(line: string, i: nat)
    requires PlainNumbers(line) && 0 < i < |line|
    ensures !(GlueAt(Kinds(line), i - 1) && IndicAt(Kinds(line), i))
    ensures !(IndicAt(Kinds(line), i - 1) && GlueAt(Kinds(line), i))
  {
  }

  lemma PlainIsSteady(line: string)
    requires PlainNumbers(line)
    ensures Steady(line)
  {
    var ks := Kinds(line);
    forall s: nat, e: nat | IsLtrRun(Resolve(Classes(line)), s, e) ensures SteadyRun(ks, s, e) {
      if s > 0 { PlainNeighbours(line, s); }
      if s > 1 { PlainNeighbours(line, s - 1); }
      if e < |line| { PlainNeighbours(line, e); }
      if e + 1 < |line| { PlainNeighbours(line, e + 1); }
    }
  }

  lemma PlainSpans(line: string, a: nat, b: nat)
    requires PlainNumbers(line) && a <= b < |line| && Spans(Classes(line), a, b)
    ensures var a', b' := if Glued(line, a) then a - 1 else a, if Glued(line, b) then b + 1 else b;
      Spans(RawClasses(line), a', b')
  {
    var cs, raw := Classes(line), RawClasses(line);
    var a', b' := if Glued(line, a) then a - 1 else a, if Glued(line, b) then b + 1 else b;
    forall k | a' <= k <= b' ensures raw[k] != R {
      assert a <= k <= b ==> cs[k] != R;
    }
  }

  /** The numeric-glue pass changes no resolved direction: amounts and dates are one run without it. */
  lemma GlueChangesNothing(line: string)
    requires PlainNumbers(line)
    ensures Resolve(Classes(line)) == Resolve(RawClasses(line))
  {
    var cs, raw := Classes(line), RawClasses(line);
    assert forall k | 0 <= k < |line| :: cs[k] == raw[k] || (cs[k] == L && raw[k] == N);
    forall i | 0 <= i < |line| ensures Resolve(raw)[i] == L <==> Surrounded(cs, i) {
      ResolvesByN1(raw, i);
      if Surrounded(raw, i) {
        var a, b :| 0 <= a <= i <= b < |raw| && Spans(raw, a, b);
        assert Spans(cs, a, b);
      }
      if Surrounded(cs, i) {
        var a, b :| 0 <= a <= i <= b < |cs| && Spans(cs, a, b);
        PlainSpans(line, a, b);
      }
    }
    ResolveIs(cs, Resolve(raw));
  }

  lemma SpanResolvesLtr(cs: seq<Dir>, a: nat, b: nat)
    requires a <= b < |cs| && Spans(cs, a, b)
    ensures forall k | a <= k <= b :: Resolve(cs)[k] == L
  {
    forall k | a <= k <= b ensures Resolve(cs)[k] == L {
      ResolvesByN1(cs, k);
    }
  }

  /** A resolved left-to-right run starts and ends with strong left-to-right text. */
  lemma LtrRunIsFramed(cs: seq<Dir>, i: nat, s: nat, e: nat)
    requires IsRun(Resolve(cs), i, s, e) && Resolve(cs)[i] == L
    ensures Spans(cs, s, e - 1)
  {
    var d, last := Resolve(cs), e - 1;
    assert d[s] == L && d[last] == L;
    ResolvesByN1(cs, s);
    ResolvesByN1(cs, last);
    var a, b :| 0 <= a <= s <= b < |cs| && Spans(cs, a, b);
    var a', b' :| 0 <= a' <= last <= b' < |cs| && Spans(cs, a', b');
    SpanResolvesLtr(cs, a, b);
    SpanResolvesLtr(cs, a', b');
    assert a == s && b' == last;
    forall k | s <= k < e ensures cs[k] != R {
      assert d[k] == L && d[k] == ResolveAt(cs, k);
    }
  }

  /** xs' is the rearrangement of xs that reordering by directions d makes. */
  ghost predicate Rearranged<T>(xs: seq<T>, d: seq<Side>, xs': seq<T>) {
    |xs'| == |d| == |xs| && forall k | 0 <= k < |xs| :: xs'[k] == xs[Origin(d, k)]
  }

  /** A left-to-right run keeps its inner order when shown. */
  lemma OriginInLtrRun(d: seq<Side>, i: nat, s: nat, e: nat, p: nat)
    requires IsRun(d, i, s, e) && d[i] == L && |d| - e <= p < |d| - s
    ensures Origin(d, p) == s + e - |d| + p
  {
    RunIsUnique(d, |d| - 1 - p, s, e);
  }

  lemma ShownLtr(cs: seq<Dir>, d: seq<Side>, cs': seq<Dir>, i: nat, s: nat, e: nat)
    requires Rearranged(cs, d, cs') && IsRun(d, i, s, e) && d[i] == L
    requires Spans(cs, s, e - 1)
    ensures Spans(cs', |cs| - e, |cs| - 1 - s)
  {
    forall p | |cs| - e <= p < |cs| - s ensures cs'[p] == cs[s + e - |cs| + p] {
      OriginInLtrRun(d, i, s, e, p);
    }
  }

  /** What the proofs below use of resolved directions. */
  ghost predicate Framed(cs: seq<Dir>, d: seq<Side>) {
    && |d| == |cs|
    && (forall i | 0 <= i < |cs| && cs[i] != N :: d[i] == cs[i])
    && (forall a: nat, b: nat, i: nat | a <= i <= b < |cs| && Spans(cs, a, b) :: d[i] == L)
    && (forall i: nat, s: nat, e: nat | IsRun(d, i, s, e) && d[i] == L :: Spans(cs, s, e - 1))
  }

  lemma ResolvedIsFramed(cs: seq<Dir>)
    ensures Framed(cs, Resolve(cs))
  {
    var d := Resolve(cs);
    forall i: nat, s: nat, e: nat | IsRun(d, i, s, e) && d[i] == L ensures Spans(cs, s, e - 1) {
      LtrRunIsFramed(cs, i, s, e);
    }
    forall a: nat, b: nat, i: nat | a <= i <= b < |cs| && Spans(cs, a, b) ensures d[i] == L {
      SpanResolvesLtr(cs, a, b);
    }
  }

  lemma NoRBack(cs: seq<Dir>, d: seq<Side>, cs': seq<Dir>, a: nat, b: nat, j: nat)
    requires Framed(cs, d) && Rearranged(cs, d, cs') && a <= b < |cs| && Spans(cs', a, b)
    requires |cs| - 1 - b <= j <= |cs| - 1 - a
    ensures cs[j] != R
  {
    assert d[j] == R ==> cs'[|cs| - 1 - j] == cs[j];
  }

  lemma SurroundedBack(cs: seq<Dir>, d: seq<Side>, cs': seq<Dir>, a: nat, b: nat)
    requires Framed(cs, d) && Rearranged(cs, d, cs') && a <= b < |cs| && Spans(cs', a, b)
    ensures forall i | |cs| - 1 - b <= i <= |cs| - 1 - a :: d[i] == L
  {
    var p, q := |cs| - 1 - b, |cs| - 1 - a;
    assert d[p] == L && d[q] == L by {
      assert cs'[a] == cs[Origin(d, a)] && cs'[b] == cs[Origin(d, b)];
    }
    var s, e' := RunAt(d, p);
    var s', e := RunAt(d, q);
    assert Spans(cs, s, e - 1) by {
      forall j | p <= j <= q ensures cs[j] != R {
        NoRBack(cs, d, cs', a, b, j);
      }
      assert Spans(cs, s, e' - 1) && Spans(cs, s', e - 1);
    }
  }

  /** A reordered line resolves to the same directions, read from the other end. */
  lemma SurroundedAgain(cs: seq<Dir>, d: seq<Side>, cs': seq<Dir>, k: nat)
    requires Framed(cs, d) && Rearranged(cs, d, cs') && k < |cs|
    ensures Surrounded(cs', k) <==> d[|cs| - 1 - k] == L
  {
    var i := |cs| - 1 - k;
    if d[i] == L {
      var s, e := RunAt(d, i);
      ShownLtr(cs, d, cs', i, s, e);
    } else if a, b :| 0 <= a <= k <= b < |cs'| && Spans(cs', a, b) {
      SurroundedBack(cs, d, cs', a, b);
    }
  }

  // The glue pass of the reordered line finds the same numbers when the line is steady.

  /** Kinds ks with classes cs and directions d, and the kinds ps of the visual form. */
  ghost predicate LaidOut(ks: seq<Kind>, cs: seq<Dir>, d: seq<Side>, ps: seq<Kind>) {
    HasClasses(ks, cs) && Framed(cs, d) && Rearranged(ks, d, ps)
  }

  lemma LineLaidOut(line: string)
    ensures LaidOut(Kinds(line), Classes(line), Resolve(Classes(line)), Kinds(VisualLine(line)))
  {
    var d, v := Resolve(Classes(line)), VisualLine(line);
    LineHasClasses(line);
    ResolvedIsFramed(Classes(line));
    forall k | 0 <= k < |line| ensures Kinds(v)[k] == Kinds(line)[Origin(d, k)] {
      ReorderAt(line, d, k);
      KindFacts(line[Origin(d, k)]);
    }
  }

  lemma ResolvedRtl(ks: seq<Kind>, cs: seq<Dir>, d: seq<Side>, i: nat)
    requires HasClasses(ks, cs) && Framed(cs, d) && i < |ks| && d[i] == R
    ensures !GluedAt(ks, i) && ks[i] != Digit && ks[i] != Latin
    ensures cs[i] == ClassOf(ks[i])
  {
  }

  lemma LtrRunEnds(ks: seq<Kind>, cs: seq<Dir>, d: seq<Side>, s: nat, e: nat)
    requires HasClasses(ks, cs) && Framed(cs, d) && IsLtrRun(d, s, e)
    ensures Spans(cs, s, e - 1)
    ensures forall k | s <= k < e :: ClassOf(ks[k]) != R
    ensures GlueAt(ks, s) ==> GluedAt(ks, s)
    ensures GlueAt(ks, e - 1) ==> GluedAt(ks, e - 1)
    ensures ks[s] != Other && ks[e - 1] != Other
  {
    assert Spans(cs, s, e - 1);
  }

  lemma ShownRtl(ks: seq<Kind>, d: seq<Side>, ps: seq<Kind>, k: nat)
    requires Rearranged(ks, d, ps) && k < |ks| && d[|ks| - 1 - k] == R
    ensures ps[k] == ks[|ks| - 1 - k]
  {
  }

  lemma ShownRun(ks: seq<Kind>, d: seq<Side>, ps: seq<Kind>, s: nat, e: nat)
    requires Rearranged(ks, d, ps) && IsLtrRun(d, s, e)
    ensures forall k | |ks| - e <= k < |ks| - s :: ps[k] == ks[s + e - |ks| + k]
  {
    forall k | |ks| - e <= k < |ks| - s ensures ps[k] == ks[s + e - |ks| + k] {
      OriginInLtrRun(d, s, s, e, k);
    }
  }

  /** Two runs are apart by more than one neutral character. */
  lemma RunsApart(ks: seq<Kind>, cs: seq<Dir>, d: seq<Side>, s: nat, e: nat, s': nat, e': nat)
    requires HasClasses(ks, cs) && Framed(cs, d) && IsLtrRun(d, s, e) && IsLtrRun(d, s', e') && e < s'
    ensures exists m | e <= m < s' :: cs[m] == R
  {
    LtrRunEnds(ks, cs, d, s, e);
    LtrRunEnds(ks, cs, d, s', e');
    assert d[e] == R;
    assert !Spans(cs, e - 1, s');
  }

  lemma NotGluedAfterRun(ks: seq<Kind>, cs: seq<Dir>, d: seq<Side>, ps: seq<Kind>, s: nat, e: nat)
    requires LaidOut(ks, cs, d, ps) && IsLtrRun(d, s, e) && SteadyRun(ks, s, e) && e < |ks|
    ensures !GluedAt(ps, |ks| - 1 - e)
  {
    var k, after := |ks| - 1 - e, e + 1;
    ResolvedRtl(ks, cs, d, e);
    ShownRtl(ks, d, ps, k);
    ShownRun(ks, d, ps, s, e);
    if GlueAt(ps, k) && after < |ks| {
      if d[after] == L {
        var s', e' := RunAt(d, after);
        RunsApart(ks, cs, d, s, e, s', e');
      } else {
        ResolvedRtl(ks, cs, d, after);
        ShownRtl(ks, d, ps, k - 1);
      }
    }
  }

  lemma NotGluedBeforeRun(ks: seq<Kind>, cs: seq<Dir>, d: seq<Side>, ps: seq<Kind>, s: nat, e: nat)
    requires LaidOut(ks, cs, d, ps) && IsLtrRun(d, s, e) && SteadyRun(ks, s, e) && s > 0
    ensures !GluedAt(ps, |ks| - s)
  {
    var k, i := |ks| - s, s - 1;
    ResolvedRtl(ks, cs, d, i);
    ShownRtl(ks, d, ps, k);
    ShownRun(ks, d, ps, s, e);
    if GlueAt(ps, k) && i > 0 {
      var before := i - 1;
      if d[before] == L {
        var s', e' := RunAt(d, before);
        RunsApart(ks, cs, d, s', e', s, e);
      } else {
        ResolvedRtl(ks, cs, d, before);
        ShownRtl(ks, d, ps, k + 1);
      }
    }
  }

  lemma RtlNotGlued(ks: seq<Kind>, cs: seq<Dir>, d: seq<Side>, ps: seq<Kind>, k: nat)
    requires LaidOut(ks, cs, d, ps) && k < |ks| && d[|ks| - 1 - k] == R
    requires forall s: nat, e: nat | IsLtrRun(d, s, e) :: SteadyRun(ks, s, e)
    ensures !GluedAt(ps, k)
  {
    var i := |ks| - 1 - k;
    if i > 0 && d[i - 1] == L {
      var s, e := RunAt(d, i - 1);
      assert IsLtrRun(d, s, e);
      NotGluedAfterRun(ks, cs, d, ps, s, e);
    } else if i + 1 < |ks| && d[i + 1] == L {
      var s, e := RunAt(d, i + 1);
      assert IsLtrRun(d, s, e);
      NotGluedBeforeRun(ks, cs, d, ps, s, e);
    } else {
      ResolvedRtl(ks, cs, d, i);
      ShownRtl(ks, d, ps, k);
      if i > 0 { ShownRtl(ks, d, ps, k + 1); }
      if k > 0 { ShownRtl(ks, d, ps, k - 1); }
    }
  }

  /** The digits next to a run, in the line and in its visual form, are Arabic-Indic and trade places. */
  lemma RunNeighbours(ks: seq<Kind>, cs: seq<Dir>, d: seq<Side>, ps: seq<Kind>, s: nat, e: nat)
    requires LaidOut(ks, cs, d, ps) && IsLtrRun(d, s, e)
    ensures DigitAt(ks, s - 1) <==> IndicAt(ks, s - 1)
    ensures DigitAt(ks, e) <==> IndicAt(ks, e)
    ensures DigitAt(ps, |ks| - 1 - e) <==> IndicAt(ks, e)
    ensures DigitAt(ps, |ks| - s) <==> IndicAt(ks, s - 1)
  {
    if s > 0 {
      ResolvedRtl(ks, cs, d, s - 1);
      ShownRtl(ks, d, ps, |ks| - s);
    }
    if e < |ks| {
      ResolvedRtl(ks, cs, d, e);
      ShownRtl(ks, d, ps, |ks| - 1 - e);
    }
  }

  lemma LtrGlued(ks: seq<Kind>, cs: seq<Dir>, d: seq<Side>, ps: seq<Kind>, s: nat, e: nat, k: nat)
    requires LaidOut(ks, cs, d, ps) && IsLtrRun(d, s, e) && SteadyRun(ks, s, e) && |ks| - e <= k < |ks| - s
    ensures GluedAt(ps, k) <==> GluedAt(ks, s + e - |ks| + k)
  {
    ShownRun(ks, d, ps, s, e);
    LtrRunEnds(ks, cs, d, s, e);
    RunNeighbours(ks, cs, d, ps, s, e);
  }

  lemma ClassesKept(ks: seq<Kind>, cs: seq<Dir>, d: seq<Side>, ps: seq<Kind>, cs': seq<Dir>)
    requires LaidOut(ks, cs, d, ps) && HasClasses(ps, cs')
    requires forall s: nat, e: nat | IsLtrRun(d, s, e) :: SteadyRun(ks, s, e)
    ensures Rearranged(cs, d, cs')
  {
    forall k | 0 <= k < |ks| ensures cs'[k] == cs[Origin(d, k)] {
      var i := |ks| - 1 - k;
      if d[i] == R {
        RtlNotGlued(ks, cs, d, ps, k);
        ResolvedRtl(ks, cs, d, i);
      } else {
        var s, e := RunAt(d, i);
        assert IsLtrRun(d, s, e);
        LtrGlued(ks, cs, d, ps, s, e, k);
        OriginInLtrRun(d, s, s, e, k);
      }
    }
  }

  lemma SteadyClasses(line: string)
    requires Steady(line)
    ensures Rearranged(Classes(line), Resolve(Classes(line)), Classes(VisualLine(line)))
  {
    var v := VisualLine(line);
    LineLaidOut(line);
    LineHasClasses(v);
    ClassesKept(Kinds(line), Classes(line), Resolve(Classes(line)), Kinds(v), Classes(v));
  }

  /** The visual form of a steady line resolves to the same directions, read from the other end. */
  lemma {:induction false} SteadyDirections(line: string)
    requires Steady(line)
    ensures Resolve(Classes(VisualLine(line))) == Reversed(Resolve(Classes(line)))
  {
    var cs, cs' := Classes(line), Classes(VisualLine(line));
    SteadyClasses(line);
    ResolvedIsFramed(cs);
    RearrangedDirections(cs, Resolve(cs), cs');
  }

  lemma RearrangedDirections(cs: seq<Dir>, d: seq<Side>, cs': seq<Dir>)
    requires Framed(cs, d) && Rearranged(cs, d, cs')
    ensures Resolve(cs') == Reversed(d)
  {
    forall k | 0 <= k < |cs| ensures Surrounded(cs', k) <==> Reversed(d)[k] == L {
      SurroundedAgain(cs, d, cs', k);
    }
    ResolveIs(cs', Reversed(d));
  }

  lemma {:induction false} SteadyTwice(line: string)
    requires Steady(line)
    ensures VisualLine(VisualLine(line)) == line
  {
    SteadyDirections(line);
    ReorderUndoes(line, Resolve(Classes(line)));
  }

  // A line that is not steady comes back changed.

  /** No right-to-left text is shown from the run's left edge down to place a. */
  ghost predicate NoRtlFrom(ps: seq<Kind>, a: nat, b: int) {
    b < |ps| && forall k | a <= k <= b :: ClassOf(ps[k]) != R
  }

  lemma {:induction false} NeutralsAfter(ks: seq<Kind>, cs: seq<Dir>, d: seq<Side>, ps: seq<Kind>, s: nat, e: nat,
                                         j: nat)
    requires LaidOut(ks, cs, d, ps) && IsLtrRun(d, s, e) && e <= j < |ks|
    requires NoRtlFrom(ps, |ks| - 1 - j, |ks| - 1 - e)
    ensures forall m | e <= m <= j :: d[m] == R && ClassOf(ks[m]) == N
    decreases j
  {
    if j > e {
      NeutralsAfter(ks, cs, d, ps, s, e, j - 1);
    }
    forall m | e <= m < j ensures cs[m] == N {
      ResolvedRtl(ks, cs, d, m);
    }
    if d[j] == L {
      var s', e' := RunAt(d, j);
      RunsApart(ks, cs, d, s, e, s', e');
    } else {
      ResolvedRtl(ks, cs, d, j);
      ShownRtl(ks, d, ps, |ks| - 1 - j);
    }
  }

  lemma {:induction false} NeutralsBefore(ks: seq<Kind>, cs: seq<Dir>, d: seq<Side>, ps: seq<Kind>, s: nat, e: nat,
                                          j: nat)
    requires LaidOut(ks, cs, d, ps) && IsLtrRun(d, s, e) && j < s
    requires NoRtlFrom(ps, |ks| - s, |ks| - 1 - j)
    ensures forall m | j <= m < s :: d[m] == R && ClassOf(ks[m]) == N
    decreases s - j
  {
    if j + 1 < s {
      NeutralsBefore(ks, cs, d, ps, s, e, j + 1);
    }
    forall m | j < m < s ensures cs[m] == N {
      ResolvedRtl(ks, cs, d, m);
    }
    if d[j] == L {
      var s', e' := RunAt(d, j);
      RunsApart(ks, cs, d, s', e', s, e);
    } else {
      ResolvedRtl(ks, cs, d, j);
      ShownRtl(ks, d, ps, |ks| - 1 - j);
    }
  }

  /** In the visual form nothing left-to-right joins a run from its left, unless it is glued to it. */
  lemma NothingJoinsLeft(ks: seq<Kind>, cs: seq<Dir>, d: seq<Side>, ps: seq<Kind>, cs': seq<Dir>, s: nat, e: nat,
                         a: nat)
    requires LaidOut(ks, cs, d, ps) && HasClasses(ps, cs') && IsLtrRun(d, s, e)
    requires !GluedAt(ps, |ks| - 1 - e)
    ensures !LBefore(cs', |ks| - e, a)
  {
    if LBefore(cs', |ks| - e, a) {
      var j := |ks| - 1 - a;
      NeutralsAfter(ks, cs, d, ps, s, e, j);
      forall k | a <= k < |ks| - e ensures ClassOf(ps[k]) == N {
        ShownRtl(ks, d, ps, k);
      }
    }
  }

  lemma NothingJoinsRight(ks: seq<Kind>, cs: seq<Dir>, d: seq<Side>, ps: seq<Kind>, cs': seq<Dir>, s: nat, e: nat,
                          b: nat)
    requires LaidOut(ks, cs, d, ps) && HasClasses(ps, cs') && IsLtrRun(d, s, e)
    requires !GluedAt(ps, |ks| - s)
    ensures !LFrom(cs', |ks| - s, b)
  {
    if LFrom(cs', |ks| - s, b) {
      var j := |ks| - 1 - b;
      NeutralsBefore(ks, cs, d, ps, s, e, j);
      forall k | |ks| - s <= k <= b ensures ClassOf(ps[k]) == N {
        ShownRtl(ks, d, ps, k);
      }
    }
  }

  /** What is resolved left-to-right is framed by strong left-to-right text on both sides. */
  lemma LtrReaches(cs: seq<Dir>, d: seq<Side>, i: nat) returns (a: nat, b: nat)
    requires Framed(cs, d) && i < |d| && d[i] == L
    ensures LFrom(cs, i, b) && (cs[i] == N ==> LBefore(cs, i, a))
  {
    var s, e := RunAt(d, i);
    a, b := s, e - 1;
    assert Spans(cs, a, b);
  }

  /** A neutral at the left edge of a shown run is not joined to it by anything on its left. */
  lemma EdgeIsRtl(ks: seq<Kind>, cs: seq<Dir>, d: seq<Side>, ps: seq<Kind>, cs': seq<Dir>, d': seq<Side>, s: nat,
                  e: nat)
    requires LaidOut(ks, cs, d, ps) && HasClasses(ps, cs') && Framed(cs', d') && IsLtrRun(d, s, e)
    requires !GluedAt(ps, |ks| - 1 - e) && cs'[|ks| - e] == N
    ensures d'[|ks| - e] == R
  {
    if d'[|ks| - e] == L {
      var a, _ := LtrReaches(cs', d', |ks| - e);
      NothingJoinsLeft(ks, cs, d, ps, cs', s, e, a);
    }
  }

  /** Nothing is joined to a shown run on its right, unless it is glued to it. */
  lemma RightOfRunIsRtl(ks: seq<Kind>, cs: seq<Dir>, d: seq<Side>, ps: seq<Kind>, cs': seq<Dir>, d': seq<Side>,
                        s: nat, e: nat)
    requires LaidOut(ks, cs, d, ps) && HasClasses(ps, cs') && Framed(cs', d') && IsLtrRun(d, s, e)
    requires s > 0 && !GluedAt(ps, |ks| - s)
    ensures d'[|ks| - s] == R
  {
    if d'[|ks| - s] == L {
      var _, b := LtrReaches(cs', d', |ks| - s);
      NothingJoinsRight(ks, cs, d, ps, cs', s, e, b);
    }
  }

  lemma TakenInShown(ks: seq<Kind>, cs: seq<Dir>, d: seq<Side>, ps: seq<Kind>, s: nat, e: nat)
    requires LaidOut(ks, cs, d, ps) && IsLtrRun(d, s, e)
    requires e - s >= 2 && GlueAt(ks, s) && IndicAt(ks, s - 1) && !IndicAt(ks, e)
    ensures GlueAt(ps, |ks| - e) && !GluedAt(ps, |ks| - e) && !GluedAt(ps, |ks| - 1 - e) && !GlueAt(ks, e - 1)
  {
    ShownRun(ks, d, ps, s, e);
    LtrRunEnds(ks, cs, d, s, e);
    if e < |ks| {
      ResolvedRtl(ks, cs, d, e);
      ShownRtl(ks, d, ps, |ks| - 1 - e);
    }
  }

  /** Punctuation that was taken into a run is left out of it the second time. */
  lemma TakenInMoves(ks: seq<Kind>, cs: seq<Dir>, d: seq<Side>, ps: seq<Kind>, cs': seq<Dir>, d': seq<Side>,
                     back: seq<Kind>, s: nat, e: nat)
    requires LaidOut(ks, cs, d, ps) && LaidOut(ps, cs', d', back) && IsLtrRun(d, s, e)
    requires e - s >= 2 && GlueAt(ks, s) && IndicAt(ks, s - 1) && !IndicAt(ks, e)
    ensures back != ks
  {
    TakenInShown(ks, cs, d, ps, s, e);
    EdgeIsRtl(ks, cs, d, ps, cs', d', s, e);
    ShownRtl(ps, d', back, e - 1);
    assert GlueAt(back, e - 1) && !GlueAt(ks, e - 1);
  }

  /** How punctuation left out of a run, next to an Arabic-Indic digit, is shown. */
  lemma LeftOutShown(ks: seq<Kind>, cs: seq<Dir>, d: seq<Side>, ps: seq<Kind>, s: nat, e: nat)
    requires LaidOut(ks, cs, d, ps) && IsLtrRun(d, s, e)
    requires DigitAt(ks, s) && GlueAt(ks, e) && IndicAt(ks, e + 1)
    ensures !DigitAt(ks, e - 1) && !GlueAt(ks, e - 1) && ks[e - 1] == Latin
    ensures GluedAt(ps, |ks| - 1 - e) && IndicAt(ps, |ks| - 2 - e)
    ensures ps[|ks| - s - 1] == ks[e - 1] && !GluedAt(ps, |ks| - s)
  {
    var k := |ks| - 1 - e;
    ShownRun(ks, d, ps, s, e);
    LtrRunEnds(ks, cs, d, s, e);
    ResolvedRtl(ks, cs, d, e);
    ShownRtl(ks, d, ps, k);
    assert d[e + 1] == R;
    ShownRtl(ks, d, ps, k - 1);
  }

  lemma LeftOutTakenIn(ks: seq<Kind>, cs: seq<Dir>, d: seq<Side>, ps: seq<Kind>, cs': seq<Dir>, d': seq<Side>,
                       s: nat, e: nat)
    requires LaidOut(ks, cs, d, ps) && HasClasses(ps, cs') && Framed(cs', d') && IsLtrRun(d, s, e)
    requires DigitAt(ks, s) && GlueAt(ks, e) && IndicAt(ks, e + 1)
    ensures IsLtrRun(d', |ks| - 1 - e, |ks| - s)
  {
    var k, edge := |ks| - 1 - e, |ks| - s;
    LeftOutShown(ks, cs, d, ps, s, e);
    ShownRun(ks, d, ps, s, e);
    LtrRunEnds(ks, cs, d, s, e);
    assert Spans(cs', k, edge - 1);
    if s > 0 {
      RightOfRunIsRtl(ks, cs, d, ps, cs', d', s, e);
    }
  }

  /** Punctuation that was left out of a run is taken into it the second time. */
  lemma LeftOutMoves(ks: seq<Kind>, cs: seq<Dir>, d: seq<Side>, ps: seq<Kind>, cs': seq<Dir>, d': seq<Side>,
                     back: seq<Kind>, s: nat, e: nat)
    requires LaidOut(ks, cs, d, ps) && LaidOut(ps, cs', d', back) && IsLtrRun(d, s, e)
    requires DigitAt(ks, s) && GlueAt(ks, e) && IndicAt(ks, e + 1)
    ensures back != ks
  {
    LeftOutShown(ks, cs, d, ps, s, e);
    LeftOutTakenIn(ks, cs, d, ps, cs', d', s, e);
    ShownRun(ps, d', back, |ks| - 1 - e, |ks| - s);
    assert back[e] == ks[e - 1];
  }

  /** Unsteady because of what stands before the run, shown after it, or because of what stands after it. */
  predicate Shifts(ks: seq<Kind>, s: int, e: int) {
    || (e - s >= 2 && GlueAt(ks, s) && IndicAt(ks, s - 1) && !IndicAt(ks, e))
    || (DigitAt(ks, s) && GlueAt(ks, e) && IndicAt(ks, e + 1))
  }

  lemma UnsteadyShifts(ks: seq<Kind>, s: nat, e: nat)
    requires s < e <= |ks| && !SteadyRun(ks, s, e)
    ensures Shifts(ks, s, e) || Shifts(Reversed(ks), |ks| - e, |ks| - s)
  {
  }

  lemma UnsteadyEndMoves(line: string, s: nat, e: nat)
    requires IsLtrRun(Resolve(Classes(line)), s, e) && Shifts(Kinds(line), s, e)
    ensures VisualLine(VisualLine(line)) != line
  {
    var v := VisualLine(line);
    var ks, ps, back := Kinds(line), Kinds(v), Kinds(VisualLine(v));
    LineLaidOut(line);
    LineLaidOut(v);
    if DigitAt(ks, s) && GlueAt(ks, e) && IndicAt(ks, e + 1) {
      LeftOutMoves(ks, Classes(line), Resolve(Classes(line)), ps, Classes(v), Resolve(Classes(v)), back, s, e);
    } else {
      TakenInMoves(ks, Classes(line), Resolve(Classes(line)), ps, Classes(v), Resolve(Classes(v)), back, s, e);
    }
  }

  // Layout does not prefer an end: reading the line backwards reverses its visual form.

  lemma ClassesBackwards(line: string)
    ensures Classes(Reversed(line)) == Reversed(Classes(line)) && Kinds(Reversed(line)) == Reversed(Kinds(line))
  {
    forall i | 0 <= i < |line| ensures Glued(Reversed(line), i) <==> Glued(line, |line| - 1 - i) {
    }
  }

  lemma SurroundedBackwards(cs: seq<Dir>, i: nat)
    requires i < |cs| && Surrounded(cs, i)
    ensures Surrounded(Reversed(cs), |cs| - 1 - i)
  {
    var a, b :| 0 <= a <= i <= b < |cs| && Spans(cs, a, b);
    assert Spans(Reversed(cs), |cs| - 1 - b, |cs| - 1 - a);
  }

  lemma SurroundedEitherWay(cs: seq<Dir>, i: nat)
    requires i < |cs|
    ensures Surrounded(Reversed(cs), |cs| - 1 - i) <==> Surrounded(cs, i)
  {
    var back := Reversed(cs);
    if Surrounded(cs, i) {
      SurroundedBackwards(cs, i);
    }
    if Surrounded(back, |cs| - 1 - i) {
      SurroundedBackwards(back, |cs| - 1 - i);
      assert Reversed(back) == cs;
    }
  }

  lemma ResolveBackwards(cs: seq<Dir>)
    ensures Resolve(Reversed(cs)) == Reversed(Resolve(cs))
  {
    forall i | 0 <= i < |cs| ensures Reversed(Resolve(cs))[i] == L <==> Surrounded(Reversed(cs), i) {
      ResolvesByN1(cs, |cs| - 1 - i);
      SurroundedEitherWay(cs, |cs| - 1 - i);
    }
    ResolveIs(Reversed(cs), Reversed(Resolve(cs)));
  }

  lemma OriginBackwards(d: seq<Side>, k: nat)
    requires k < |d|
    ensures Origin(Reversed(d), k) == |d| - 1 - Origin(d, |d| - 1 - k)
  {
    ReversedRun(d, k);
  }

  lemma ReorderBackwardsAt(line: string, d: seq<Side>, k: nat)
    requires |d| == |line| && k < |line|
    ensures Reorder(Reversed(line), Reversed(d))[k] == Reorder(line, d)[|line| - 1 - k]
  {
    var j := Origin(d, |line| - 1 - k);
    OriginBackwards(d, k);
    assert Reorder(Reversed(line), Reversed(d))[k] == if d[k] == R then Mirror(line[j]) else line[j] by {
      ReorderAt(Reversed(line), Reversed(d), k);
    }
    ReorderAt(line, d, |line| - 1 - k);
  }

  lemma ReorderBackwards(line: string, d: seq<Side>)
    requires |d| == |line|
    ensures Reorder(Reversed(line), Reversed(d)) == Reversed(Reorder(line, d))
  {
    forall k | 0 <= k < |line| ensures Reorder(Reversed(line), Reversed(d))[k] == Reversed(Reorder(line, d))[k] {
      ReorderBackwardsAt(line, d, k);
    }
  }

  lemma {:induction false} VisualLineBackwards(line: string)
    ensures VisualLine(Reversed(line)) == Reversed(VisualLine(line))
  {
    ClassesBackwards(line);
    ResolveBackwards(Classes(line));
    ReorderBackwards(line, Resolve(Classes(line)));
  }

  lemma RunBackwards(d: seq<Side>, s: nat, e: nat)
    requires IsLtrRun(d, s, e)
    ensures IsLtrRun(Reversed(d), |d| - e, |d| - s)
  {
  }

  lemma DirectionsBackwards(line: string)
    ensures Resolve(Classes(Reversed(line))) == Reversed(Resolve(Classes(line)))
    ensures Kinds(Reversed(line)) == Reversed(Kinds(line))
  {
    ClassesBackwards(line);
    ResolveBackwards(Classes(line));
  }

  lemma UnsteadyBackwards(line: string, s: nat, e: nat)
    requires IsLtrRun(Resolve(Classes(line)), s, e) && Shifts(Reversed(Kinds(line)), |line| - e, |line| - s)
    ensures var back := Reversed(line);
      IsLtrRun(Resolve(Classes(back)), |line| - e, |line| - s) && Shifts(Kinds(back), |line| - e, |line| - s)
  {
    DirectionsBackwards(line);
    RunBackwards(Resolve(Classes(line)), s, e);
  }

  lemma UnsteadyStartMoves(line: string, s: nat, e: nat)
    requires IsLtrRun(Resolve(Classes(line)), s, e) && Shifts(Reversed(Kinds(line)), |line| - e, |line| - s)
    ensures VisualLine(VisualLine(line)) != line
  {
    UnsteadyBackwards(line, s, e);
    UnsteadyEndMoves(Reversed(line), |line| - e, |line| - s);
    TwiceBackwards(line);
  }

  lemma TwiceBackwards(line: string)
    requires VisualLine(VisualLine(Reversed(line))) != Reversed(line)
    ensures VisualLine(VisualLine(line)) != line
  {
    VisualLineBackwards(line);
    VisualLineBackwards(VisualLine(line));
  }

  lemma UnsteadyMoves(line: string, s: nat, e: nat)
    requires IsLtrRun(Resolve(Classes(line)), s, e) && !SteadyRun(Kinds(line), s, e)
    ensures VisualLine(VisualLine(line)) != line
  {
    UnsteadyShifts(Kinds(line), s, e);
    if Shifts(Kinds(line), s, e) {
      UnsteadyEndMoves(line, s, e);
    } else {
      UnsteadyStartMoves(line, s, e);
    }
  }

  /** Laying a line out twice restores it exactly when it is steady. */
  lemma {:induction false} VisualLineTwice(line: string)
    ensures VisualLine(VisualLine(line)) == line <==> Steady(line)
  {
    if Steady(line) {
      SteadyTwice(line);
    } else if s: nat, e: nat :| IsLtrRun(Resolve(Classes(line)), s, e) && !SteadyRun(Kinds(line), s, e) {
      UnsteadyMoves(line, s, e);
    }
  }

  lemma RunShown(line: string, d: seq<Side>, i: nat, s: nat, e: nat)
    requires |d| == |line| && IsRun(d, i, s, e) && d[i] == L
    ensures forall k | |line| - e <= k < |line| - s :: Reorder(line, d)[k] == line[s + e - |line| + k]
  {
    forall k | |line| - e <= k < |line| - s ensures Reorder(line, d)[k] == line[s + e - |line| + k] {
      OriginInLtrRun(d, i, s, e, k);
      ReorderAt(line, d, k);
    }
  }

  /** Text that starts and ends left-to-right with nothing right-to-left inside is shown verbatim:
      amounts, dates, codes and Latin names keep their reading order. */
  lemma ShownVerbatim(line: string, a: nat, b: nat) returns (at: nat)
    requires a < b <= |line| && Classify(line[a]) == L && Classify(line[b - 1]) == L
    requires forall k | a <= k < b :: Classify(line[k]) != R
    ensures at + (b - a) <= |line| && VisualLine(line)[at..at + (b - a)] == line[a..b]
  {
    SpanResolvesLtr(Classes(line), a, b - 1);
    at := StretchShown(line, Resolve(Classes(line)), a, b);
  }

  lemma SameStretch(v: string, line: string, at: nat, a: nat, n: nat)
    requires at + n <= |v| && a + n <= |line|
    requires forall k | at <= k < at + n :: v[k] == line[a - at + k]
    ensures v[at..at + n] == line[a..a + n]
  {
  }

  lemma PartShown(line: string, d: seq<Side>, a: nat, s: nat, e: nat, b: nat)
    requires |d| == |line| && IsRun(d, a, s, e) && d[a] == L && a < b <= e
    ensures var at := |line| - e + (a - s);
      forall k | at <= k < at + (b - a) :: Reorder(line, d)[k] == line[a - at + k]
  {
    RunShown(line, d, a, s, e);
  }

  lemma StretchShown(line: string, d: seq<Side>, a: nat, b: nat) returns (at: nat)
    requires |d| == |line| && a < b <= |line| && forall k | a <= k < b :: d[k] == L
    ensures at + (b - a) <= |line| && Reorder(line, d)[at..at + (b - a)] == line[a..b]
  {
    var s, e := RunAt(d, a);
    assert e >= b;
    at := |line| - e + (a - s);
    PartShown(line, d, a, s, e, b);
    SameStretch(Reorder(line, d), line, at, a, b - a);
  }

  /** An unsteady line: a full stop between an ASCII and an Arabic-Indic digit moves. */
  lemma MixedDigitsDoNotRoundTrip()
    ensures VisualLine(VisualLine("1.\U{0662}")) == ".1\U{0662}"
  {
    MixedDigitsOnce();
    MixedDigitsTwice();
  }

  lemma MixedDigitsOnce()
    ensures VisualLine("1.\U{0662}") == "\U{0662}1."
  {
    var d: seq<Side> := [L, L, R];
    assert Classes("1.\U{0662}") == [L, L, R];
    assert Spans([L, L, R], 0, 1);
    ResolveIs([L, L, R], d);
    MixedDigitsReordered("1.\U{0662}", d);
  }

  lemma MixedDigitsReordered(line: string, d: seq<Side>)
    requires line == "1.\U{0662}" && d == [L, L, R]
    ensures Reorder(line, d) == "\U{0662}1."
  {
    RunIsUnique(d, 0, 0, 2);
    RunIsUnique(d, 1, 0, 2);
  }

  lemma MixedDigitsTwice()
    ensures VisualLine("\U{0662}1.") == ".1\U{0662}"
  {
    var d: seq<Side> := [R, L, R];
    assert Classes("\U{0662}1.") == [R, L, N];
    assert Spans([R, L, N], 1, 1);
    ResolveIs([R, L, N], d);
    RunIsUnique(d, 1, 1, 2);
  }

  // ---------------------------------------------------------------------------------------------
  // Whole texts
  // ---------------------------------------------------------------------------------------------

  /** text.split('\n') */
  function Lines(text: string): (lines: seq<string>)
    ensures lines != []
  {
    if text == "" then [""]
    else if text[0] == '\n' then [""] + Lines(text[1..])
    else var rest := Lines(text[1..]); [[text[0]] + rest[0]] + rest[1..]
  }

  /** lines.join('\n') */
  function Join(lines: seq<string>): string {
    if lines == [] then ""
    else if |lines| == 1 then lines[0]
    else lines[0] + "\n" + Join(lines[1..])
  }

  function VisualLines(lines: seq<string>): (vs: seq<string>)
    ensures |vs| == |lines|
  {
    seq(|lines|, i requires 0 <= i < |lines| => VisualLine(lines[i]))
  }

  /** toVisualRtl: text without right-to-left characters is left alone. */
  function ToVisual(text: string): string {
    if text == "" then ""
    else if !ContainsRtl(text) then text
    else Join(VisualLines(Lines(text)))
  }

  lemma {:induction false} JoinLines(text: string)
    ensures Join(Lines(text)) == text
    ensures forall l | l in Lines(text) :: '\n' !in l
  {
    if text != "" {
      JoinLines(text[1..]);
    }
  }

  lemma JoinCons(c: char, lines: seq<string>)
    requires lines != []
    ensures Join([[c] + lines[0]] + lines[1..]) == [c] + Join(lines)
  {
    assert ([[c] + lines[0]] + lines[1..])[1..] == lines[1..];
  }

  lemma LinesCons(c: char, text: string)
    requires c != '\n'
    ensures Lines([c] + text) == [[c] + Lines(text)[0]] + Lines(text)[1..]
  {
    assert ([c] + text)[1..] == text;
  }

  lemma HeadCons(lines: seq<string>)
    requires lines != [] && lines[0] != ""
    ensures var head := lines[0]; var shorter := [head[1..]] + lines[1..];
      head[0] in head && lines == [[head[0]] + shorter[0]] + shorter[1..]
  {
    assert lines[0] == [lines[0][0]] + lines[0][1..];
  }

  lemma {:induction false} LinesJoin(lines: seq<string>)
    requires lines != [] && forall i | 0 <= i < |lines| :: '\n' !in lines[i]
    ensures Lines(Join(lines)) == lines
    decreases |lines|, |lines[0]|
  {
    var head := lines[0];
    if head != "" {
      var shorter := [head[1..]] + lines[1..];
      LinesJoin(shorter);
      HeadCons(lines);
      JoinCons(head[0], shorter);
      LinesCons(head[0], Join(shorter));
    } else if |lines| > 1 {
      LinesJoin(lines[1..]);
      assert Join(lines)[1..] == Join(lines[1..]);
    }
  }

  lemma {:induction false} JoinContainsRtl(lines: seq<string>)
    ensures ContainsRtl(Join(lines)) <==> exists i | 0 <= i < |lines| :: ContainsRtl(lines[i])
  {
    if |lines| > 1 {
      JoinContainsRtl(lines[1..]);
      var rest := Join(lines[1..]);
      assert Join(lines) == lines[0] + "\n" + rest;
      RtlOfConcat(lines[0] + "\n", rest);
      RtlOfConcat(lines[0], "\n");
      if i :| 0 <= i < |lines| && ContainsRtl(lines[i]) {
        assert i > 0 ==> ContainsRtl(lines[1..][i - 1]);
      }
    }
  }

  lemma RtlOfConcat(x: string, y: string)
    ensures ContainsRtl(x + y) <==> ContainsRtl(x) || ContainsRtl(y)
  {
    if i :| 0 <= i < |x| && Classify(x[i]) == R {
      assert Classify((x + y)[i]) == R;
    }
    if i :| 0 <= i < |y| && Classify(y[i]) == R {
      assert Classify((x + y)[|x| + i]) == R;
    }
  }

  /** Reordering a line moves and mirrors characters: it neither loses right-to-left text nor makes any. */
  lemma VisualLineContents(line: string)
    ensures ContainsRtl(line) ==> ContainsRtl(VisualLine(line))
    ensures '\n' !in line ==> '\n' !in VisualLine(line)
  {
    var d, v := Resolve(Classes(line)), VisualLine(line);
    forall k | 0 <= k < |line|
      ensures Classify(v[k]) == Classify(line[Origin(d, k)]) && (v[k] == '\n' <==> line[Origin(d, k)] == '\n')
    {
      ReorderAt(line, d, k);
    }
    if i :| 0 <= i < |line| && Classify(line[i]) == R {
      assert d[i] == R;
      assert Classify(v[|line| - 1 - i]) == R;
    }
  }

  /** The visual form of a text with right-to-left characters has them too, and the same number of lines. */
  lemma VisualLinesOf(text: string)
    requires ContainsRtl(text)
    ensures var vs := VisualLines(Lines(text));
      ToVisual(text) == Join(vs) && ContainsRtl(Join(vs)) && Lines(Join(vs)) == vs
  {
    var lines := Lines(text);
    var vs := VisualLines(lines);
    JoinLines(text);
    JoinContainsRtl(lines);
    forall i | 0 <= i < |lines| ensures '\n' !in vs[i] && (ContainsRtl(lines[i]) ==> ContainsRtl(vs[i])) {
      VisualLineContents(lines[i]);
    }
    JoinContainsRtl(vs);
    LinesJoin(vs);
  }

  /** Text without right-to-left characters is left alone; any other is laid out line by line. */
  lemma ToVisualIs(text: string)
    ensures (forall c | c in text :: !StrongRtl(c)) ==> ToVisual(text) == text
    ensures (exists c | c in text :: StrongRtl(c)) ==>
      |Lines(ToVisual(text))| == |Lines(text)| &&
      forall i | 0 <= i < |Lines(text)| :: Lines(ToVisual(text))[i] == VisualLine(Lines(text)[i])
  {
    forall i | 0 <= i < |text| ensures Classify(text[i]) == R <==> StrongRtl(text[i]) {
      ClassIs(text, i);
    }
    if ContainsRtl(text) {
      VisualLinesOf(text);
    }
  }

  lemma SameLines(text: string, lines: seq<string>)
    requires lines != [] && forall i | 0 <= i < |lines| :: '\n' !in lines[i]
    ensures Join(lines) == text <==> lines == Lines(text)
  {
    JoinLines(text);
    LinesJoin(lines);
  }

  lemma VisualTwice(text: string)
    requires ContainsRtl(text)
    ensures ToVisual(ToVisual(text)) == text <==> VisualLines(VisualLines(Lines(text))) == Lines(text)
  {
    var vs := VisualLines(Lines(text));
    VisualLinesOf(text);
    VisualLinesOf(Join(vs));
    JoinLines(text);
    JoinLines(Join(vs));
    forall i | 0 <= i < |vs| ensures '\n' !in VisualLines(vs)[i] {
      assert vs[i] in Lines(Join(vs));
      VisualLineContents(vs[i]);
    }
    SameLines(text, VisualLines(vs));
  }

  /** Laying a text out twice gives it back exactly when every line is steady, or nothing in it is
      right-to-left. */
  lemma {:induction false} ToVisualTwice(text: string)
    ensures ToVisual(ToVisual(text)) == text <==> !ContainsRtl(text) || forall l | l in Lines(text) :: Steady(l)
  {
    if ContainsRtl(text) {
      VisualTwice(text);
      var lines := Lines(text);
      forall i | 0 <= i < |lines|
        ensures VisualLines(VisualLines(lines))[i] == lines[i] <==> Steady(lines[i])
      {
        VisualLineTwice(lines[i]);
      }
      assert (forall l | l in lines :: Steady(l)) <==> forall i | 0 <= i < |lines| :: Steady(lines[i]);
    }
  }

  /** The common case: amounts, dates and codes written with ASCII digits. */
  lemma {:induction false} AsciiDigitsRoundTrip(text: string)
    requires forall c | c in text :: !IsArabicIndicDigit(c)
    ensures ToVisual(ToVisual(text)) == text
  {
    LinesKeepCharacters(text);
    ToVisualTwice(text);
    forall l | l in Lines(text) ensures Steady(l) {
      PlainIsSteady(l);
    }
  }

  lemma {:induction false} LinesKeepCharacters(text: string)
    ensures forall l, c | l in Lines(text) && c in l :: c in text
  {
    if text != "" {
      LinesKeepCharacters(text[1..]);
    }
  }
}
