/** The request fingerprint: JSON printed with the members of every object sorted by key. The comparator
    of the sort is a parameter, since locale comparison may call two different keys equal. */
module CanonicalJson {
  import opened Prelude

  datatype Pair<T> = Pair(key: string, value: T)

  /** A parsed body. Number carries the text the runtime prints for a finite number. */
  datatype Json =
    | Null
    | Undefined
    | NonFinite
    | Bool(b: bool)
    | Number(text: string)
    | Text(s: string)
    | Array(items: seq<Json>)
    | Object(members: seq<Pair<Json>>)

  /** What a body means when the order of object members does not matter. */
  datatype Sem =
    | Nothing
    | Truth(b: bool)
    | Numeral(text: string)
    | Characters(s: string)
    | List(items: seq<Sem>)
    | Fields(members: map<string, Sem>)

  type Order = (string, string) -> bool

  // ---------------------------------------------------------------------------------------------
  // Sorting pairs by key
  // ---------------------------------------------------------------------------------------------

  function Insert<T>(p: Pair<T>, ps: seq<Pair<T>>, leq: Order): seq<Pair<T>> {
    if ps == [] || leq(p.key, ps[0].key) then [p] + ps else [ps[0]] + Insert(p, ps[1..], leq)
  }

  /** The stable sort by key. */
  function Sort<T>(ps: seq<Pair<T>>, leq: Order): seq<Pair<T>> {
    if ps == [] then [] else Insert(ps[0], Sort(ps[1..], leq), leq)
  }

  function ToMap<T>(ps: seq<Pair<T>>): map<string, T> {
    if ps == [] then map[] else ToMap(ps[1..])[ps[0].key := ps[0].value]
  }

  predicate Distinct<T>(ps: seq<Pair<T>>) {
    ps == [] || (ps[0].key !in ToMap(ps[1..]) && Distinct(ps[1..]))
  }

  predicate Ordered<T>(ps: seq<Pair<T>>, leq: Order) {
    |ps| < 2 || (leq(ps[0].key, ps[1].key) && Ordered(ps[1..], leq))
  }

  ghost predicate Preorder(leq: Order) {
    && (forall a, b :: leq(a, b) || leq(b, a))
    && forall a, b, c :: leq(a, b) && leq(b, c) ==> leq(a, c)
  }

  ghost predicate Antisymmetric(leq: Order) {
    forall a, b :: leq(a, b) && leq(b, a) ==> a == b
  }

  lemma {:induction false} InsertMap<T>(p: Pair<T>, ps: seq<Pair<T>>, leq: Order)
    requires Distinct(ps) && p.key !in ToMap(ps)
    ensures Distinct(Insert(p, ps, leq)) && ToMap(Insert(p, ps, leq)) == ToMap(ps)[p.key := p.value]
  {
    if ps == [] || leq(p.key, ps[0].key) {
      assert ([p] + ps)[1..] == ps;
    } else {
      InsertMap(p, ps[1..], leq);
      assert ([ps[0]] + Insert(p, ps[1..], leq))[1..] == Insert(p, ps[1..], leq);
    }
  }

  /** Sorting loses, adds and changes no member, whatever the comparator. */
  lemma {:induction false} SortMap<T>(ps: seq<Pair<T>>, leq: Order)
    requires Distinct(ps)
    ensures Distinct(Sort(ps, leq)) && ToMap(Sort(ps, leq)) == ToMap(ps)
  {
    if ps != [] {
      SortMap(ps[1..], leq);
      InsertMap(ps[0], Sort(ps[1..], leq), leq);
    }
  }

  lemma {:induction false} InsertOrdered<T>(p: Pair<T>, ps: seq<Pair<T>>, leq: Order)
    requires Preorder(leq) && Ordered(ps, leq)
    ensures Ordered(Insert(p, ps, leq), leq)
  {
    if ps == [] || leq(p.key, ps[0].key) {
      assert ([p] + ps)[1..] == ps;
    } else {
      assert leq(ps[0].key, p.key);
      InsertOrdered(p, ps[1..], leq);
      assert ([ps[0]] + Insert(p, ps[1..], leq))[1..] == Insert(p, ps[1..], leq);
    }
  }

  lemma {:induction false} SortOrders<T>(ps: seq<Pair<T>>, leq: Order)
    requires Preorder(leq)
    ensures Ordered(Sort(ps, leq), leq)
  {
    if ps != [] {
      SortOrders(ps[1..], leq);
      InsertOrdered(ps[0], Sort(ps[1..], leq), leq);
    }
  }

  lemma {:induction false} Find<T>(ps: seq<Pair<T>>, key: string) returns (i: nat)
    requires Distinct(ps) && key in ToMap(ps)
    ensures i < |ps| && ps[i] == Pair(key, ToMap(ps)[key])
  {
    if ps[0].key == key {
      i := 0;
    } else {
      i := Find(ps[1..], key);
      i := i + 1;
    }
  }

  lemma {:induction false} Lookup<T>(ps: seq<Pair<T>>, i: nat)
    requires Distinct(ps) && i < |ps|
    ensures ps[i].key in ToMap(ps) && ToMap(ps)[ps[i].key] == ps[i].value
  {
    if i > 0 {
      Lookup(ps[1..], i - 1);
    }
  }

  lemma {:induction false} HeadIsLeast<T>(ps: seq<Pair<T>>, leq: Order, i: nat)
    requires Preorder(leq) && Ordered(ps, leq) && i < |ps|
    ensures leq(ps[0].key, ps[i].key)
  {
    if i > 0 {
      HeadIsLeast(ps[1..], leq, i - 1);
    }
  }

  /** The comparator tells any two of these keys apart. */
  ghost predicate UntiedKeys(keys: set<string>, leq: Order) {
    forall a, b | a in keys && b in keys && leq(a, b) && leq(b, a) :: a == b
  }

  /** Sorted, members with given values and untied keys can stand in one order only. */
  lemma {:induction false} OneOrder<T>(ps: seq<Pair<T>>, qs: seq<Pair<T>>, leq: Order)
    requires Preorder(leq) && UntiedKeys(ToMap(ps).Keys, leq)
    requires Ordered(ps, leq) && Ordered(qs, leq) && Distinct(ps) && Distinct(qs)
    requires ToMap(ps) == ToMap(qs)
    ensures ps == qs
  {
    if ps != [] { Lookup(ps, 0); }
    if qs != [] { Lookup(qs, 0); }
    if ps != [] && qs != [] {
      var j := Find(qs, ps[0].key);
      var i := Find(ps, qs[0].key);
      HeadIsLeast(qs, leq, j);
      HeadIsLeast(ps, leq, i);
      assert ps[0].key == qs[0].key;
      assert ToMap(ps[1..]) == ToMap(ps) - {ps[0].key};
      assert ToMap(qs[1..]) == ToMap(qs) - {qs[0].key};
      OneOrder(ps[1..], qs[1..], leq);
      assert ps == [ps[0]] + ps[1..] && qs == [qs[0]] + qs[1..];
    }
  }

  // ---------------------------------------------------------------------------------------------
  // Printing
  // ---------------------------------------------------------------------------------------------

  function Escape(c: char): string {
    if c == '"' then "\\\""
    else if c == '\\' then "\\\\"
    else if c == 8 as char then "\\b"
    else if c == 9 as char then "\\t"
    else if c == 10 as char then "\\n"
    else if c == 12 as char then "\\f"
    else if c == 13 as char then "\\r"
    else if c as int < 32 then "\\u00" + [HexChar(c as int / 16), HexChar(c as int % 16)]
    else [c]
  }

  function EscapeAll(s: string): string {
    if s == "" then "" else Escape(s[0]) + EscapeAll(s[1..])
  }

  function Quote(s: string): string {
    "\"" + EscapeAll(s) + "\""
  }

  function Join(parts: seq<string>): string {
    if parts == [] then "" else if |parts| == 1 then parts[0] else parts[0] + "," + Join(parts[1..])
  }

  function PrintMembers(ps: seq<Pair<string>>): seq<string> {
    if ps == [] then [] else [Quote(ps[0].key) + ":" + ps[0].value] + PrintMembers(ps[1..])
  }

  function Literal(b: bool): string {
    if b then "true" else "false"
  }

  /** stableStringify. Sorting looks at keys only, so it may come before or after printing the values
      (SortBeforePrinting). */
  function Print(v: Json, leq: Order): string {
    match v
    case Null => "null"
    case Undefined => "null"
    case NonFinite => "null"
    case Bool(b) => Literal(b)
    case Number(text) => text
    case Text(s) => Quote(s)
    case Array(items) => "[" + Join(PrintAll(items, leq)) + "]"
    case Object(members) => "{" + Join(PrintMembers(Sort(PrintValues(members, leq), leq))) + "}"
  }

  function PrintAll(items: seq<Json>, leq: Order): seq<string> {
    if items == [] then [] else [Print(items[0], leq)] + PrintAll(items[1..], leq)
  }

  function PrintValues(members: seq<Pair<Json>>, leq: Order): seq<Pair<string>> {
    if members == [] then [] else [Pair(members[0].key, Print(members[0].value, leq))] + PrintValues(members[1..], leq)
  }

  lemma {:induction false} InsertBeforePrinting(p: Pair<Json>, ps: seq<Pair<Json>>, leq: Order)
    ensures PrintValues(Insert(p, ps, leq), leq) == Insert(Pair(p.key, Print(p.value, leq)), PrintValues(ps, leq), leq)
  {
    if ps == [] || leq(p.key, ps[0].key) {
      assert ([p] + ps)[1..] == ps;
    } else {
      InsertBeforePrinting(p, ps[1..], leq);
      assert ([ps[0]] + Insert(p, ps[1..], leq))[1..] == Insert(p, ps[1..], leq);
    }
  }

  /** Sorting the members and then printing their values, as the program does. */
  lemma {:induction false} SortBeforePrinting(members: seq<Pair<Json>>, leq: Order)
    ensures PrintValues(Sort(members, leq), leq) == Sort(PrintValues(members, leq), leq)
  {
    if members != [] {
      SortBeforePrinting(members[1..], leq);
      InsertBeforePrinting(members[0], Sort(members[1..], leq), leq);
    }
  }

  // ---------------------------------------------------------------------------------------------
  // Meaning
  // ---------------------------------------------------------------------------------------------

  predicate IsNumeralChar(c: char) {
    '0' <= c <= '9' || c == '-' || c == '+' || c == '.' || c == 'e'
  }

  predicate IsNumeral(text: string) {
    text != "" && forall k | 0 <= k < |text| :: IsNumeralChar(text[k])
  }

  /** What a parsed body is: numbers print as numerals and object keys are distinct. */
  predicate WellFormed(v: Json) {
    match v
    case Number(text) => IsNumeral(text)
    case Array(items) => forall k | 0 <= k < |items| :: WellFormed(items[k])
    case Object(members) => Distinct(members) && forall k | 0 <= k < |members| :: WellFormed(members[k].value)
    case _ => true
  }

  function Meaning(v: Json): Sem {
    match v
    case Null => Nothing
    case Undefined => Nothing
    case NonFinite => Nothing
    case Bool(b) => Truth(b)
    case Number(text) => Numeral(text)
    case Text(s) => Characters(s)
    case Array(items) => List(MeaningAll(items))
    case Object(members) => Fields(ToMap(MeaningValues(members)))
  }

  function MeaningAll(items: seq<Json>): (r: seq<Sem>)
    ensures |r| == |items| && forall k | 0 <= k < |r| :: r[k] == Meaning(items[k])
  {
    if items == [] then [] else [Meaning(items[0])] + MeaningAll(items[1..])
  }

  function MeaningValues(members: seq<Pair<Json>>): (r: seq<Pair<Sem>>)
    ensures |r| == |members| && forall k | 0 <= k < |r| :: r[k] == Pair(members[k].key, Meaning(members[k].value))
  {
    if members == [] then [] else [Pair(members[0].key, Meaning(members[0].value))] + MeaningValues(members[1..])
  }

  /** The body with its members sorted throughout. */
  function Normal(v: Json, leq: Order): Json {
    match v
    case Undefined => Null
    case NonFinite => Null
    case Array(items) => Array(NormalAll(items, leq))
    case Object(members) => Object(Sort(NormalValues(members, leq), leq))
    case _ => v
  }

  function NormalAll(items: seq<Json>, leq: Order): (r: seq<Json>)
    ensures |r| == |items| && forall k | 0 <= k < |r| :: r[k] == Normal(items[k], leq)
  {
    if items == [] then [] else [Normal(items[0], leq)] + NormalAll(items[1..], leq)
  }

  function NormalValues(members: seq<Pair<Json>>, leq: Order): (r: seq<Pair<Json>>)
    ensures |r| == |members| && forall k | 0 <= k < |r| :: r[k] == Pair(members[k].key, Normal(members[k].value, leq))
  {
    if members == [] then []
    else [Pair(members[0].key, Normal(members[0].value, leq))] + NormalValues(members[1..], leq)
  }

  lemma {:induction false} SameKeys<T, U>(ps: seq<Pair<T>>, qs: seq<Pair<U>>)
    requires |ps| == |qs| && forall k | 0 <= k < |ps| :: ps[k].key == qs[k].key
    ensures ToMap(ps).Keys == ToMap(qs).Keys && (Distinct(ps) <==> Distinct(qs))
  {
    if ps != [] {
      SameKeys(ps[1..], qs[1..]);
    }
  }

  // ---------------------------------------------------------------------------------------------
  // Equal meanings give equal normal forms, under a total order
  // ---------------------------------------------------------------------------------------------

  lemma {:induction false} NormalKeepsMeaning(v: Json, leq: Order)
    requires WellFormed(v)
    ensures Meaning(Normal(v, leq)) == Meaning(v)
  {
    match v
    case Array(items) =>
      forall k | 0 <= k < |items| ensures Meaning(Normal(items[k], leq)) == Meaning(items[k]) {
        NormalKeepsMeaning(items[k], leq);
      }
      assert MeaningAll(NormalAll(items, leq)) == MeaningAll(items);
    case Object(members) =>
      var normal := NormalValues(members, leq);
      forall k | 0 <= k < |members| ensures Meaning(Normal(members[k].value, leq)) == Meaning(members[k].value) {
        NormalKeepsMeaning(members[k].value, leq);
      }
      assert MeaningValues(normal) == MeaningValues(members);
      SameKeys(normal, members);
      SortCommutesWithMeaning(normal, leq);
      SameKeys(MeaningValues(normal), normal);
      SortMap(MeaningValues(normal), leq);
    case _ =>
  }

  lemma {:induction false} InsertCommutesWithMeaning(p: Pair<Json>, ps: seq<Pair<Json>>, leq: Order)
    ensures MeaningValues(Insert(p, ps, leq)) == Insert(Pair(p.key, Meaning(p.value)), MeaningValues(ps), leq)
  {
    if ps == [] || leq(p.key, ps[0].key) {
      assert ([p] + ps)[1..] == ps;
    } else {
      InsertCommutesWithMeaning(p, ps[1..], leq);
      assert ([ps[0]] + Insert(p, ps[1..], leq))[1..] == Insert(p, ps[1..], leq);
    }
  }

  lemma {:induction false} SortCommutesWithMeaning(ps: seq<Pair<Json>>, leq: Order)
    ensures MeaningValues(Sort(ps, leq)) == Sort(MeaningValues(ps), leq)
  {
    if ps != [] {
      SortCommutesWithMeaning(ps[1..], leq);
      InsertCommutesWithMeaning(ps[0], Sort(ps[1..], leq), leq);
    }
  }

  /** No object inside the body has two keys that the comparator cannot tell apart. */
  ghost predicate Untied(v: Json, leq: Order) {
    match v
    case Array(items) => forall k | 0 <= k < |items| :: Untied(items[k], leq)
    case Object(members) =>
      UntiedKeys(ToMap(members).Keys, leq) && forall k | 0 <= k < |members| :: Untied(members[k].value, leq)
    case _ => true
  }

  lemma {:induction false} EqualMeaningsNormalize(v: Json, w: Json, leq: Order)
    requires WellFormed(v) && WellFormed(w) && Preorder(leq) && Untied(v, leq)
    requires Meaning(v) == Meaning(w)
    ensures Normal(v, leq) == Normal(w, leq)
    decreases v, 1
  {
    match v
    case Array(items) =>
      assert w.Array? && |w.items| == |items|;
      forall k | 0 <= k < |items| ensures Normal(items[k], leq) == Normal(w.items[k], leq) {
        assert MeaningAll(items)[k] == MeaningAll(w.items)[k];
        EqualMeaningsNormalize(items[k], w.items[k], leq);
      }
      assert NormalAll(items, leq) == NormalAll(w.items, leq);
    case Object(members) =>
      assert w.Object?;
      EqualMembersNormalize(v, members, w.members, leq);
    case _ =>
  }

  lemma {:induction false} EqualMembersNormalize(v: Json, ps: seq<Pair<Json>>, qs: seq<Pair<Json>>, leq: Order)
    requires v.Object? && v.members == ps
    requires WellFormed(v) && WellFormed(Object(qs)) && Preorder(leq) && Untied(v, leq)
    requires ToMap(MeaningValues(ps)) == ToMap(MeaningValues(qs))
    ensures Sort(NormalValues(ps, leq), leq) == Sort(NormalValues(qs, leq), leq)
    decreases v, 0
  {
    var ns, ms := NormalValues(ps, leq), NormalValues(qs, leq);
    SameKeys(ps, MeaningValues(ps));
    SameKeys(qs, MeaningValues(qs));
    SameKeys(ps, ns);
    SameKeys(qs, ms);
    forall key | key in ToMap(ns) ensures ToMap(ns)[key] == ToMap(ms)[key] {
      var i := Find(ns, key);
      var j := Find(ms, key);
      Lookup(MeaningValues(ps), i);
      Lookup(MeaningValues(qs), j);
      EqualMeaningsNormalize(ps[i].value, qs[j].value, leq);
    }
    assert ToMap(ns) == ToMap(ms);
    SortedAlike(ns, ms, leq);
  }

  lemma SortedAlike<T>(ps: seq<Pair<T>>, qs: seq<Pair<T>>, leq: Order)
    requires Preorder(leq) && Distinct(ps) && Distinct(qs) && ToMap(ps) == ToMap(qs) && UntiedKeys(ToMap(ps).Keys, leq)
    ensures Sort(ps, leq) == Sort(qs, leq)
  {
    SortMap(ps, leq);
    SortMap(qs, leq);
    SortOrders(ps, leq);
    SortOrders(qs, leq);
    OneOrder(Sort(ps, leq), Sort(qs, leq), leq);
  }

  // ---------------------------------------------------------------------------------------------
  // Printing a normal form as it stands
  // ---------------------------------------------------------------------------------------------

  function Flat(v: Json): string {
    match v
    case Bool(b) => Literal(b)
    case Number(text) => text
    case Text(s) => Quote(s)
    case Array(items) => "[" + Join(FlatAll(items)) + "]"
    case Object(members) => "{" + Join(PrintMembers(FlatValues(members))) + "}"
    case _ => "null"
  }

  function FlatAll(items: seq<Json>): (r: seq<string>)
    ensures |r| == |items|
  {
    if items == [] then [] else [Flat(items[0])] + FlatAll(items[1..])
  }

  function FlatValues(members: seq<Pair<Json>>): seq<Pair<string>> {
    if members == [] then [] else [Pair(members[0].key, Flat(members[0].value))] + FlatValues(members[1..])
  }

  lemma {:induction false} InsertCommutesWithFlat(p: Pair<Json>, ps: seq<Pair<Json>>, leq: Order)
    ensures FlatValues(Insert(p, ps, leq)) == Insert(Pair(p.key, Flat(p.value)), FlatValues(ps), leq)
  {
    if ps == [] || leq(p.key, ps[0].key) {
      assert ([p] + ps)[1..] == ps;
    } else {
      InsertCommutesWithFlat(p, ps[1..], leq);
      assert ([ps[0]] + Insert(p, ps[1..], leq))[1..] == Insert(p, ps[1..], leq);
    }
  }

  lemma {:induction false} SortCommutesWithFlat(ps: seq<Pair<Json>>, leq: Order)
    ensures FlatValues(Sort(ps, leq)) == Sort(FlatValues(ps), leq)
  {
    if ps != [] {
      SortCommutesWithFlat(ps[1..], leq);
      InsertCommutesWithFlat(ps[0], Sort(ps[1..], leq), leq);
    }
  }

  lemma {:induction false} PrintIsFlatNormal(v: Json, leq: Order)
    ensures Print(v, leq) == Flat(Normal(v, leq))
  {
    match v
    case Array(items) => PrintAllIsFlat(items, leq);
    case Object(members) =>
      PrintValuesIsFlat(members, leq);
      SortCommutesWithFlat(NormalValues(members, leq), leq);
    case _ =>
  }

  lemma {:induction false} PrintAllIsFlat(items: seq<Json>, leq: Order)
    ensures PrintAll(items, leq) == FlatAll(NormalAll(items, leq))
  {
    if items != [] {
      PrintIsFlatNormal(items[0], leq);
      PrintAllIsFlat(items[1..], leq);
    }
  }

  lemma {:induction false} PrintValuesIsFlat(members: seq<Pair<Json>>, leq: Order)
    ensures PrintValues(members, leq) == FlatValues(NormalValues(members, leq))
  {
    if members != [] {
      PrintIsFlatNormal(members[0].value, leq);
      PrintValuesIsFlat(members[1..], leq);
    }
  }

  // ---------------------------------------------------------------------------------------------
  // Normal forms can be read back
  // ---------------------------------------------------------------------------------------------

  predicate Plain(v: Json) {
    match v
    case Undefined => false
    case NonFinite => false
    case Number(text) => IsNumeral(text)
    case Array(items) => forall k | 0 <= k < |items| :: Plain(items[k])
    case Object(members) => forall k | 0 <= k < |members| :: Plain(members[k].value)
    case _ => true
  }

  lemma {:induction false} InsertMembers<T>(p: Pair<T>, ps: seq<Pair<T>>, leq: Order)
    ensures forall q | q in Insert(p, ps, leq) :: q == p || q in ps
  {
    if ps != [] && !leq(p.key, ps[0].key) {
      InsertMembers(p, ps[1..], leq);
    }
  }

  lemma {:induction false} SortMembers<T>(ps: seq<Pair<T>>, leq: Order)
    ensures forall q | q in Sort(ps, leq) :: q in ps
  {
    if ps != [] {
      SortMembers(ps[1..], leq);
      InsertMembers(ps[0], Sort(ps[1..], leq), leq);
    }
  }

  lemma {:induction false} NormalIsPlain(v: Json, leq: Order)
    requires WellFormed(v)
    ensures Plain(Normal(v, leq))
  {
    match v
    case Array(items) =>
      forall k | 0 <= k < |items| ensures Plain(Normal(items[k], leq)) {
        NormalIsPlain(items[k], leq);
      }
    case Object(members) =>
      var normal := NormalValues(members, leq);
      forall k | 0 <= k < |members| ensures Plain(normal[k].value) {
        NormalIsPlain(members[k].value, leq);
      }
      SortMembers(normal, leq);
      forall k | 0 <= k < |Sort(normal, leq)| ensures Plain(Sort(normal, leq)[k].value) {
        assert Sort(normal, leq)[k] in normal;
      }
    case _ =>
  }

  /** The text after a value: nothing, or something that cannot continue a numeral. */
  predicate Stop(s: string) {
    s == "" || !IsNumeralChar(s[0])
  }

  lemma Cancel(a: string, b: string, s: string, t: string)
    requires |a| == |b| && a + s == b + t
    ensures a == b && s == t
  {
    assert a == (a + s)[..|a|] && b == (b + t)[..|b|];
    assert s == (a + s)[|a|..] && t == (b + t)[|b|..];
  }

  /** The character an escaped text begins with. */
  function Unescape(x: string): int
    requires Escaped(x)
  {
    if x[0] != '\\' then x[0] as int
    else if x[1] == 'b' then 8
    else if x[1] == 't' then 9
    else if x[1] == 'n' then 10
    else if x[1] == 'f' then 12
    else if x[1] == 'r' then 13
    else if x[1] == 'u' then 16 * HexValue(x[4]) + HexValue(x[5])
    else x[1] as int
  }

  predicate Escaped(x: string) {
    x != "" && (x[0] == '\\' ==> |x| >= 2 && (x[1] == 'u' ==> |x| >= 6 && IsHexChar(x[4]) && IsHexChar(x[5])))
  }

  lemma UnescapeEscape(c: char)
    ensures Escaped(Escape(c)) && Unescape(Escape(c)) == c as int
    ensures |Escape(c)| == if Escape(c)[0] != '\\' then 1 else if Escape(c)[1] == 'u' then 6 else 2
  {
    if c as int < 32 {
      HexReadsBack(c as int / 16);
      HexReadsBack(c as int % 16);
    }
  }

  lemma UnescapeReadsPrefix(x: string, s: string)
    requires Escaped(x)
    ensures Escaped(x + s) && Unescape(x + s) == Unescape(x)
  {
  }

  lemma EscapePrefix(c: char, d: char, s: string, t: string)
    requires Escape(c) + s == Escape(d) + t
    ensures c == d && s == t
  {
    UnescapeEscape(c);
    UnescapeEscape(d);
    UnescapeReadsPrefix(Escape(c), s);
    UnescapeReadsPrefix(Escape(d), t);
    Cancel(Escape(c), Escape(d), s, t);
  }

  lemma EscapeNotQuote(c: char)
    ensures Escape(c) != "" && Escape(c)[0] != '"'
  {
  }

  /** The rest of a quoted text: its characters, the closing quote and what follows. */
  function Quoted(a: string, s: string): string {
    if a == "" then "\"" + s else Escape(a[0]) + Quoted(a[1..], s)
  }

  lemma {:induction false} EscapeAllIsQuoted(a: string, s: string)
    ensures EscapeAll(a) + "\"" + s == Quoted(a, s)
  {
    if a == "" {
      assert EscapeAll(a) + "\"" == "\"";
    } else {
      EscapeAllIsQuoted(a[1..], s);
      assert EscapeAll(a) + "\"" + s == Escape(a[0]) + (EscapeAll(a[1..]) + "\"" + s);
    }
  }

  lemma QuoteIsQuoted(a: string, s: string)
    ensures Quote(a) + s == "\"" + Quoted(a, s)
  {
    EscapeAllIsQuoted(a, s);
    assert Quote(a) + s == "\"" + (EscapeAll(a) + "\"" + s);
  }

  lemma QuotedLead(a: string, s: string)
    ensures Quoted(a, s) != "" && Quoted(a, s)[0] == if a == "" then '"' else Escape(a[0])[0]
  {
    if a != "" {
      EscapeNotQuote(a[0]);
    }
  }

  lemma {:induction false} QuotedPrefix(a: string, b: string, s: string, t: string)
    requires Quoted(a, s) == Quoted(b, t)
    ensures a == b && s == t
  {
    QuotedLead(a, s);
    QuotedLead(b, t);
    if a != "" { EscapeNotQuote(a[0]); }
    if b != "" { EscapeNotQuote(b[0]); }
    if a == "" {
      Cancel("\"", "\"", s, t);
    } else if b != "" {
      EscapePrefix(a[0], b[0], Quoted(a[1..], s), Quoted(b[1..], t));
      QuotedPrefix(a[1..], b[1..], s, t);
      assert a == [a[0]] + a[1..] && b == [b[0]] + b[1..];
    }
  }

  lemma Continues(a: string, b: string, s: string, t: string)
    requires |a| < |b| && a + s == b + t
    ensures s != "" && s[0] == b[|a|]
  {
    assert (a + s)[|a|] == (b + t)[|a|];
  }

  lemma NumeralPrefix(a: string, b: string, s: string, t: string)
    requires IsNumeral(a) && IsNumeral(b) && Stop(s) && Stop(t) && a + s == b + t
    ensures a == b && s == t
  {
    if |a| < |b| {
      Continues(a, b, s, t);
    } else if |b| < |a| {
      Continues(b, a, t, s);
    } else {
      Cancel(a, b, s, t);
    }
  }

  /** Which kind of value a text begins with. */
  function Lead(c: char): nat {
    if c == 'n' then 0
    else if c == 't' then 1
    else if c == 'f' then 2
    else if c == '"' then 3
    else if c == '[' then 4
    else if c == '{' then 5
    else if IsNumeralChar(c) then 6
    else 7
  }

  function Kind(v: Json): nat {
    match v
    case Bool(b) => if b then 1 else 2
    case Number(_) => 6
    case Text(_) => 3
    case Array(_) => 4
    case Object(_) => 5
    case _ => 0
  }

  /** The printed value followed by s, written from left to right. */
  function Out(v: Json, s: string): string {
    match v
    case Bool(b) => Literal(b) + s
    case Number(text) => text + s
    case Text(a) => "\"" + Quoted(a, s)
    case Array(items) => "[" + if items == [] then "]" + s else Out(items[0], OutItems(items[1..], s))
    case Object(members) => "{" + if members == [] then "}" + s else OutMember(members[0], OutMembers(members[1..], s))
    case _ => "null" + s
  }

  /** The items after the first, each behind its comma, then the closing bracket and s. */
  function OutItems(items: seq<Json>, s: string): string {
    if items == [] then "]" + s else "," + Out(items[0], OutItems(items[1..], s))
  }

  function OutMembers(members: seq<Pair<Json>>, s: string): string {
    if members == [] then "}" + s else "," + OutMember(members[0], OutMembers(members[1..], s))
  }

  function OutMember(m: Pair<Json>, s: string): string {
    "\"" + Quoted(m.key, ":" + Out(m.value, s))
  }

  lemma {:induction false} FlatIsOut(v: Json, s: string)
    ensures Flat(v) + s == Out(v, s)
  {
    match v
    case Text(a) => QuoteIsQuoted(a, s);
    case Array(items) =>
      Bracketed("[", Join(FlatAll(items)), "]", s);
      if items != [] {
        JoinIsOut(items, s);
      }
    case Object(members) =>
      Bracketed("{", Join(PrintMembers(FlatValues(members))), "}", s);
      if members != [] {
        JoinMembersIsOut(members, s);
      }
    case _ =>
  }

  lemma Bracketed(open: string, body: string, close: string, s: string)
    ensures open + body + close + s == open + (body + (close + s))
    ensures body == "" ==> body + (close + s) == close + s
  {
  }

  lemma {:induction false} JoinIsOut(items: seq<Json>, s: string)
    requires items != []
    ensures Join(FlatAll(items)) + ("]" + s) == Out(items[0], OutItems(items[1..], s))
  {
    var rest := items[1..];
    if rest == [] {
      FlatIsOut(items[0], "]" + s);
    } else {
      JoinIsOut(rest, s);
      FlatIsOut(items[0], OutItems(rest, s));
      JoinStep(Flat(items[0]), FlatAll(rest), "]" + s);
    }
  }

  lemma JoinStep(part: string, parts: seq<string>, s: string)
    requires parts != []
    ensures Join([part] + parts) + s == part + ("," + (Join(parts) + s))
  {
    assert ([part] + parts)[1..] == parts;
  }

  lemma {:induction false} JoinMembersIsOut(members: seq<Pair<Json>>, s: string)
    requires members != []
    ensures Join(PrintMembers(FlatValues(members))) + ("}" + s) == OutMember(members[0], OutMembers(members[1..], s))
    decreases members
  {
    var rest := members[1..];
    var part := Quote(members[0].key) + ":" + Flat(members[0].value);
    MemberIsOut(members[0], OutMembers(rest, s));
    assert FlatValues(members)[1..] == FlatValues(rest);
    assert PrintMembers(FlatValues(members)) == [part] + PrintMembers(FlatValues(rest));
    if rest != [] {
      JoinMembersIsOut(rest, s);
      JoinStep(part, PrintMembers(FlatValues(rest)), "}" + s);
    }
  }

  lemma {:induction false} MemberIsOut(m: Pair<Json>, s: string)
    ensures Quote(m.key) + ":" + Flat(m.value) + s == OutMember(m, s)
    decreases m
  {
    FlatIsOut(m.value, s);
    QuoteIsQuoted(m.key, ":" + Out(m.value, s));
    assert Quote(m.key) + ":" + Flat(m.value) + s == Quote(m.key) + (":" + (Flat(m.value) + s));
  }

  lemma OutLead(v: Json, s: string)
    requires Plain(v)
    ensures Out(v, s) != "" && Lead(Out(v, s)[0]) == Kind(v)
  {
  }

  /** A printed value delimits itself: what follows it does not change how it reads. */
  lemma {:induction false} OutPrefix(v: Json, w: Json, s: string, t: string)
    requires Plain(v) && Plain(w) && Stop(s) && Stop(t)
    requires Out(v, s) == Out(w, t)
    ensures v == w && s == t
    decreases v, 2
  {
    OutLead(v, s);
    OutLead(w, t);
    match v
    case Null => Cancel("null", "null", s, t);
    case Bool(b) => Cancel(Literal(b), Literal(b), s, t);
    case Number(text) => NumeralPrefix(text, w.text, s, t);
    case Text(a) =>
      Cancel("\"", "\"", Quoted(a, s), Quoted(w.s, t));
      QuotedPrefix(a, w.s, s, t);
    case Array(items) =>
      ArrayPrefix(v, w, s, t);
    case Object(members) =>
      ObjectPrefix(v, w, s, t);
  }

  lemma {:induction false} ArrayPrefix(v: Json, w: Json, s: string, t: string)
    requires v.Array? && w.Array? && Plain(v) && Plain(w)
    requires Out(v, s) == Out(w, t)
    ensures v == w && s == t
    decreases v, 1
  {
    var xs, ys := v.items, w.items;
    if xs != [] { OutLead(xs[0], OutItems(xs[1..], s)); }
    if ys != [] { OutLead(ys[0], OutItems(ys[1..], t)); }
    var a := if xs == [] then "]" + s else Out(xs[0], OutItems(xs[1..], s));
    var b := if ys == [] then "]" + t else Out(ys[0], OutItems(ys[1..], t));
    Cancel("[", "[", a, b);
    if xs == [] && ys == [] {
      Cancel("]", "]", s, t);
    } else if xs != [] && ys != [] {
      OutPrefix(xs[0], ys[0], OutItems(xs[1..], s), OutItems(ys[1..], t));
      ItemsPrefix(xs[1..], ys[1..], s, t);
      assert xs == [xs[0]] + xs[1..] && ys == [ys[0]] + ys[1..];
    }
  }

  lemma {:induction false} ItemsPrefix(xs: seq<Json>, ys: seq<Json>, s: string, t: string)
    requires (forall k | 0 <= k < |xs| :: Plain(xs[k])) && (forall k | 0 <= k < |ys| :: Plain(ys[k]))
    requires OutItems(xs, s) == OutItems(ys, t)
    ensures xs == ys && s == t
    decreases xs, 0
  {
    assert OutItems(xs, s)[0] == if xs == [] then ']' else ',';
    assert OutItems(ys, t)[0] == if ys == [] then ']' else ',';
    if xs == [] && ys == [] {
      Cancel("]", "]", s, t);
    } else if xs != [] && ys != [] {
      Cancel(",", ",", Out(xs[0], OutItems(xs[1..], s)), Out(ys[0], OutItems(ys[1..], t)));
      OutPrefix(xs[0], ys[0], OutItems(xs[1..], s), OutItems(ys[1..], t));
      ItemsPrefix(xs[1..], ys[1..], s, t);
      assert xs == [xs[0]] + xs[1..] && ys == [ys[0]] + ys[1..];
    }
  }

  lemma {:induction false} MemberPrefix(p: Pair<Json>, q: Pair<Json>, s: string, t: string)
    requires Plain(p.value) && Plain(q.value) && Stop(s) && Stop(t)
    requires OutMember(p, s) == OutMember(q, t)
    ensures p == q && s == t
    decreases p, 0
  {
    Cancel("\"", "\"", Quoted(p.key, ":" + Out(p.value, s)), Quoted(q.key, ":" + Out(q.value, t)));
    QuotedPrefix(p.key, q.key, ":" + Out(p.value, s), ":" + Out(q.value, t));
    Cancel(":", ":", Out(p.value, s), Out(q.value, t));
    OutPrefix(p.value, q.value, s, t);
  }

  lemma {:induction false} ObjectPrefix(v: Json, w: Json, s: string, t: string)
    requires v.Object? && w.Object? && Plain(v) && Plain(w)
    requires Out(v, s) == Out(w, t)
    ensures v == w && s == t
    decreases v, 1
  {
    var ps, qs := v.members, w.members;
    assert Out(v, s)[1] == if ps == [] then '}' else '"';
    assert Out(w, t)[1] == if qs == [] then '}' else '"';
    if ps == [] && qs == [] {
      Cancel("{", "{", "}" + s, "}" + t);
      Cancel("}", "}", s, t);
    } else if ps != [] && qs != [] {
      Cancel("{", "{", OutMember(ps[0], OutMembers(ps[1..], s)), OutMember(qs[0], OutMembers(qs[1..], t)));
      MemberPrefix(ps[0], qs[0], OutMembers(ps[1..], s), OutMembers(qs[1..], t));
      MembersPrefix(ps[1..], qs[1..], s, t);
      assert ps == [ps[0]] + ps[1..] && qs == [qs[0]] + qs[1..];
    }
  }

  lemma {:induction false} MembersPrefix(ps: seq<Pair<Json>>, qs: seq<Pair<Json>>, s: string, t: string)
    requires (forall k | 0 <= k < |ps| :: Plain(ps[k].value)) && (forall k | 0 <= k < |qs| :: Plain(qs[k].value))
    requires OutMembers(ps, s) == OutMembers(qs, t)
    ensures ps == qs && s == t
    decreases ps, 0
  {
    assert OutMembers(ps, s)[0] == if ps == [] then '}' else ',';
    assert OutMembers(qs, t)[0] == if qs == [] then '}' else ',';
    if ps == [] && qs == [] {
      Cancel("}", "}", s, t);
    } else if ps != [] && qs != [] {
      Cancel(",", ",", OutMember(ps[0], OutMembers(ps[1..], s)), OutMember(qs[0], OutMembers(qs[1..], t)));
      MemberPrefix(ps[0], qs[0], OutMembers(ps[1..], s), OutMembers(qs[1..], t));
      MembersPrefix(ps[1..], qs[1..], s, t);
      assert ps == [ps[0]] + ps[1..] && qs == [qs[0]] + qs[1..];
    }
  }

  // ---------------------------------------------------------------------------------------------
  // The fingerprint is canonical
  // ---------------------------------------------------------------------------------------------

  lemma FlatIsInjective(v: Json, w: Json)
    requires Plain(v) && Plain(w) && Flat(v) == Flat(w)
    ensures v == w
  {
    assert Flat(v) + "" == Flat(v) && Flat(w) + "" == Flat(w);
    FlatIsOut(v, "");
    FlatIsOut(w, "");
    OutPrefix(v, w, "", "");
  }

  /** Equal prints come from bodies that are equal up to the order of object members, whatever the
      comparator. */
  lemma PrintIsFaithful(v: Json, w: Json, leq: Order)
    requires WellFormed(v) && WellFormed(w) && Print(v, leq) == Print(w, leq)
    ensures Meaning(v) == Meaning(w)
  {
    PrintIsFlatNormal(v, leq);
    PrintIsFlatNormal(w, leq);
    NormalIsPlain(v, leq);
    NormalIsPlain(w, leq);
    FlatIsInjective(Normal(v, leq), Normal(w, leq));
    NormalKeepsMeaning(v, leq);
    NormalKeepsMeaning(w, leq);
  }

  lemma {:induction false} SamePrintExactlyWhenSameNormal(v: Json, w: Json, leq: Order)
    requires WellFormed(v) && WellFormed(w)
    ensures Print(v, leq) == Print(w, leq) <==> Normal(v, leq) == Normal(w, leq)
  {
    PrintIsFlatNormal(v, leq);
    PrintIsFlatNormal(w, leq);
    NormalIsPlain(v, leq);
    NormalIsPlain(w, leq);
    if Print(v, leq) == Print(w, leq) {
      FlatIsInjective(Normal(v, leq), Normal(w, leq));
    }
  }

  /** A body without tied keys prints like another exactly when the two are equal up to the order of object
      members. */
  lemma PrintIsCanonical(v: Json, w: Json, leq: Order)
    requires WellFormed(v) && WellFormed(w) && Preorder(leq) && Untied(v, leq)
    ensures Print(v, leq) == Print(w, leq) <==> Meaning(v) == Meaning(w)
  {
    if Print(v, leq) == Print(w, leq) {
      PrintIsFaithful(v, w, leq);
    }
    if Meaning(v) == Meaning(w) {
      EqualMeaningsNormalize(v, w, leq);
      SamePrintExactlyWhenSameNormal(v, w, leq);
    }
  }

  // ---------------------------------------------------------------------------------------------
  // Tied keys give a body two fingerprints
  // ---------------------------------------------------------------------------------------------

  /** w says the same as v and is normalized differently, so it prints differently. */
  ghost predicate Rival(v: Json, w: Json, leq: Order) {
    WellFormed(w) && Meaning(w) == Meaning(v) && Normal(w, leq) != Normal(v, leq)
  }

  lemma {:induction false} TiedInsertsDiffer<T>(p: Pair<T>, q: Pair<T>, ps: seq<Pair<T>>, leq: Order)
    requires Preorder(leq) && p.key != q.key && leq(p.key, q.key) && leq(q.key, p.key)
    ensures Insert(p, Insert(q, ps, leq), leq) != Insert(q, Insert(p, ps, leq), leq)
  {
    if ps == [] || leq(q.key, ps[0].key) {
      assert ps != [] ==> leq(p.key, ps[0].key);
      assert Insert(p, Insert(q, ps, leq), leq)[0] == p && Insert(q, Insert(p, ps, leq), leq)[0] == q;
    } else {
      assert !leq(p.key, ps[0].key);
      var rest := ps[1..];
      TiedInsertsDiffer(p, q, rest, leq);
      InsertBehind(p, q, ps, leq);
      InsertBehind(q, p, ps, leq);
      var x, y := Insert(p, Insert(q, rest, leq), leq), Insert(q, Insert(p, rest, leq), leq);
      assert ([ps[0]] + x)[1..] == x && ([ps[0]] + y)[1..] == y;
    }
  }

  lemma InsertBehind<T>(p: Pair<T>, q: Pair<T>, ps: seq<Pair<T>>, leq: Order)
    requires ps != [] && !leq(p.key, ps[0].key) && !leq(q.key, ps[0].key)
    ensures Insert(p, Insert(q, ps, leq), leq) == [ps[0]] + Insert(p, Insert(q, ps[1..], leq), leq)
  {
    assert ([ps[0]] + Insert(q, ps[1..], leq))[1..] == Insert(q, ps[1..], leq);
  }

  function Without<T>(ps: seq<Pair<T>>, key: string): seq<Pair<T>> {
    if ps == [] then [] else if ps[0].key == key then Without(ps[1..], key) else [ps[0]] + Without(ps[1..], key)
  }

  lemma {:induction false} WithoutMap<T>(ps: seq<Pair<T>>, key: string)
    requires Distinct(ps)
    ensures Distinct(Without(ps, key)) && ToMap(Without(ps, key)) == ToMap(ps) - {key}
    ensures forall q | q in Without(ps, key) :: q in ps
  {
    if ps != [] {
      WithoutMap(ps[1..], key);
    }
  }

  /** The members with those at a and b moved to the front. */
  function Leading<T>(ps: seq<Pair<T>>, p: Pair<T>, q: Pair<T>): seq<Pair<T>> {
    [p] + ([q] + Without(Without(ps, p.key), q.key))
  }

  lemma InFront<T>(p: Pair<T>, ps: seq<Pair<T>>)
    requires Distinct(ps) && p.key !in ToMap(ps)
    ensures Distinct([p] + ps) && ToMap([p] + ps) == ToMap(ps)[p.key := p.value]
  {
    assert ([p] + ps)[1..] == ps;
  }

  lemma PutBack<T>(m: map<string, T>, a: string, b: string)
    requires a in m && b in m && a != b
    ensures (m - {a} - {b})[b := m[b]][a := m[a]] == m
  {
  }

  lemma LeadingMap<T>(ps: seq<Pair<T>>, p: Pair<T>, q: Pair<T>)
    requires Distinct(ps) && p.key != q.key && p.key in ToMap(ps) && q.key in ToMap(ps)
    requires ToMap(ps)[p.key] == p.value && ToMap(ps)[q.key] == q.value
    ensures Distinct(Leading(ps, p, q)) && ToMap(Leading(ps, p, q)) == ToMap(ps)
  {
    var rest := Without(Without(ps, p.key), q.key);
    WithoutMap(ps, p.key);
    WithoutMap(Without(ps, p.key), q.key);
    InFront(q, rest);
    InFront(p, [q] + rest);
    PutBack(ToMap(ps), p.key, q.key);
  }

  lemma LeadingMembers<T>(ps: seq<Pair<T>>, p: Pair<T>, q: Pair<T>)
    requires Distinct(ps) && p in ps && q in ps
    ensures forall r | r in Leading(ps, p, q) :: r in ps
  {
    WithoutMap(ps, p.key);
    WithoutMap(Without(ps, p.key), q.key);
  }

  lemma SameMapSameMeaning(ps: seq<Pair<Json>>, qs: seq<Pair<Json>>)
    requires Distinct(ps) && Distinct(qs) && ToMap(ps) == ToMap(qs)
    ensures Meaning(Object(ps)) == Meaning(Object(qs))
  {
    var ms, ns := MeaningValues(ps), MeaningValues(qs);
    SameKeys(ps, ms);
    SameKeys(qs, ns);
    forall key | key in ToMap(ms) ensures ToMap(ms)[key] == ToMap(ns)[key] {
      var i := Find(ps, key);
      var j := Find(qs, key);
      Lookup(ms, i);
      Lookup(ns, j);
    }
    assert ToMap(ms) == ToMap(ns);
  }

  lemma MembersWellFormed(ps: seq<Pair<Json>>, qs: seq<Pair<Json>>)
    requires WellFormed(Object(ps)) && Distinct(qs) && forall q | q in qs :: q in ps
    ensures WellFormed(Object(qs))
  {
    forall k | 0 <= k < |qs| ensures WellFormed(qs[k].value) {
      assert qs[k] in ps;
      var j :| 0 <= j < |ps| && ps[j] == qs[k];
    }
  }

  /** Moved to the front in either order, two tied members stay in that order. */
  lemma TiedLeadingDiffer(ps: seq<Pair<Json>>, p: Pair<Json>, q: Pair<Json>, leq: Order)
    requires Preorder(leq) && p.key != q.key && leq(p.key, q.key) && leq(q.key, p.key)
    requires Without(Without(ps, p.key), q.key) == Without(Without(ps, q.key), p.key)
    ensures Normal(Object(Leading(ps, p, q)), leq) != Normal(Object(Leading(ps, q, p)), leq)
  {
    var rest := Without(Without(ps, p.key), q.key);
    var np, nq := Pair(p.key, Normal(p.value, leq)), Pair(q.key, Normal(q.value, leq));
    var ns := NormalValues(rest, leq);
    assert NormalValues(Leading(ps, p, q), leq) == [np] + ([nq] + ns);
    assert NormalValues(Leading(ps, q, p), leq) == [nq] + ([np] + ns);
    SortTwo(np, nq, ns, leq);
    SortTwo(nq, np, ns, leq);
    TiedInsertsDiffer(np, nq, Sort(ns, leq), leq);
  }

  lemma SortTwo<T>(p: Pair<T>, q: Pair<T>, ps: seq<Pair<T>>, leq: Order)
    ensures Sort([p] + ([q] + ps), leq) == Insert(p, Insert(q, Sort(ps, leq), leq), leq)
  {
    assert ([p] + ([q] + ps))[1..] == [q] + ps && ([q] + ps)[1..] == ps;
  }

  lemma {:induction false} WithoutCommutes<T>(ps: seq<Pair<T>>, a: string, b: string)
    ensures Without(Without(ps, a), b) == Without(Without(ps, b), a)
  {
    if ps != [] {
      WithoutCommutes(ps[1..], a, b);
      var rest := Without(ps[1..], a);
      var tser := Without(ps[1..], b);
      assert ([ps[0]] + rest)[1..] == rest && ([ps[0]] + tser)[1..] == tser;
    }
  }

  lemma TiedMembersRival(v: Json, a: string, b: string, leq: Order) returns (w: Json)
    requires WellFormed(v) && v.Object? && Preorder(leq)
    requires a in ToMap(v.members) && b in ToMap(v.members) && a != b && leq(a, b) && leq(b, a)
    ensures Rival(v, w, leq)
  {
    var ps := v.members;
    var i := Find(ps, a);
    var j := Find(ps, b);
    var p, q := ps[i], ps[j];
    LeadingMap(ps, p, q);
    LeadingMap(ps, q, p);
    LeadingMembers(ps, p, q);
    LeadingMembers(ps, q, p);
    SameMapSameMeaning(ps, Leading(ps, p, q));
    SameMapSameMeaning(ps, Leading(ps, q, p));
    MembersWellFormed(ps, Leading(ps, p, q));
    MembersWellFormed(ps, Leading(ps, q, p));
    WithoutCommutes(ps, a, b);
    TiedLeadingDiffer(ps, p, q, leq);
    w := Object(Leading(ps, p, q));
    if Normal(w, leq) == Normal(v, leq) {
      w := Object(Leading(ps, q, p));
    }
  }

  lemma ItemRival(v: Json, k: nat, item: Json, leq: Order)
    requires WellFormed(v) && v.Array? && k < |v.items| && Rival(v.items[k], item, leq)
    ensures Rival(v, Array(v.items[k := item]), leq)
  {
    var items := v.items[k := item];
    ItemSays(v, k, item);
    assert NormalAll(items, leq)[k] != NormalAll(v.items, leq)[k];
  }

  lemma ItemSays(v: Json, k: nat, item: Json)
    requires WellFormed(v) && v.Array? && k < |v.items| && WellFormed(item) && Meaning(item) == Meaning(v.items[k])
    ensures WellFormed(Array(v.items[k := item])) && Meaning(Array(v.items[k := item])) == Meaning(v)
  {
    assert MeaningAll(v.items[k := item]) == MeaningAll(v.items);
  }

  lemma SortKeepsDifference<T>(ps: seq<Pair<T>>, qs: seq<Pair<T>>, k: nat, leq: Order)
    requires Distinct(ps) && Distinct(qs) && k < |ps| && k < |qs|
    requires ps[k].key == qs[k].key && ps[k].value != qs[k].value
    ensures Sort(ps, leq) != Sort(qs, leq)
  {
    Lookup(ps, k);
    Lookup(qs, k);
    SortMap(ps, leq);
    SortMap(qs, leq);
  }

  lemma MemberSays(v: Json, k: nat, value: Json)
    requires WellFormed(v) && v.Object? && k < |v.members|
    requires WellFormed(value) && Meaning(value) == Meaning(v.members[k].value)
    ensures var w := Object(v.members[k := Pair(v.members[k].key, value)]);
      WellFormed(w) && Meaning(w) == Meaning(v)
  {
    var qs := v.members[k := Pair(v.members[k].key, value)];
    SameKeys(v.members, qs);
    assert MeaningValues(qs) == MeaningValues(v.members);
  }

  lemma MemberRival(v: Json, k: nat, value: Json, leq: Order)
    requires WellFormed(v) && v.Object? && k < |v.members| && Rival(v.members[k].value, value, leq)
    ensures Rival(v, Object(v.members[k := Pair(v.members[k].key, value)]), leq)
  {
    var qs := v.members[k := Pair(v.members[k].key, value)];
    MemberSays(v, k, value);
    SameKeys(v.members, NormalValues(v.members, leq));
    SameKeys(qs, NormalValues(qs, leq));
    SortKeepsDifference(NormalValues(v.members, leq), NormalValues(qs, leq), k, leq);
  }

  lemma {:induction false} TiedHasRival(v: Json, leq: Order) returns (w: Json)
    requires WellFormed(v) && Preorder(leq) && !Untied(v, leq)
    ensures Rival(v, w, leq)
  {
    if v.Array? {
      var k: nat :| k < |v.items| && !Untied(v.items[k], leq);
      var item := TiedHasRival(v.items[k], leq);
      w := Array(v.items[k := item]);
      ItemRival(v, k, item, leq);
    } else if !UntiedKeys(ToMap(v.members).Keys, leq) {
      var a, b :| a in ToMap(v.members) && b in ToMap(v.members) && leq(a, b) && leq(b, a) && a != b;
      w := TiedMembersRival(v, a, b, leq);
    } else {
      var k: nat :| k < |v.members| && !Untied(v.members[k].value, leq);
      var value := TiedHasRival(v.members[k].value, leq);
      w := Object(v.members[k := Pair(v.members[k].key, value)]);
      MemberRival(v, k, value, leq);
    }
  }

  /** Every body that says the same prints the same. */
  ghost predicate OneFingerprint(v: Json, leq: Order) {
    forall w | WellFormed(w) && Meaning(w) == Meaning(v) :: Print(w, leq) == Print(v, leq)
  }

  /** A body has one fingerprint, whatever the order of its object members, exactly when no object inside it
      has two keys the comparator cannot tell apart. */
  lemma OneFingerprintExactlyWhenUntied(v: Json, leq: Order)
    requires WellFormed(v) && Preorder(leq)
    ensures OneFingerprint(v, leq) <==> Untied(v, leq)
  {
    if Untied(v, leq) {
      forall w | WellFormed(w) && Meaning(w) == Meaning(v) ensures Print(w, leq) == Print(v, leq) {
        PrintIsCanonical(v, w, leq);
      }
    } else {
      var w := TiedHasRival(v, leq);
      SamePrintExactlyWhenSameNormal(v, w, leq);
    }
  }

  // ---------------------------------------------------------------------------------------------
  // All bodies
  // ---------------------------------------------------------------------------------------------

  ghost predicate IsCanonical(leq: Order) {
    forall v | WellFormed(v) :: OneFingerprint(v, leq)
  }

  /** One body with two keys, and the same body with its members in the other order. */
  function TwoKeys(a: string, b: string): (Json, Json) {
    (Object([Pair(a, Null), Pair(b, Bool(true))]), Object([Pair(b, Bool(true)), Pair(a, Null)]))
  }

  lemma TwoEntries<T>(p: Pair<T>, q: Pair<T>)
    requires p.key != q.key
    ensures ToMap([p, q]) == map[p.key := p.value, q.key := q.value] && Distinct([p, q])
  {
    assert [p, q][1..] == [q] && [q][1..] == [];
    assert ToMap([q]) == map[q.key := q.value];
  }

  lemma TiedNormal(p: Pair<Json>, q: Pair<Json>, leq: Order)
    requires leq(p.key, q.key) && Normal(p.value, leq) == p.value && Normal(q.value, leq) == q.value
    ensures Normal(Object([p, q]), leq) == Object([p, q])
  {
    assert [p, q][1..] == [q] && [q][1..] == [];
    assert NormalValues([p, q], leq) == [p, q];
    assert Sort([q], leq) == [q];
    assert Sort([p, q], leq) == Insert(p, [q], leq);
  }

  /** Two keys the comparator ties, at their simplest. */
  lemma TiedKeysPrintTwice(a: string, b: string, leq: Order)
    requires a != b && leq(a, b) && leq(b, a)
    ensures var (v, w) := TwoKeys(a, b);
      WellFormed(v) && WellFormed(w) && Meaning(v) == Meaning(w) && Print(v, leq) != Print(w, leq)
  {
    var (v, w) := TwoKeys(a, b);
    var p, q := Pair(a, Null), Pair(b, Bool(true));
    TwoEntries(p, q);
    TwoEntries(q, p);
    SameMapSameMeaning(v.members, w.members);
    TiedNormal(p, q, leq);
    TiedNormal(q, p, leq);
    assert v.members[0] != w.members[0];
    SamePrintExactlyWhenSameNormal(v, w, leq);
  }

  lemma {:induction false} AntisymmetricUnties(v: Json, leq: Order)
    requires Antisymmetric(leq)
    ensures Untied(v, leq)
  {
    match v
    case Array(items) =>
      forall k | 0 <= k < |items| ensures Untied(items[k], leq) {
        AntisymmetricUnties(items[k], leq);
      }
    case Object(members) =>
      forall k | 0 <= k < |members| ensures Untied(members[k].value, leq) {
        AntisymmetricUnties(members[k].value, leq);
      }
    case _ =>
  }

  /** Every body has one fingerprint exactly when the comparator never calls two different keys equal. */
  lemma CanonicalExactlyWhenAntisymmetric(leq: Order)
    requires Preorder(leq)
    ensures IsCanonical(leq) <==> Antisymmetric(leq)
  {
    if Antisymmetric(leq) {
      forall v | WellFormed(v) ensures OneFingerprint(v, leq) {
        AntisymmetricUnties(v, leq);
        OneFingerprintExactlyWhenUntied(v, leq);
      }
    } else {
      var a, b :| leq(a, b) && leq(b, a) && a != b;
      TiedKeysPrintTwice(a, b, leq);
    }
  }

  // ---------------------------------------------------------------------------------------------
  // The text
  // ---------------------------------------------------------------------------------------------

  /** How a character stands in a quoted text: as itself, or for the quote, the backslash and the control
      characters by their escapes. */
  lemma EscapeIs(c: char)
    ensures c !in "\"\\" && c as int >= 32 ==> Escape(c) == [c]
    ensures Escape('"') == "\\\"" && Escape('\\') == "\\\\" && Escape('\n') == "\\n" && Escape('\r') == "\\r"
    ensures Escape('\t') == "\\t" && Escape(8 as char) == "\\b" && Escape(12 as char) == "\\f"
    ensures Escape(0 as char) == "\\u0000" && Escape(11 as char) == "\\u000b" && Escape(31 as char) == "\\u001f"
  {
  }

  lemma NumeralsAre(c: char)
    ensures IsNumeralChar(c) <==> c in "0123456789+-.e"
  {
  }

  lemma QuoteCons(c: char, s: string)
    ensures Quote("") == "\"\"" && Quote([c] + s) == "\"" + (Escape(c) + EscapeAll(s)) + "\""
  {
    assert ([c] + s)[1..] == s;
  }

  lemma ScalarsPrint(b: bool, text: string, leq: Order)
    ensures forall v | v in {Null, Undefined, NonFinite} :: Print(v, leq) == "null"
    ensures Print(Bool(b), leq) == (if b then "true" else "false") && Print(Number(text), leq) == text
    ensures Print(Text(text), leq) == "\"" + EscapeAll(text) + "\""
  {
  }

  lemma JoinTwo(a: string, b: string)
    ensures Join([]) == "" && Join([a]) == a && Join([a, b]) == a + "," + b
  {
    assert [a, b][1..] == [b];
  }

  lemma PrintAllOfTwo(x: Json, y: Json, leq: Order)
    ensures PrintAll([], leq) == [] && PrintAll([x], leq) == [Print(x, leq)]
    ensures PrintAll([x, y], leq) == [Print(x, leq), Print(y, leq)]
  {
    assert [x, y][1..] == [y] && [x][1..] == [];
    assert PrintAll([y], leq) == [Print(y, leq)];
  }

  lemma ItemsPrint(items: seq<Json>, leq: Order)
    ensures items == [] ==> Print(Array(items), leq) == "[]"
    ensures |items| == 1 ==> Print(Array(items), leq) == "[" + Print(items[0], leq) + "]"
    ensures |items| == 2 ==>
      Print(Array(items), leq) == "[" + (Print(items[0], leq) + "," + Print(items[1], leq)) + "]"
  {
    if |items| == 1 {
      assert items == [items[0]];
      PrintAllOfTwo(items[0], items[0], leq);
      JoinTwo(Print(items[0], leq), "");
    } else if |items| == 2 {
      assert items == [items[0], items[1]];
      PrintAllOfTwo(items[0], items[1], leq);
      JoinTwo(Print(items[0], leq), Print(items[1], leq));
    }
  }

  lemma SortPair(p: Pair<string>, q: Pair<string>, leq: Order)
    ensures Sort([p, q], leq) == if leq(p.key, q.key) then [p, q] else [q, p]
  {
    assert [p, q][1..] == [q] && [q][1..] == [];
    assert Sort([q], leq) == Insert(q, Sort([], leq), leq) == [q];
    assert Sort([p, q], leq) == Insert(p, [q], leq);
    assert Insert(p, [], leq) == [p];
  }

  lemma ValuesOfTwo(a: Pair<Json>, b: Pair<Json>, leq: Order)
    ensures PrintValues([a, b], leq) == [Pair(a.key, Print(a.value, leq)), Pair(b.key, Print(b.value, leq))]
  {
    assert [a, b][1..] == [b] && [b][1..] == [];
    assert PrintValues([b], leq) == [Pair(b.key, Print(b.value, leq))];
  }

  lemma MembersOfTwo(p: Pair<string>, q: Pair<string>)
    ensures PrintMembers([p, q]) == [Quote(p.key) + ":" + p.value, Quote(q.key) + ":" + q.value]
  {
    assert [p, q][1..] == [q] && [q][1..] == [];
    assert PrintMembers([q]) == [Quote(q.key) + ":" + q.value];
  }

  /** Members stand in the order of their keys, whatever order the body has them in. */
  lemma MembersPrint(k: string, x: Json, l: string, y: Json, leq: Order)
    requires leq(k, l) && !leq(l, k)
    ensures var text := "{" + (Quote(k) + ":" + Print(x, leq) + "," + (Quote(l) + ":" + Print(y, leq))) + "}";
      Print(Object([Pair(k, x), Pair(l, y)]), leq) == text && Print(Object([Pair(l, y), Pair(k, x)]), leq) == text
  {
    var p, q := Pair(k, Print(x, leq)), Pair(l, Print(y, leq));
    ValuesOfTwo(Pair(k, x), Pair(l, y), leq);
    ValuesOfTwo(Pair(l, y), Pair(k, x), leq);
    SortPair(p, q, leq);
    SortPair(q, p, leq);
    MembersOfTwo(p, q);
    JoinTwo(Quote(k) + ":" + p.value, Quote(l) + ":" + q.value);
  }
}
