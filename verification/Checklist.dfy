/** A task's checklist as the JSON column holds it, and the consumption plan drawn from it. */
module Checklist {

  /** A JavaScript value, as far as the checklist code inspects it. */
  datatype Value = Undefined | Null | Bool(b: bool) | Num(n: real) | Str(s: string) | Object
  {
    predicate Truthy() {
      match this
      case Undefined => false
      case Null => false
      case Bool(b) => b
      case Num(n) => n != 0.0
      case Str(s) => s != ""
      case Object => true
    }
  }

  datatype Entry =
    | Nothing    // null
    | Primitive  // a string, number or boolean in place of an entry
    | Line(done: Value, sku: Value, qty: Value, priceCode: Value)

  /** Absent is SQL null, Text a JSON string, whose characters a loop visits without finding a line, and
      NotIterable any other JSON value that is not an array. */
  datatype Checklist = Absent | Text | NotIterable | Entries(entries: seq<Entry>)
  {
    function List(): seq<Entry> {
      if Entries? then entries else []
    }
  }

  /** Whether the entry takes stock: ticked, with a non-empty SKU. */
  predicate Consumes(e: Entry) {
    e.Line? && e.done == Bool(true) && e.sku.Str? && e.sku.s != ""
  }

  /** A missing, fractional or non-positive quantity counts as one. */
  function Quantity(e: Entry): (q: nat)
    requires e.Line?
    ensures q > 0
  {
    if e.qty.Num? && e.qty.n == e.qty.n.Floor as real && e.qty.n > 0.0 then e.qty.n.Floor else 1
  }

  predicate ConsumesSku(e: Entry, sku: string) {
    Consumes(e) && e.sku.s == sku
  }

  /** What a checklist takes of one SKU: the sum over its ticked lines. */
  function Total(entries: seq<Entry>, sku: string): nat {
    if entries == [] then 0
    else Total(entries[..|entries| - 1], sku) + Share(entries[|entries| - 1], sku)
  }

  function Share(e: Entry, sku: string): nat {
    if ConsumesSku(e, sku) then Quantity(e) else 0
  }

  lemma {:induction false} TotalIsPositiveExactlyWhenTicked(entries: seq<Entry>, sku: string)
    ensures Total(entries, sku) > 0 <==> exists e :: e in entries && ConsumesSku(e, sku)
  {
    if entries != [] {
      var front, last := entries[..|entries| - 1], entries[|entries| - 1];
      TotalIsPositiveExactlyWhenTicked(front, sku);
      assert entries == front + [last];
    }
  }

  lemma {:induction false} TotalOfConcat(xs: seq<Entry>, ys: seq<Entry>, sku: string)
    ensures Total(xs + ys, sku) == Total(xs, sku) + Total(ys, sku)
  {
    if ys == [] {
      assert xs + ys == xs;
    } else {
      var front := ys[..|ys| - 1];
      TotalOfConcat(xs, front, sku);
      assert (xs + ys)[..|xs + ys| - 1] == xs + front;
    }
  }

  lemma TakeOut(ys: seq<Entry>, i: nat)
    requires i < |ys|
    ensures multiset(ys) == multiset(ys[..i] + ys[i + 1..]) + multiset{ys[i]}
  {
    assert ys == ys[..i] + [ys[i]] + ys[i + 1..];
  }

  /** The last line of xs, found in ys. */
  lemma FindLast(xs: seq<Entry>, ys: seq<Entry>) returns (i: nat)
    requires multiset(xs) == multiset(ys) && xs != []
    ensures i < |ys| && ys[i] == xs[|xs| - 1]
    ensures multiset(xs[..|xs| - 1]) == multiset(ys[..i] + ys[i + 1..])
  {
    var front, last := xs[..|xs| - 1], xs[|xs| - 1];
    assert xs == front + [last];
    assert multiset(xs) == multiset(front) + multiset{last};
    assert last in multiset(ys);
    i :| 0 <= i < |ys| && ys[i] == last;
    TakeOut(ys, i);
    assert multiset(front) == multiset(xs) - multiset{last};
    assert multiset(ys[..i] + ys[i + 1..]) == multiset(ys) - multiset{last};
  }

  lemma TotalWithout(ys: seq<Entry>, i: nat, sku: string)
    requires i < |ys|
    ensures Total(ys, sku) == Total(ys[..i] + ys[i + 1..], sku) + Share(ys[i], sku)
  {
    assert ys == ys[..i] + [ys[i]] + ys[i + 1..];
    TotalOfConcat(ys[..i] + [ys[i]], ys[i + 1..], sku);
    TotalOfConcat(ys[..i], [ys[i]], sku);
    TotalOfConcat(ys[..i], ys[i + 1..], sku);
    assert Total([ys[i]], sku) == Share(ys[i], sku);
  }

  /** The plan does not depend on the order of the lines. */
  lemma {:induction false} TotalIgnoresOrder(xs: seq<Entry>, ys: seq<Entry>, sku: string)
    requires multiset(xs) == multiset(ys)
    ensures Total(xs, sku) == Total(ys, sku)
    decreases |xs|
  {
    if xs == [] {
      assert |multiset(ys)| == 0;
    } else {
      var i := FindLast(xs, ys);
      TotalIgnoresOrder(xs[..|xs| - 1], ys[..i] + ys[i + 1..], sku);
      TotalWithout(ys, i, sku);
    }
  }

  /** Splitting a ticked line into several of the same SKU and the same sum changes nothing. */
  lemma TotalIgnoresSplits(before: seq<Entry>, whole: Entry, parts: seq<Entry>, after: seq<Entry>, sku: string)
    requires Consumes(whole) && forall p | p in parts :: ConsumesSku(p, whole.sku.s)
    requires Total(parts, whole.sku.s) == Quantity(whole)
    ensures Total(before + [whole] + after, sku) == Total(before + parts + after, sku)
  {
    TotalOfConcat(before + [whole], after, sku);
    TotalOfConcat(before, [whole], sku);
    TotalOfConcat(before + parts, after, sku);
    TotalOfConcat(before, parts, sku);
    assert Total([whole], sku) == Share(whole, sku);
    if sku != whole.sku.s && Total(parts, sku) > 0 {
      TotalIsPositiveExactlyWhenTicked(parts, sku);
      assert false;
    }
  }

  // ---------------------------------------------------------------------------------------------
  // What a line takes, in terms of its fields alone
  // ---------------------------------------------------------------------------------------------

  predicate Ticks(e: Entry, sku: string) {
    e.Line? && e.done == Bool(true) && e.sku == Str(sku) && sku != ""
  }

  predicate IsWhole(v: Value, n: nat) {
    n > 0 && v == Num(n as real)
  }

  /** A ticked line of the SKU takes its quantity when that is a positive whole number, and one otherwise; any
      other line takes nothing. */
  ghost predicate Takes(e: Entry, sku: string, n: nat) {
    if !Ticks(e, sku) then n == 0
    else IsWhole(e.qty, n) || (n == 1 && forall k: nat :: !IsWhole(e.qty, k))
  }

  lemma TakesItsShare(e: Entry, sku: string, n: nat)
    ensures Takes(e, sku, n) <==> Share(e, sku) == n
  {
    if Ticks(e, sku) && e.qty.Num? {
      var k := e.qty.n.Floor;
      assert e.qty.n == k as real && k > 0 ==> IsWhole(e.qty, k);
    }
  }

  /** One line's total is what it takes. */
  lemma LineTotal(e: Entry, sku: string, n: nat)
    ensures Total([e], sku) == n <==> Takes(e, sku, n)
  {
    TakesItsShare(e, sku, n);
    assert [e][..0] == [];
  }

  function Sum(amounts: seq<nat>): nat {
    if amounts == [] then 0 else Sum(amounts[..|amounts| - 1]) + amounts[|amounts| - 1]
  }

  /** What each line takes of the SKU. */
  ghost predicate Amounts(entries: seq<Entry>, sku: string, amounts: seq<nat>) {
    |amounts| == |entries| && forall k | 0 <= k < |entries| :: Takes(entries[k], sku, amounts[k])
  }

  lemma {:induction false} AmountsExist(entries: seq<Entry>, sku: string) returns (amounts: seq<nat>)
    ensures Amounts(entries, sku, amounts)
  {
    if entries == [] {
      amounts := [];
    } else {
      var last := entries[|entries| - 1];
      amounts := AmountsExist(entries[..|entries| - 1], sku);
      TakesItsShare(last, sku, Share(last, sku));
      amounts := amounts + [Share(last, sku)];
    }
  }

  /** A checklist's total of a SKU is the sum of what its lines take. */
  lemma {:induction false} TotalIsSum(entries: seq<Entry>, sku: string, amounts: seq<nat>)
    requires Amounts(entries, sku, amounts)
    ensures Total(entries, sku) == Sum(amounts)
  {
    if entries != [] {
      var n := |entries| - 1;
      TotalIsSum(entries[..n], sku, amounts[..n]);
      TakesItsShare(entries[n], sku, amounts[n]);
    }
  }

  /** plan maps each consumed SKU to its total, and order lists those SKUs once each. */
  ghost predicate IsPlan(entries: seq<Entry>, order: seq<string>, plan: map<string, nat>) {
    && (forall sku :: sku in plan <==> Total(entries, sku) > 0)
    && (forall sku | sku in plan :: plan[sku] == Total(entries, sku))
    && (forall sku :: sku in order <==> sku in plan)
    && (forall i, j | 0 <= i < j < |order| :: order[i] != order[j])
    && (forall i, j | 0 <= i < j < |order| :: ComesFirst(entries, order[i], order[j]))
  }

  /** Some ticked line of the first SKU stands before every ticked line of the second. */
  ghost predicate ComesFirst(entries: seq<Entry>, first: string, second: string) {
    exists p | 0 <= p < |entries| :: Ticks(entries[p], first) && forall q | 0 <= q <= p :: !Ticks(entries[q], second)
  }

  lemma StillFirst(entries: seq<Entry>, i: nat, first: string, second: string)
    requires i < |entries| && ComesFirst(entries[..i], first, second)
    ensures ComesFirst(entries[..i + 1], first, second)
  {
    var front, next := entries[..i], entries[..i + 1];
    var p :| 0 <= p < |front| && Ticks(front[p], first) && forall q | 0 <= q <= p :: !Ticks(front[q], second);
    assert next[p] == front[p] && forall q | 0 <= q <= p :: next[q] == front[q];
  }

  lemma TotalNext(entries: seq<Entry>, i: nat, sku: string)
    requires i < |entries|
    ensures Total(entries[..i + 1], sku) == Total(entries[..i], sku) + Share(entries[i], sku)
  {
    assert entries[..i + 1][..i] == entries[..i];
  }

  /** The loop's update of the map. */
  lemma PlanNextTotals(entries: seq<Entry>, plan: map<string, nat>, i: nat, sku: string, qty: nat)
    requires i < |entries| && Ticks(entries[i], sku) && qty == Quantity(entries[i])
    requires forall k :: k in plan <==> Total(entries[..i], k) > 0
    requires forall k | k in plan :: plan[k] == Total(entries[..i], k)
    ensures var next := plan[sku := (if sku in plan then plan[sku] else 0) + qty];
      && (forall k :: k in next <==> Total(entries[..i + 1], k) > 0)
      && (forall k | k in next :: next[k] == Total(entries[..i + 1], k))
  {
    var next := plan[sku := (if sku in plan then plan[sku] else 0) + qty];
    forall k: string
      ensures (k in next <==> Total(entries[..i + 1], k) > 0) && (k in next ==> next[k] == Total(entries[..i + 1], k))
    {
      TotalNext(entries, i, k);
    }
  }

  lemma PlanNext(entries: seq<Entry>, order: seq<string>, plan: map<string, nat>, i: nat, sku: string, qty: nat)
    requires i < |entries| && IsPlan(entries[..i], order, plan)
    requires Ticks(entries[i], sku) && qty == Quantity(entries[i])
    ensures IsPlan(entries[..i + 1], if sku in plan then order else order + [sku],
                   plan[sku := (if sku in plan then plan[sku] else 0) + qty])
  {
    PlanNextTotals(entries, plan, i, sku, qty);
    forall a, b | 0 <= a < b < |order| ensures ComesFirst(entries[..i + 1], order[a], order[b]) {
      StillFirst(entries, i, order[a], order[b]);
    }
    if sku !in plan {
      forall a | 0 <= a < |order| ensures ComesFirst(entries[..i + 1], order[a], sku) {
        assert order[a] in order;
        NewSkuComesLast(entries[..i], order[a], sku);
        StillFirst(entries, i, order[a], sku);
      }
    }
  }

  lemma PlanSame(entries: seq<Entry>, order: seq<string>, plan: map<string, nat>, i: nat)
    requires i < |entries| && IsPlan(entries[..i], order, plan) && forall sku :: !Ticks(entries[i], sku)
    ensures IsPlan(entries[..i + 1], order, plan)
  {
    forall sku ensures Total(entries[..i + 1], sku) == Total(entries[..i], sku) {
      TotalNext(entries, i, sku);
      assert !Ticks(entries[i], sku);
    }
    forall a, b | 0 <= a < b < |order| ensures ComesFirst(entries[..i + 1], order[a], order[b]) {
      StillFirst(entries, i, order[a], order[b]);
    }
  }

  lemma NewSkuComesLast(entries: seq<Entry>, first: string, sku: string)
    requires Total(entries, first) > 0 && Total(entries, sku) == 0
    ensures ComesFirst(entries, first, sku)
  {
    TotalIsPositiveExactlyWhenTicked(entries, first);
    TotalIsPositiveExactlyWhenTicked(entries, sku);
    var e :| e in entries && ConsumesSku(e, first);
    var p :| 0 <= p < |entries| && entries[p] == e;
    forall q | 0 <= q <= p ensures !Ticks(entries[q], sku) {
      assert entries[q] in entries;
    }
  }

  lemma PlanSumsAmounts(entries: seq<Entry>, order: seq<string>, plan: map<string, nat>)
    ensures IsPlan(entries, order, plan) ==>
        forall sku, amounts | Amounts(entries, sku, amounts) ::
          (sku in plan <==> Sum(amounts) > 0) && (sku in plan ==> plan[sku] == Sum(amounts))
  {
    forall sku, amounts | IsPlan(entries, order, plan) && Amounts(entries, sku, amounts)
      ensures (sku in plan <==> Sum(amounts) > 0) && (sku in plan ==> plan[sku] == Sum(amounts))
    {
      TotalIsSum(entries, sku, amounts);
    }
  }

  /** The loop over the entries. */
  method PlanEntries(entries: seq<Entry>) returns (order: seq<string>, plan: map<string, nat>)
    ensures IsPlan(entries, order, plan)
  {
    order, plan := [], map[];
    for i := 0 to |entries|
      invariant IsPlan(entries[..i], order, plan)
    {
      var raw := entries[i];
      if !raw.Line? || raw.done != Bool(true) || !raw.sku.Str? || raw.sku.s == "" {
        PlanSame(entries, order, plan, i);
        continue;
      }
      var sku := raw.sku.s;
      var qty := if raw.qty.Num? && raw.qty.n == raw.qty.n.Floor as real && raw.qty.n > 0.0 then raw.qty.n.Floor else 1;
      PlanNext(entries, order, plan, i, sku, qty);
      order, plan := if sku in plan then order else order + [sku],
                     plan[sku := (if sku in plan then plan[sku] else 0) + qty];
    }
    assert entries[..|entries|] == entries;
  }

  method ConsumptionPlan(checklist: Checklist) returns (order: seq<string>, plan: map<string, nat>)
    ensures IsPlan(checklist.List(), order, plan)
    // in terms of the lines' fields alone
    ensures forall sku, amounts | Amounts(checklist.List(), sku, amounts) ::
        (sku in plan <==> Sum(amounts) > 0) && (sku in plan ==> plan[sku] == Sum(amounts))
  {
    order, plan := [], map[];
    if checklist.Entries? {
      order, plan := PlanEntries(checklist.entries);
    }
    PlanSumsAmounts(checklist.List(), order, plan);
  }
}
