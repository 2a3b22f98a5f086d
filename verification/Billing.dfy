/** What a closed task bills: the invoice's lines, and the estimate other screens show for it. */
module Billing {
  import opened Prelude
  import opened Checklist

  type TaskId = nat

  /** Active price list, in hundredths. */
  type Prices = map<string, int>

  datatype LineItem = LineItem(task: TaskId, code: string, amount: int)

  datatype ClosedTask = ClosedTask(id: TaskId, checklist: Checklist)

  // ---------------------------------------------------------------------------------------------
  // Invoice lines
  // ---------------------------------------------------------------------------------------------

  /** Ticked loosely, with a truthy code that the price list knows. */
  predicate Billable(e: Entry, prices: Prices) {
    e.Line? && e.done.Truthy() && e.priceCode.Str? && e.priceCode.s != "" && e.priceCode.s in prices
  }

  /** Reading a property of null throws, and so does iterating over a number, a boolean or an object. */
  predicate Readable(c: Checklist) {
    !c.NotIterable? && forall e | e in c.List() :: e != Nothing
  }

  function LinesOfEntries(t: TaskId, entries: seq<Entry>, prices: Prices): seq<LineItem> {
    if entries == [] then [] else
      var front, last := entries[..|entries| - 1], entries[|entries| - 1];
      LinesOfEntries(t, front, prices) +
      if Billable(last, prices) then [LineItem(t, last.priceCode.s, prices[last.priceCode.s])] else []
  }

  function LinesOf(tasks: seq<ClosedTask>, prices: Prices): seq<LineItem> {
    if tasks == [] then [] else
      var front, last := tasks[..|tasks| - 1], tasks[|tasks| - 1];
      LinesOf(front, prices) + LinesOfEntries(last.id, last.checklist.List(), prices)
  }

  function SumAmounts(lines: seq<LineItem>): int {
    if lines == [] then 0 else SumAmounts(lines[..|lines| - 1]) + lines[|lines| - 1].amount
  }

  lemma {:induction false} SumAmountsOfConcat(xs: seq<LineItem>, ys: seq<LineItem>)
    ensures SumAmounts(xs + ys) == SumAmounts(xs) + SumAmounts(ys)
  {
    if ys == [] {
      assert xs + ys == xs;
    } else {
      SumAmountsOfConcat(xs, ys[..|ys| - 1]);
      assert (xs + ys)[..|xs + ys| - 1] == xs + ys[..|ys| - 1];
    }
  }

  // What a line bills, in terms of its fields alone.

  /** Ticked with a value that is not one of the falsy ones, under a code. */
  predicate TickedLoosely(e: Entry, code: string) {
    e.Line? && e.done !in {Undefined, Null, Bool(false), Num(0.0), Str("")} && e.priceCode == Str(code) && code != ""
  }

  lemma LineOfOne(t: TaskId, e: Entry, prices: Prices)
    ensures forall code | TickedLoosely(e, code) && code in prices ::
        LinesOfEntries(t, [e], prices) == [LineItem(t, code, prices[code])]
    ensures (forall code | TickedLoosely(e, code) :: code !in prices) ==> LinesOfEntries(t, [e], prices) == []
  {
    assert [e][..0] == [];
    assert e.Line? && e.priceCode.Str? ==> TickedLoosely(e, e.priceCode.s) || !Billable(e, prices);
  }

  lemma {:induction false} LinesOfConcat(t: TaskId, xs: seq<Entry>, ys: seq<Entry>, prices: Prices)
    ensures LinesOfEntries(t, xs + ys, prices) == LinesOfEntries(t, xs, prices) + LinesOfEntries(t, ys, prices)
  {
    if ys == [] {
      assert xs + ys == xs;
    } else {
      var front := ys[..|ys| - 1];
      LinesOfConcat(t, xs, front, prices);
      LinesOfLast(t, ys, prices);
      LinesOfLast(t, xs + ys, prices);
      assert (xs + ys)[..|xs + ys| - 1] == xs + front;
    }
  }

  lemma LinesOfLast(t: TaskId, entries: seq<Entry>, prices: Prices)
    requires entries != []
    ensures var n := |entries| - 1;
      LinesOfEntries(t, entries, prices) ==
      LinesOfEntries(t, entries[..n], prices) + LinesOfEntries(t, [entries[n]], prices)
  {
    assert [entries[|entries| - 1]][..0] == [];
  }

  /** The invoice's lines are those of its tasks, task by task. */
  lemma {:induction false} LinesOfTasks(xs: seq<ClosedTask>, task: ClosedTask, prices: Prices)
    ensures LinesOf(xs + [task], prices) ==
            LinesOf(xs, prices) + LinesOfEntries(task.id, task.checklist.List(), prices)
  {
    assert (xs + [task])[..|xs|] == xs;
  }

  /** What the estimator counts, in terms of the lines' fields alone. */
  lemma TickedCodesAre(entries: seq<Entry>, code: string)
    ensures code in TickedCodes(entries) <==>
            exists e :: e in entries && e.Line? && e.done == Bool(true) && e.priceCode == Str(code)
  {
    if code in TickedCodes(entries) {
      var e :| e in entries && Estimated(e) && e.priceCode.s == code;
      assert e.priceCode == Str(code);
    }
  }

  lemma PriceOfOne(code: string, prices: Prices)
    ensures SumPrices({code}, prices) == if code in prices then prices[code] else 0
  {
    SumPricesWithout({code}, prices, code);
    assert {code} - {code} == {};
  }

  /** The inner loop over one checklist; None when it cannot be read. */
  method TaskLines(task: ClosedTask, prices: Prices) returns (r: Option<seq<LineItem>>)
    ensures r.None? <==> task.checklist.NotIterable? || Nothing in task.checklist.List()
    ensures r.Some? <==> Readable(task.checklist)
    ensures r.Some? ==> r.value == LinesOfEntries(task.id, task.checklist.List(), prices)
  {
    if task.checklist.NotIterable? {
      return None;
    }
    var checklist := task.checklist.List();
    var lines := [];
    for j := 0 to |checklist|
      invariant lines == LinesOfEntries(task.id, checklist[..j], prices)
      invariant forall k | 0 <= k < j :: checklist[k] != Nothing
    {
      var item := checklist[j];
      assert checklist[..j + 1][..j] == checklist[..j];
      if item == Nothing {
        assert item in task.checklist.List();
        return None;
      }
      if !item.Line? || !item.done.Truthy() || !item.priceCode.Truthy() {
        continue;
      }
      if !item.priceCode.Str? || item.priceCode.s !in prices {
        continue;
      }
      lines := lines + [LineItem(task.id, item.priceCode.s, prices[item.priceCode.s])];
    }
    assert checklist[..|checklist|] == checklist;
    r := Some(lines);
  }

  /** The reduction that sums the amounts. */
  method AddUp(lines: seq<LineItem>) returns (total: int)
    ensures total == SumAmounts(lines)
  {
    total := 0;
    for i := 0 to |lines|
      invariant total == SumAmounts(lines[..i])
    {
      assert lines[..i + 1][..i] == lines[..i];
      total := total + lines[i].amount;
    }
    assert lines[..|lines|] == lines;
  }

  /** The lines and the total of an invoice run; None when a checklist cannot be read. */
  method PrepareLines(tasks: seq<ClosedTask>, prices: Prices) returns (r: Option<seq<LineItem>>, total: int)
    ensures r.Some? <==> forall t | t in tasks :: Readable(t.checklist)
    ensures r.Some? ==> r.value == LinesOf(tasks, prices) && total == SumAmounts(r.value)
  {
    var lineItems: seq<LineItem> := [];
    total := 0;
    for i := 0 to |tasks|
      invariant lineItems == LinesOf(tasks[..i], prices)
      invariant forall k | 0 <= k < i :: Readable(tasks[k].checklist)
    {
      assert tasks[..i + 1][..i] == tasks[..i];
      var lines := TaskLines(tasks[i], prices);
      if lines.None? {
        return None, 0;
      }
      lineItems := lineItems + lines.value;
    }
    assert tasks[..|tasks|] == tasks;
    total := AddUp(lineItems);
    r := Some(lineItems);
  }

  // ---------------------------------------------------------------------------------------------
  // The estimate
  // ---------------------------------------------------------------------------------------------

  function PriceOf(prices: Prices, code: string): int {
    if code in prices then prices[code] else 0
  }

  /** The sum of the prices of a set of codes. */
  ghost function SumPrices(codes: set<string>, prices: Prices): int {
    if codes == {} then 0 else
      var c :| c in codes;
      PriceOf(prices, c) + SumPrices(codes - {c}, prices)
  }

  lemma {:induction false} SumPricesWithout(codes: set<string>, prices: Prices, c: string)
    requires c in codes
    ensures SumPrices(codes, prices) == PriceOf(prices, c) + SumPrices(codes - {c}, prices)
    decreases codes
  {
    var d :| d in codes && SumPrices(codes, prices) == PriceOf(prices, d) + SumPrices(codes - {d}, prices);
    if d != c {
      SumPricesWithout(codes - {d}, prices, c);
      SumPricesWithout(codes - {c}, prices, d);
      assert codes - {d} - {c} == codes - {c} - {d};
    }
  }

  lemma {:induction false} SumPricesOfUnion(xs: set<string>, ys: set<string>, prices: Prices)
    requires xs !! ys
    ensures SumPrices(xs + ys, prices) == SumPrices(xs, prices) + SumPrices(ys, prices)
    decreases ys
  {
    if ys == {} {
      assert xs + ys == xs;
    } else {
      var c :| c in ys;
      SumPricesOfUnion(xs, ys - {c}, prices);
      SumPricesWithout(ys, prices, c);
      SumPricesWithout(xs + ys, prices, c);
      assert xs + ys - {c} == xs + (ys - {c});
    }
  }

  predicate Estimated(e: Entry) {
    e.Line? && e.done == Bool(true) && e.priceCode.Str?
  }

  /** Codes of the lines whose tick is literally true. */
  function TickedCodes(entries: seq<Entry>): set<string> {
    set e | e in entries && Estimated(e) :: e.priceCode.s
  }

  /** Codes of the lines whose tick is truthy. */
  function LooselyTickedCodes(entries: seq<Entry>): set<string> {
    set e | e in entries && e.Line? && e.done.Truthy() && e.priceCode.Str? :: e.priceCode.s
  }

  method EstimateFromChecklist(checklist: Checklist, prices: Prices) returns (sum: int)
    ensures sum == SumPrices(TickedCodes(checklist.List()), prices)
  {
    sum := 0;
    if !checklist.Entries? {
      return;
    }
    var seen := {};
    var entries := checklist.entries;
    for i := 0 to |entries|
      invariant seen == TickedCodes(entries[..i])
      invariant sum == SumPrices(seen, prices)
    {
      var item := entries[i];
      assert entries[..i + 1] == entries[..i] + [item];
      if !Estimated(item) || item.priceCode.s in seen {
        continue;
      }
      SumPricesWithout(seen + {item.priceCode.s}, prices, item.priceCode.s);
      assert seen + {item.priceCode.s} - {item.priceCode.s} == seen;
      seen := seen + {item.priceCode.s};
      sum := sum + PriceOf(prices, item.priceCode.s);
    }
    assert entries[..|entries|] == entries;
  }

  // ---------------------------------------------------------------------------------------------
  // How the two agree
  // ---------------------------------------------------------------------------------------------

  predicate DistinctKeys(lines: seq<LineItem>) {
    forall j, k | 0 <= j < k < |lines| :: lines[j].task != lines[k].task || lines[j].code != lines[k].code
  }

  /** Two of the lines are of one task and code. */
  ghost predicate BillsTwice(lines: seq<LineItem>) {
    exists j, k | 0 <= j < k < |lines| :: lines[j].task == lines[k].task && lines[j].code == lines[k].code
  }

  function BilledCodes(entries: seq<Entry>, prices: Prices): set<string> {
    set e | e in entries && Billable(e, prices) :: e.priceCode.s
  }

  lemma {:induction false} LinesCarryCodes(t: TaskId, entries: seq<Entry>, prices: Prices)
    ensures forall l | l in LinesOfEntries(t, entries, prices) :: l.task == t
    ensures forall c ::
        c in BilledCodes(entries, prices) <==> exists l :: l in LinesOfEntries(t, entries, prices) && l.code == c
  {
    if entries != [] {
      var front, last := entries[..|entries| - 1], entries[|entries| - 1];
      assert entries == front + [last];
      LinesCarryCodes(t, front, prices);
      var lines := LinesOfEntries(t, front, prices);
      if Billable(last, prices) {
        var line := LineItem(t, last.priceCode.s, prices[last.priceCode.s]);
        assert LinesOfEntries(t, entries, prices) == lines + [line];
        assert forall l :: l in lines + [line] <==> l in lines || l == line;
        assert BilledCodes(entries, prices) == BilledCodes(front, prices) + {line.code};
      } else {
        assert LinesOfEntries(t, entries, prices) == lines;
        assert BilledCodes(entries, prices) == BilledCodes(front, prices);
      }
    }
  }

  /** Without duplicates, one task's lines sum to the prices of the codes they bill. */
  lemma {:induction false} LinesSumToCodes(t: TaskId, entries: seq<Entry>, prices: Prices)
    requires DistinctKeys(LinesOfEntries(t, entries, prices))
    ensures SumAmounts(LinesOfEntries(t, entries, prices)) == SumPrices(BilledCodes(entries, prices), prices)
  {
    if entries == [] {
      return;
    }
    var front, last := entries[..|entries| - 1], entries[|entries| - 1];
    var lines := LinesOfEntries(t, front, prices);
    assert entries == front + [last];
    assert LinesOfEntries(t, entries, prices)[..|lines|] == lines;
    LinesSumToCodes(t, front, prices);
    if Billable(last, prices) {
      NewCodeAdds(t, front, last, prices);
    } else {
      assert BilledCodes(entries, prices) == BilledCodes(front, prices);
      assert LinesOfEntries(t, entries, prices) == lines;
    }
  }

  lemma NewCodeAdds(t: TaskId, front: seq<Entry>, last: Entry, prices: Prices)
    requires Billable(last, prices)
    requires DistinctKeys(LinesOfEntries(t, front, prices) + [LineItem(t, last.priceCode.s, prices[last.priceCode.s])])
    ensures SumPrices(BilledCodes(front + [last], prices), prices) ==
            SumPrices(BilledCodes(front, prices), prices) + prices[last.priceCode.s]
  {
    var c, lines, codes := last.priceCode.s, LinesOfEntries(t, front, prices), BilledCodes(front, prices);
    LinesCarryCodes(t, front, prices);
    var all := lines + [LineItem(t, c, prices[c])];
    assert all[|lines|] == LineItem(t, c, prices[c]);
    forall j | 0 <= j < |lines| ensures lines[j].code != c {
      assert all[j] == lines[j] && lines[j] in lines;
    }
    assert BilledCodes(front + [last], prices) == codes + {c};
    SumPricesOfUnion(codes, {c}, prices);
    SumPricesWithout({c}, prices, c);
    assert {c} - {c} == {};
  }

  /** Codes ticked with something truthy that is not literally true: billed, not estimated. */
  function OnlyLoose(entries: seq<Entry>): set<string> {
    LooselyTickedCodes(entries) - TickedCodes(entries) - {""}
  }

  /** The empty code, when ticked: estimated, never billed. */
  function EmptyCode(entries: seq<Entry>): set<string> {
    TickedCodes(entries) * {""}
  }

  lemma {:induction false} UnpricedCodesAddNothing(codes: set<string>, prices: Prices)
    requires forall c | c in codes :: c !in prices
    ensures SumPrices(codes, prices) == 0
    decreases codes
  {
    if codes != {} {
      var c :| c in codes;
      SumPricesWithout(codes, prices, c);
      UnpricedCodesAddNothing(codes - {c}, prices);
    }
  }

  /** Lines without duplicates and the estimate differ by exactly the two kinds of odd lines. */
  lemma TaskTotalVersusEstimate(t: TaskId, entries: seq<Entry>, prices: Prices)
    requires DistinctKeys(LinesOfEntries(t, entries, prices))
    ensures SumAmounts(LinesOfEntries(t, entries, prices)) + SumPrices(EmptyCode(entries), prices) ==
            SumPrices(TickedCodes(entries), prices) + SumPrices(OnlyLoose(entries), prices)
  {
    LinesSumToCodes(t, entries, prices);
    var billed, loose, ticked := BilledCodes(entries, prices), LooselyTickedCodes(entries), TickedCodes(entries);
    var unpriced := loose - {""} - billed;
    assert ticked <= loose;
    assert billed <= loose - {""};
    assert billed + unpriced == (ticked - EmptyCode(entries)) + OnlyLoose(entries);
    SumPricesOfUnion(billed, unpriced, prices);
    UnpricedCodesAddNothing(unpriced, prices);
    SumPricesOfUnion(ticked - EmptyCode(entries), OnlyLoose(entries), prices);
    SumPricesOfUnion(ticked - EmptyCode(entries), EmptyCode(entries), prices);
    assert ticked - EmptyCode(entries) + EmptyCode(entries) == ticked;
  }

  ghost function SumEstimates(tasks: seq<ClosedTask>, prices: Prices): int {
    if tasks == [] then 0 else
      SumEstimates(tasks[..|tasks| - 1], prices) + SumPrices(TickedCodes(tasks[|tasks| - 1].checklist.List()), prices)
  }

  /** How far the estimates of these tasks fall short of what they bill. */
  ghost function Discrepancy(tasks: seq<ClosedTask>, prices: Prices): int {
    if tasks == [] then 0 else
      var entries := tasks[|tasks| - 1].checklist.List();
      Discrepancy(tasks[..|tasks| - 1], prices)
      + SumPrices(OnlyLoose(entries), prices) - SumPrices(EmptyCode(entries), prices)
  }

  /** The total of an invoice that the unique key lets through is the sum of its tasks' estimates,
      up to ticks that are truthy but not true and priced empty codes. */
  lemma {:induction false} TotalVersusEstimates(tasks: seq<ClosedTask>, prices: Prices)
    requires DistinctKeys(LinesOf(tasks, prices))
    ensures SumAmounts(LinesOf(tasks, prices)) == SumEstimates(tasks, prices) + Discrepancy(tasks, prices)
  {
    if tasks != [] {
      var front, last := tasks[..|tasks| - 1], tasks[|tasks| - 1];
      var xs, ys := LinesOf(front, prices), LinesOfEntries(last.id, last.checklist.List(), prices);
      assert xs == (xs + ys)[..|xs|] && ys == (xs + ys)[|xs|..];
      TotalVersusEstimates(front, prices);
      TaskTotalVersusEstimate(last.id, last.checklist.List(), prices);
      SumAmountsOfConcat(xs, ys);
    }
  }

  /** A task's duplicate-free lines add up to its estimate exactly when the codes ticked only loosely cost as
      much as the empty code, if that is ticked. */
  lemma TaskAgreesExactlyWhen(t: TaskId, entries: seq<Entry>, prices: Prices)
    requires DistinctKeys(LinesOfEntries(t, entries, prices))
    ensures SumAmounts(LinesOfEntries(t, entries, prices)) == SumPrices(TickedCodes(entries), prices)
       <==> SumPrices(OnlyLoose(entries), prices) == SumPrices(EmptyCode(entries), prices)
  {
    TaskTotalVersusEstimate(t, entries, prices);
  }

  /** No cost in the codes: none of them is priced, except at nothing. */
  predicate Free(codes: set<string>, prices: Prices) {
    forall c | c in codes :: PriceOf(prices, c) == 0
  }

  lemma {:induction false} FreeExactlyWhenZero(codes: set<string>, prices: Prices)
    requires forall c | c in prices :: prices[c] >= 0
    ensures SumPrices(codes, prices) >= 0
    ensures SumPrices(codes, prices) == 0 <==> Free(codes, prices)
    decreases codes
  {
    if codes != {} {
      var c :| c in codes;
      SumPricesWithout(codes, prices, c);
      FreeExactlyWhenZero(codes - {c}, prices);
      assert Free(codes, prices) <==> PriceOf(prices, c) == 0 && Free(codes - {c}, prices);
    }
  }

  /** With no negative price and the empty code unpriced, as the price list has it, they agree exactly when
      everything ticked only loosely is free. */
  lemma TaskAgreesExactlyWhenLooseIsFree(t: TaskId, entries: seq<Entry>, prices: Prices)
    requires DistinctKeys(LinesOfEntries(t, entries, prices))
    requires "" !in prices && forall c | c in prices :: prices[c] >= 0
    ensures SumAmounts(LinesOfEntries(t, entries, prices)) == SumPrices(TickedCodes(entries), prices)
       <==> Free(OnlyLoose(entries), prices)
  {
    TaskAgreesExactlyWhen(t, entries, prices);
    UnpricedCodesAddNothing(EmptyCode(entries), prices);
    FreeExactlyWhenZero(OnlyLoose(entries), prices);
  }

  /** A truthy tick on a priced line is true, and no ticked code is empty and priced. A line without a tick,
      as templates have it, is fine. */
  predicate Tidy(c: Checklist, prices: Prices) {
    forall e | e in c.List() && e.Line? && e.done.Truthy() && e.priceCode.Str? && e.priceCode.s in prices ::
      e.done == Bool(true) && e.priceCode.s != ""
  }

  /** Whatever the prices, lines with a boolean tick or none, and no empty code, are tidy. */
  lemma ValidatedIsTidy(c: Checklist, prices: Prices)
    requires forall e | e in c.List() && e.Line? :: e.done in {Undefined, Bool(true), Bool(false)}
    requires forall e | e in c.List() && e.Line? :: e.priceCode != Str("")
    ensures Tidy(c, prices)
  {
    forall e | e in c.List() && e.Line? && e.done.Truthy() && e.priceCode.Str? && e.priceCode.s in prices
      ensures e.done == Bool(true) && e.priceCode.s != ""
    {
      assert e.priceCode == Str(e.priceCode.s);
    }
  }

  lemma TidyHasNoOddLines(c: Checklist, prices: Prices)
    requires Tidy(c, prices)
    ensures SumPrices(OnlyLoose(c.List()), prices) == 0 && SumPrices(EmptyCode(c.List()), prices) == 0
  {
    UnpricedCodesAddNothing(OnlyLoose(c.List()), prices);
    UnpricedCodesAddNothing(EmptyCode(c.List()), prices);
  }

  /** On tidy checklists the estimate and the invoice agree. */
  lemma {:induction false} TidyTotalsAgree(tasks: seq<ClosedTask>, prices: Prices)
    requires forall t | t in tasks :: Tidy(t.checklist, prices)
    ensures Discrepancy(tasks, prices) == 0
  {
    if tasks != [] {
      var last := tasks[|tasks| - 1];
      assert last in tasks && forall t | t in tasks[..|tasks| - 1] :: t in tasks;
      TidyTotalsAgree(tasks[..|tasks| - 1], prices);
      TidyHasNoOddLines(last.checklist, prices);
    }
  }

  /** A stored line ticked with 1 instead of true, which no closing request can send, is billed and not estimated. */
  lemma LooseTickIsBilledOnly(t: TaskId, price: int)
    ensures var entries := [Line(Num(1.0), Undefined, Undefined, Str("A"))];
      var prices := map["A" := price];
      && LinesOfEntries(t, entries, prices) == [LineItem(t, "A", price)]
      && SumAmounts(LinesOfEntries(t, entries, prices)) == price
      && SumPrices(TickedCodes(entries), prices) == 0
  {
    var entries := [Line(Num(1.0), Undefined, Undefined, Str("A"))];
    assert entries[..0] == [];
    assert TickedCodes(entries) == {};
  }
}
