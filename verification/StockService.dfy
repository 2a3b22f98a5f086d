/** The stock and task services as they run: each method executes its statements in source order
    against shared rows, and between statements any other transactions may run. Every method is one
    schedule of the machine in module Stock, so the theorems over runs apply to it. */
module StockService {
  import opened Prelude
  import opened Checklist
  import opened Stock

  datatype CloseResult = TaskNotFound | AlreadyClosed | ClosedNow

  datatype AdjustResult = Adjusted(quantity: int) | ItemNotFound | BelowZero | Interrupted

  /** Delivered: committed. Duplicate: the unique key was taken, which the handler reports as done. */
  datatype Outcome = Delivered | Duplicate | InsufficientStock(sku: string) | Aborted

  predicate By(a: Action, x: TxId) {
    match a
    case CreateTask(_, _) => false
    case MoveTask(_, _) => false
    case CloseTask(_, _) => false
    case CreateItem(_, _, _) => false
    case _ => a.tx == x
  }

  /** after is before plus statements of transactions other than x. */
  ghost predicate OthersRan(before: seq<Action>, after: seq<Action>, x: TxId) {
    before <= after && forall k | |before| <= k < |after| :: !By(after[k], x)
  }

  /** Between two statements the others may take any steps that are theirs. */
  lemma OthersMayRun(before: seq<Action>, more: seq<Action>, x: TxId)
    requires forall a | a in more :: a.CreateTask? || a.MoveTask? || a.CloseTask? || a.CreateItem? || a.tx != x
    ensures OthersRan(before, before + more, x)
  {
    forall k | |before| <= k < |before + more| ensures !By((before + more)[k], x) {
      assert (before + more)[k] in more;
    }
  }

  lemma {:induction false} OthersKeepTx(before: seq<Action>, after: seq<Action>, x: TxId)
    requires OthersRan(before, after, x)
    ensures x in Run(after).txs <==> x in Run(before).txs
    ensures x in Run(before).txs ==> Run(after).txs[x] == Run(before).txs[x]
    ensures Extends(Run(before), Run(after))
    decreases |after|
  {
    if |after| == |before| {
      assert after == before;
    } else {
      var front := after[..|after| - 1];
      OthersKeepTx(before, front, x);
      OtherStepKeepsTx(Run(front), after[|after| - 1], x);
      assert after[..|before|] == before && after == before + after[|before|..];
      RunExtends(before, after[|before|..]);
    }
  }

  lemma OtherStepKeepsTx(s: State, a: Action, x: TxId)
    requires !By(a, x)
    ensures x in Apply(s, a).txs <==> x in s.txs
    ensures x in s.txs ==> Apply(s, a).txs[x] == s.txs[x]
  {
  }

  // What the methods below take from the run so far.

  lemma RunOneMore(acts: seq<Action>, a: Action)
    ensures Run(acts + [a]) == Apply(Run(acts), a)
  {
    assert (acts + [a])[..|acts|] == acts;
  }

  lemma RunFacts(acts: seq<Action>)
    ensures OneEventPerClose(Run(acts)) && SkusUnique(Run(acts))
    ensures forall x | x in Run(acts).txs :: TodoIsReal(Run(acts), Run(acts).txs[x])
  {
    RunKeeps(acts);
    forall x | x in Run(acts).txs ensures TodoIsReal(Run(acts), Run(acts).txs[x]) {
      assert TxOk(Run(acts), Run(acts).txs[x]);
    }
  }

  /** What is still to deduct is what the task takes. */
  lemma RunTodoIsOwed(acts: seq<Action>, x: TxId, i: ItemId)
    requires x in Run(acts).txs && Run(acts).txs[x].Consume? && Run(acts).txs[x].phase.Deducting?
    requires i in Run(acts).txs[x].phase.todo
    ensures var s, tx := Run(acts), Run(acts).txs[x];
      && tx.task in s.tasks && i in s.items
      && tx.phase.todo[i] == Total(s.tasks[tx.task].checklist.List(), s.items[i].sku)
  {
    RunKeeps(acts);
    assert TxOk(Run(acts), Run(acts).txs[x]);
  }

  ghost predicate TodoIsReal(s: State, tx: Tx) {
    tx.Consume? && tx.phase.Deducting? ==> tx.phase.todo.Keys <= s.items.Keys
  }

  /** A consumption that collides meets a row of its own task. */
  lemma RunCollision(acts: seq<Action>, x: TxId)
    requires x in Run(acts).txs && Run(acts).txs[x].Consume? && Collides(Run(acts).ledger, Run(acts).txs[x].moves)
    ensures exists i: ItemId :: Deducted(Run(acts).ledger, Run(acts).txs[x].task, i)
  {
    RunKeeps(acts);
    var s := Run(acts);
    assert TxOk(s, s.txs[x]);
    var m, n :| m in s.txs[x].moves && n in s.ledger && m.task.Some? && m.task == n.task && m.item == n.item
      && m.reason == n.reason;
    assert Deducted(s.ledger, s.txs[x].task, n.item);
  }

  lemma RunKnownDeducted(acts: seq<Action>, x: TxId)
    requires ReadyToCommit(Run(acts), x)
    ensures var s, tx := Run(acts), Run(acts).txs[x];
      forall i | i in tx.phase.known :: Deducted(s.ledger + tx.moves, tx.task, i)
  {
    RunKeeps(acts);
    assert TxOk(Run(acts), Run(acts).txs[x]);
    AllKnownDeducted(Run(acts), Run(acts).txs[x]);
  }

  lemma OthersDoNotCommit(before: seq<Action>, after: seq<Action>, x: TxId)
    requires OthersRan(before, after, x)
    ensures NoCommit(before, after, x)
  {
  }

  class Database {
    var tasks: map<TaskId, Task>
    var items: map<ItemId, Item>
    var ledger: seq<Movement>
    var outbox: seq<TaskId>
    var txs: map<TxId, Tx>
    ghost var schedule: seq<Action>

    function View(): State
      reads this
    {
      State(tasks, items, ledger, outbox, txs)
    }

    /** The rows are what the schedule so far produces. */
    ghost predicate Valid()
      reads this
    {
      View() == Run(schedule)
    }

    constructor ()
      ensures Valid() && schedule == []
    {
      tasks, items, ledger, outbox, txs := map[], map[], [], [], map[];
      schedule := [];
    }

    /** Any number of statements of other transactions. */
    method Yield(ghost x: TxId)
      requires Valid()
      modifies this
      ensures Valid() && OthersRan(old(schedule), schedule, x)
    {
    }

    /** What x can count on after others ran. */
    method Interlude(ghost x: TxId)
      requires Valid()
      modifies this
      ensures Valid() && NoCommit(old(schedule), schedule, x) && Extends(old(View()), View())
      ensures x in txs <==> x in old(txs)
      ensures x in txs ==> txs[x] == old(txs[x])
    {
      Yield(x);
      OthersKeepTx(old(schedule), schedule, x);
      OthersDoNotCommit(old(schedule), schedule, x);
    }

    /** Another transaction has a movement of the item pending. */
    ghost predicate Contended(x: TxId, i: ItemId)
      reads this
    {
      exists y, m | y in txs && y != x && m in txs[y].moves :: m.item == i
    }

    /** Waits for a row lock; a deadlock or a timeout gives up instead. */
    method AwaitRow(x: TxId, i: ItemId) returns (locked: bool)
      requires Valid()
      modifies this
      ensures Valid() && NoCommit(old(schedule), schedule, x) && Extends(old(View()), View())
      ensures x in txs <==> x in old(txs)
      ensures x in txs ==> txs[x] == old(txs[x])
      ensures locked ==> Free(View(), x, i)
      ensures !locked ==> Contended(x, i)
    {
      Interlude(x);
      locked := forall y | y in txs && y != x :: forall m | m in txs[y].moves :: m.item != i;
    }

    method CloseTask(t: TaskId, final: Option<Checklist>) returns (r: CloseResult)
      requires Valid()
      modifies this
      ensures Valid() && schedule == old(schedule) + [Action.CloseTask(t, final)]
      ensures r == TaskNotFound <==> t !in old(tasks)
      ensures r == ClosedNow <==> t in old(tasks) && old(tasks)[t].status != CLOSED
      ensures r == ClosedNow ==> outbox == old(outbox) + [t] && items == old(items) && ledger == old(ledger)
      ensures r == ClosedNow ==>
          tasks == old(tasks)[t := Task(CLOSED, if final.Some? then final.value else old(tasks[t].checklist))]
      ensures r != ClosedNow ==> View() == old(View())
    {
      ghost var before := View();
      if t in tasks && tasks[t].status != CLOSED {
        tasks := tasks[t := Task(CLOSED, if final.Some? then final.value else tasks[t].checklist)];
        outbox := outbox + [t];
        r := ClosedNow;
      } else {
        r := if t in tasks then AlreadyClosed else TaskNotFound;
      }
      assert View() == Apply(before, Action.CloseTask(t, final));
      RunOneMore(schedule, Action.CloseTask(t, final));
      schedule := schedule + [Action.CloseTask(t, final)];
    }

    /** UPDATE ... SET quantity = quantity + delta WHERE quantity + delta >= 0 RETURNING quantity */
    method UpdateIfNotNegative(x: TxId, i: ItemId, delta: int) returns (r: AdjustResult)
      requires Valid() && x !in txs && Free(View(), x, i)
      modifies this
      ensures Valid() && schedule == old(schedule) + [UpdateQuantity(x, i, delta)]
      ensures r.ItemNotFound? <==> i !in old(items)
      ensures r.BelowZero? <==> i in old(items) && old(items)[i].quantity + delta < 0
      ensures r.Interrupted? <==> i in old(items) && old(items)[i].quantity + delta > MAX_INT4
      ensures r.Adjusted? ==> r.quantity >= 0
      ensures r.Adjusted? ==>
        var reason := if delta > 0 then RESTOCK else MANUAL_ADJUSTMENT;
        x in txs && txs[x] == Adjust([Movement(i, delta, r.quantity, reason, None)])
      ensures !r.Adjusted? ==> View() == old(View())
    {
      RunOneMore(schedule, UpdateQuantity(x, i, delta));
      schedule := schedule + [UpdateQuantity(x, i, delta)];
      if i !in items {
        return ItemNotFound;
      }
      var after := items[i].quantity + delta;
      if after < 0 {
        return BelowZero;
      }
      if after > MAX_INT4 {
        return Interrupted;
      }
      var movement := Movement(i, delta, after, if delta > 0 then RESTOCK else MANUAL_ADJUSTMENT, None);
      txs := txs[x := Adjust([movement])];
      r := Adjusted(after);
    }

    /** createMany of the pending movements, with its uniqueness check and the commit. */
    method WriteAndCommit(x: TxId) returns (written: bool)
      requires Valid() && x in txs && (txs[x].Consume? ==> txs[x].phase.Deducting? && txs[x].phase.todo == map[])
      modifies this
      ensures Valid() && schedule == old(schedule) + [Commit(x)] && x !in txs
      ensures written <==>
        forall m, n | m in old(txs[x].moves) && n in old(ledger) && m.task.Some? ::
          m.task != n.task || m.item != n.item || m.reason != n.reason
      ensures ledger == old(ledger) + if written then old(txs[x].moves) else []
      ensures !written ==> SameRows(old(View()), View())
    {
      var moves := txs[x].moves;
      written := !Collides(ledger, moves);
      if written {
        items := Settle(items, moves);
        ledger := ledger + moves;
      }
      txs := txs - {x};
      schedule := schedule + [Commit(x)];
    }

    /** restock or manual correction */
    method AdjustQuantity(x: TxId, i: ItemId, delta: int) returns (r: AdjustResult)
      requires Valid() && x !in txs
      modifies this
      ensures Valid() && old(schedule) <= schedule && x !in txs
      ensures r.Adjusted? ==> r.quantity >= 0
      ensures r.Adjusted? ==>
        var reason := if delta > 0 then RESTOCK else MANUAL_ADJUSTMENT;
        ledger != [] && ledger[|ledger| - 1] == Movement(i, delta, r.quantity, reason, None)
      ensures !r.Adjusted? ==> NoCommit(old(schedule), schedule, x)
      ensures r.ItemNotFound? ==> i !in items
      ensures r.BelowZero? ==> i in items && items[i].quantity + delta < 0
      ensures r.Interrupted? ==> Contended(x, i) || (i in items && items[i].quantity + delta > MAX_INT4)
    {
      var locked := AwaitRow(x, i);
      if !locked {
        return Interrupted;
      }
      r := UpdateIfNotNegative(x, i, delta);
      if !r.Adjusted? {
        return;
      }
      Interlude(x);
      var written := WriteAndCommit(x);
    }

    /** UPDATE ... WHERE quantity >= need RETURNING quantity */
    method DecrementOrFail(x: TxId, i: ItemId) returns (done: bool)
      requires Valid() && x in txs && txs[x].Consume? && txs[x].phase.Deducting? && i in txs[x].phase.todo
      requires i in items && Free(View(), x, i)
      modifies this
      ensures Valid() && schedule == old(schedule) + [Deduct(x, i)] && SameRows(old(View()), View())
      ensures done <==> old(txs[x].phase.todo[i]) <= MAX_INT4 && old(items[i].quantity) >= old(txs[x].phase.todo[i])
      ensures !done ==> x !in txs
      ensures done ==> x in txs && txs[x].Consume? && txs[x].task == old(txs[x].task)
      ensures done ==> txs[x].phase == Deducting(old(txs[x].phase.known), old(txs[x].phase.todo) - {i})
    {
      var Consume(t, phase, moves) := txs[x];
      var need := phase.todo[i];
      done := need <= MAX_INT4 && items[i].quantity >= need;
      if done {
        txs := txs[x := Consume(t, phase.(todo := phase.todo - {i}), moves + [Deduction(View(), t, i, need)])];
      } else {
        txs := txs - {x};
      }
      schedule := schedule + [Deduct(x, i)];
    }

    method RollBack(x: TxId)
      requires Valid()
      modifies this
      ensures Valid() && schedule == old(schedule) + [Rollback(x)] && SameRows(old(View()), View())
      ensures txs == old(txs) - {x}
    {
      txs := txs - {x};
      schedule := schedule + [Rollback(x)];
    }

    /** The first read: the task's checklist. */
    method ReadTask(x: TxId, t: TaskId) returns (order: seq<string>, plan: map<string, nat>)
      requires Valid() && x !in txs && t in outbox
      modifies this
      ensures Valid() && schedule == old(schedule) + [Deliver(x, t)]
      ensures tasks == old(tasks) && t in tasks && tasks[t].status == CLOSED
      ensures IsPlan(tasks[t].checklist.List(), order, plan) && plan == PlanOf(tasks[t].checklist)
      ensures txs == old(txs)[x := Consume(t, ReadingItems(plan), [])]
    {
      RunFacts(schedule);
      RunOneMore(schedule, Deliver(x, t));
      order, plan := ConsumptionPlan(tasks[t].checklist);
      PlanMatches(tasks[t].checklist, order, plan);
      txs := txs[x := Consume(t, ReadingItems(plan), [])];
      schedule := schedule + [Deliver(x, t)];
    }

    /** The lookup of the found rows by SKU. */
    function IndexBySku(known: set<ItemId>): (bySku: map<string, ItemId>)
      reads this
      requires known <= items.Keys && SkusUnique(View())
      ensures forall i | i in known :: items[i].sku in bySku && bySku[items[i].sku] == i
      ensures forall sku | sku in bySku :: bySku[sku] in known && items[bySku[sku]].sku == sku
    {
      map i | i in known :: items[i].sku := i
    }

    /** The second read: the catalogue rows of the planned SKUs. */
    method ReadCatalogue(x: TxId) returns (bySku: map<string, ItemId>)
      requires Valid() && x in txs && txs[x].Consume? && txs[x].phase.ReadingItems?
      modifies this
      ensures Valid() && schedule == old(schedule) + [ReadItems(x)]
      ensures tasks == old(tasks) && items == old(items)
      ensures x in txs && txs[x].Consume? && txs[x].task == old(txs[x].task) && txs[x].phase.ReadingLedger?
      ensures forall i :: i in txs[x].phase.known <==> i in items && items[i].sku in old(txs[x].phase.plan)
      ensures forall i | i in txs[x].phase.known :: items[i].sku in bySku && bySku[items[i].sku] == i
      ensures forall sku | sku in bySku :: bySku[sku] in items && items[bySku[sku]].sku == sku
    {
      RunFacts(schedule);
      RunOneMore(schedule, ReadItems(x));
      var Consume(t, phase, moves) := txs[x];
      var known := map i | i in items && items[i].sku in phase.plan :: phase.plan[items[i].sku];
      bySku := IndexBySku(known.Keys);
      txs := txs[x := Consume(t, ReadingLedger(known), moves)];
      schedule := schedule + [ReadItems(x)];
    }

    /** The third read: what is already deducted for this task. */
    method ReadRecorded(x: TxId) returns (todo: map<ItemId, nat>)
      requires Valid() && x in txs && txs[x].Consume? && txs[x].phase.ReadingLedger?
      modifies this
      ensures Valid() && schedule == old(schedule) + [ReadLedger(x)] && SameRows(old(View()), View())
      ensures x in txs && txs[x].Consume? && txs[x].task == old(txs[x].task)
      ensures txs[x].phase == Deducting(old(txs[x].phase.known), todo) && todo.Keys <= old(txs[x].phase.known).Keys
      ensures forall i | i in old(txs[x].phase.known) :: i in todo <==>
          forall m | m in ledger && m.item == i && m.task == Some(old(txs[x].task)) :: m.reason != TASK_CONSUMPTION
      ensures forall i | i in todo :: todo[i] == old(txs[x].phase.known)[i]
    {
      var Consume(t, phase, moves) := txs[x];
      todo := map i | i in phase.known && !Deducted(ledger, t, i) :: phase.known[i];
      txs := txs[x := Consume(t, Deducting(phase.known, todo), moves)];
      schedule := schedule + [ReadLedger(x)];
    }

    /** The task takes more of the item than there is, or than the column can hold. */
    ghost predicate Lacks(t: TaskId, i: ItemId)
      reads this
    {
      && t in tasks && i in items
      && var need := Total(tasks[t].checklist.List(), items[i].sku); need > items[i].quantity || need > MAX_INT4
    }

    ghost predicate ShortOf(t: TaskId, sku: string)
      reads this
    {
      exists i | i in items :: items[i].sku == sku && Lacks(t, i)
    }

    ghost predicate SkusMatch(bySku: map<string, ItemId>)
      reads this
    {
      forall sku | sku in bySku :: bySku[sku] in items && items[bySku[sku]].sku == sku
    }

    /** Ends a wait for a row that another transaction is at. */
    method GiveUp(x: TxId, i: ItemId)
      requires Valid() && Contended(x, i)
      modifies this
      ensures Valid() && schedule == old(schedule) + [Rollback(x)] && SameRows(old(View()), View())
      ensures x !in txs && Contended(x, i)
    {
      ghost var y, m :| y in txs && y != x && m in txs[y].moves && m.item == i;
      RollBack(x);
      assert y in txs && m in txs[y].moves;
    }

    /** One turn of the loop: wait for the row, decrement it, let others run. */
    method DeductOne(x: TxId, i: ItemId) returns (failure: Option<bool>)
      requires Valid() && x in txs && txs[x].Consume? && txs[x].phase.Deducting? && i in txs[x].phase.todo
      modifies this
      ensures Valid() && NoCommit(old(schedule), schedule, x)
      ensures Extends(old(View()), View())
      ensures failure.Some? ==> x !in txs
      ensures failure == Some(true) ==> Lacks(old(txs[x].task), i)
      ensures failure == Some(false) ==> Contended(x, i)
      ensures failure.None? ==> x in txs && txs[x].Consume? && txs[x].task == old(txs[x].task)
      ensures failure.None? ==> txs[x].phase == Deducting(old(txs[x].phase.known), old(txs[x].phase.todo) - {i})
    {
      var locked := AwaitRow(x, i);
      if !locked {
        GiveUp(x, i);
        return Some(false);
      }
      RunFacts(schedule);
      RunTodoIsOwed(schedule, x, i);
      ghost var before := View();
      var done := DecrementOrFail(x, i);
      assert Extends(before, View());
      if !done {
        return Some(true);
      }
      Interlude(x);
      failure := None;
    }

    /** The loop over the plan. */
    method DeductPlanned(x: TxId, order: seq<string>, bySku: map<string, ItemId>, todo: map<ItemId, nat>)
      returns (failure: Option<Outcome>)
      requires Valid() && x in txs && txs[x].Consume? && txs[x].phase.Deducting? && txs[x].phase.todo == todo
      requires Remaining(order, bySku, todo, todo) && SkusMatch(bySku)
      modifies this
      ensures Valid() && NoCommit(old(schedule), schedule, x)
      ensures failure.Some? ==> x !in txs && (failure.value.InsufficientStock? || failure.value.Aborted?)
      ensures failure.Some? && failure.value.InsufficientStock? ==> ShortOf(old(txs[x].task), failure.value.sku)
      ensures failure.Some? && failure.value.Aborted? ==> exists i: ItemId :: Contended(x, i)
      ensures failure.None? ==> x in txs && txs[x].Consume? && txs[x].task == old(txs[x].task)
      ensures failure.None? ==> txs[x].phase == Deducting(old(txs[x].phase.known), map[])
    {
      for k := 0 to |order|
        invariant Valid() && NoCommit(old(schedule), schedule, x) && SkusMatch(bySku)
        invariant x in txs && txs[x].Consume? && txs[x].task == old(txs[x].task)
        invariant txs[x].phase.Deducting? && txs[x].phase.known == old(txs[x].phase.known)
        invariant Remaining(order[k..], bySku, todo, txs[x].phase.todo)
      {
        var sku := order[k];
        assert order[k..][1..] == order[k + 1..];
        RemainingSteps(order[k..], bySku, todo, txs[x].phase.todo);
        if sku !in bySku || bySku[sku] !in todo {
          continue;  // unknown, or deducted before
        }
        var failed := DeductOne(x, bySku[sku]);
        if failed.Some? {
          return Some(if failed.value then InsufficientStock(sku) else Aborted);
        }
      }
      assert txs[x].phase.todo == map[];
      failure := None;
    }

    /** The items in the catalogue now that the closed task's plan mentions. */
    ghost function Wanted(t: TaskId): set<ItemId>
      reads this
    {
      set i | i in items && t in tasks && items[i].sku in PlanOf(tasks[t].checklist)
    }

    /** x's commit has just hit a row of the same task in the ledger and left all rows as they were. */
    ghost predicate Rejected(x: TxId, t: TaskId)
      reads this
    {
      && schedule != [] && schedule[|schedule| - 1] == Commit(x)
      && SameRows(Run(schedule[..|schedule| - 1]), View())
      && exists i: ItemId :: Deducted(ledger, t, i)
    }

    /** From the third read to the commit. */
    method ConsumeKnown(x: TxId, order: seq<string>, bySku: map<string, ItemId>) returns (outcome: Outcome)
      requires Valid() && Lookup(x, order, bySku)
      modifies this
      ensures Valid() && old(schedule) <= schedule && x !in txs
      ensures outcome == Delivered ==> forall i | i in old(txs[x].phase.known) :: Deducted(ledger, old(txs[x].task), i)
      ensures outcome.InsufficientStock? || outcome.Aborted? ==> NoCommit(old(schedule), schedule, x)
      ensures outcome.InsufficientStock? ==> ShortOf(old(txs[x].task), outcome.sku)
      ensures outcome.Aborted? ==> exists i: ItemId :: Contended(x, i)
      ensures outcome == Duplicate ==> Rejected(x, old(txs[x].task))
    {
      var todo := ReadRecorded(x);
      AllRemains(order, bySku, todo);
      var failure := DeductPlanned(x, order, bySku, todo);
      if failure.Some? {
        return failure.value;
      }
      RunKnownDeducted(schedule, x);
      if Collides(ledger, txs[x].moves) {
        RunCollision(schedule, x);
      }
      ghost var acts := schedule;
      var written := WriteAndCommit(x);
      assert schedule[..|schedule| - 1] == acts;
      outcome := if written then Delivered else Duplicate;
    }

    /** What ConsumeKnown needs of the order of the SKUs and their lookup. */
    ghost predicate Lookup(x: TxId, order: seq<string>, bySku: map<string, ItemId>)
      reads this
    {
      && x in txs && txs[x].Consume? && txs[x].phase.ReadingLedger? && SkusMatch(bySku)
      && (forall j, k | 0 <= j < k < |order| :: order[j] != order[k])
      && (forall sku, sku' | sku in bySku && sku' in bySku && bySku[sku] == bySku[sku'] :: sku == sku')
      && forall i | i in txs[x].phase.known :: exists sku :: sku in order && sku in bySku && bySku[sku] == i
    }

    method LookUp(x: TxId, order: seq<string>) returns (bySku: map<string, ItemId>)
      requires Valid() && x in txs && txs[x].Consume? && txs[x].phase.ReadingItems?
      requires forall j, k | 0 <= j < k < |order| :: order[j] != order[k]
      requires forall sku :: sku in order <==> sku in txs[x].phase.plan
      modifies this
      ensures Valid() && old(schedule) <= schedule && NoCommit(old(schedule), schedule, x)
      ensures Lookup(x, order, bySku) && txs[x].task == old(txs[x].task)
      ensures forall i | i in old(items) && old(items[i].sku) in old(txs[x].phase.plan) :: i in txs[x].phase.known
    {
      bySku := ReadCatalogue(x);
      forall i | i in txs[x].phase.known ensures exists sku :: sku in order && sku in bySku && bySku[sku] == i {
        assert items[i].sku in order && bySku[items[i].sku] == i;
      }
      Interlude(x);
    }

    /** From the second read to the commit. */
    method ConsumePlan(x: TxId, t: TaskId, order: seq<string>) returns (outcome: Outcome)
      requires Valid() && x in txs && txs[x].Consume? && txs[x].task == t && txs[x].phase.ReadingItems?
      requires forall j, k | 0 <= j < k < |order| :: order[j] != order[k]
      requires forall sku :: sku in order <==> sku in txs[x].phase.plan
      requires t in tasks && txs[x].phase.plan == PlanOf(tasks[t].checklist)
      modifies this
      ensures Valid() && old(schedule) <= schedule && x !in txs
      ensures outcome == Delivered ==> forall i | i in old(Wanted(t)) :: Deducted(ledger, t, i)
      ensures outcome == Duplicate ==> Rejected(x, t)
      ensures outcome.InsufficientStock? ==> ShortOf(t, outcome.sku)
      ensures outcome.Aborted? ==> exists i: ItemId :: Contended(x, i)
      ensures outcome.InsufficientStock? || outcome.Aborted? ==> NoCommit(old(schedule), schedule, x)
    {
      ghost var wanted := Wanted(t);
      Interlude(x);
      var bySku := LookUp(x, order);
      assert wanted <= txs[x].phase.known.Keys;
      outcome := ConsumeKnown(x, order, bySku);
    }

    /** Handles one delivery of a task.closed event. */
    method ConsumeForTask(x: TxId, t: TaskId) returns (outcome: Outcome)
      requires Valid() && x !in txs && t in outbox
      modifies this
      ensures Valid() && old(schedule) <= schedule && x !in txs
      // delivered: every item the catalogue had under a planned SKU is deducted
      ensures outcome == Delivered ==> forall i | i in old(Wanted(t)) :: Deducted(ledger, t, i)
      // the unique key was taken: the commit changed no row
      ensures outcome == Duplicate ==> Rejected(x, t)
      // a shortfall is real: the task takes more of that SKU than there is
      ensures outcome.InsufficientStock? ==> ShortOf(t, outcome.sku)
      // given up only when another transaction is at one of the rows
      ensures outcome.Aborted? ==> exists i: ItemId :: Contended(x, i)
      // given up: nothing was committed
      ensures outcome.InsufficientStock? || outcome.Aborted? ==> NoCommit(old(schedule), schedule, x)
    {
      var order, plan := ReadTask(x, t);
      if |order| == 0 {
        RollBack(x);
        return Delivered;
      }
      outcome := ConsumePlan(x, t, order);
    }
  }

  lemma AllRemains(order: seq<string>, bySku: map<string, ItemId>, todo: map<ItemId, nat>)
    requires forall j, k | 0 <= j < k < |order| :: order[j] != order[k]
    requires forall sku, sku' | sku in bySku && sku' in bySku && bySku[sku] == bySku[sku'] :: sku == sku'
    requires forall i | i in todo :: exists sku :: sku in order && sku in bySku && bySku[sku] == i
    ensures Remaining(order, bySku, todo, todo)
  {
  }

  ghost predicate NoCommit(before: seq<Action>, after: seq<Action>, x: TxId) {
    before <= after && forall k | |before| <= k < |after| :: after[k] != Commit(x)
  }

  lemma PlanMatches(checklist: Checklist, order: seq<string>, plan: map<string, nat>)
    requires IsPlan(checklist.List(), order, plan)
    ensures plan == PlanOf(checklist)
  {
    forall sku ensures sku in plan <==> sku in PlanOf(checklist) {
      PlanIsOwed(checklist, sku);
    }
    forall sku | sku in plan ensures plan[sku] == PlanOf(checklist)[sku] {
      PlanIsOwed(checklist, sku);
    }
  }

  /** left is what todo still holds when the SKUs in rest have not been visited. */
  ghost predicate Remaining(rest: seq<string>, bySku: map<string, ItemId>, todo: map<ItemId, nat>,
                            left: map<ItemId, nat>) {
    && (forall j, k | 0 <= j < k < |rest| :: rest[j] != rest[k])
    && (forall sku, sku' | sku in bySku && sku' in bySku && bySku[sku] == bySku[sku'] :: sku == sku')
    && (forall i :: i in left <==> i in todo && exists sku :: sku in rest && sku in bySku && bySku[sku] == i)
  }

  lemma RemainingSteps(rest: seq<string>, bySku: map<string, ItemId>, todo: map<ItemId, nat>, left: map<ItemId, nat>)
    requires rest != [] && Remaining(rest, bySku, todo, left)
    ensures var sku := rest[0];
      if sku in bySku && bySku[sku] in todo
      then bySku[sku] in left && Remaining(rest[1..], bySku, todo, left - {bySku[sku]})
      else Remaining(rest[1..], bySku, todo, left)
  {
    assert rest[0] in rest && forall sku :: sku in rest <==> sku == rest[0] || sku in rest[1..];
  }
}
