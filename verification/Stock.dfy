/** One tenant's stock under concurrent READ COMMITTED transactions: task closing with its outbox
    event, consumption of a closed task's plan, manual adjustment and item creation.

    A transaction's pending movements double as its row locks: an UPDATE of an item waits while
    another transaction has a pending movement on it, and re-reads the committed row afterwards.
    Inserting the movements is each transaction's last statement, so it is one step with the
    uniqueness check and the commit. A step that has to wait, or that does not apply, leaves the
    state unchanged; rollback is possible at any time. */
module Stock {
  import opened Prelude
  import opened Checklist

  type ItemId = nat
  type TaskId = nat
  type TxId = nat

  const MAX_INT4: int := 0x7FFF_FFFF
  const MAX_OPENING_STOCK := 1_000_000

  datatype Status = NEW | ASSIGNED | IN_PROGRESS | CLOSED | CANCELLED

  datatype Task = Task(status: Status, checklist: Checklist)

  datatype Item = Item(sku: string, quantity: int)

  datatype Reason = TASK_CONSUMPTION | RESTOCK | MANUAL_ADJUSTMENT

  datatype Movement = Movement(item: ItemId, delta: int, quantityAfter: int, reason: Reason, task: Option<TaskId>)

  /** Where a consuming transaction stands: before each of its reads, or among its updates. */
  datatype Phase =
    | ReadingItems(plan: map<string, nat>)
    | ReadingLedger(known: map<ItemId, nat>)
    | Deducting(known: map<ItemId, nat>, todo: map<ItemId, nat>)

  datatype Tx =
    | Consume(task: TaskId, phase: Phase, moves: seq<Movement>)
    | Adjust(moves: seq<Movement>)

  datatype State = State(
    tasks: map<TaskId, Task>,
    items: map<ItemId, Item>,
    ledger: seq<Movement>,   // stock_movements, in commit order
    outbox: seq<TaskId>,     // the task.closed events ever written
    txs: map<TxId, Tx>)

  datatype Action =
    | CreateTask(task: TaskId, checklist: Checklist)
    | MoveTask(task: TaskId, status: Status)
    | CloseTask(task: TaskId, final: Option<Checklist>)
    | CreateItem(item: ItemId, sku: string, quantity: int)
    | Deliver(tx: TxId, task: TaskId)
    | ReadItems(tx: TxId)
    | ReadLedger(tx: TxId)
    | Deduct(tx: TxId, item: ItemId)
    | UpdateQuantity(tx: TxId, item: ItemId, delta: int)
    | Commit(tx: TxId)
    | Rollback(tx: TxId)

  // ---------------------------------------------------------------------------------------------
  // Statements
  // ---------------------------------------------------------------------------------------------

  function PlanOf(checklist: Checklist): map<string, nat> {
    var entries := checklist.List();
    map e | e in entries && Consumes(e) :: e.sku.s := Total(entries, e.sku.s)
  }

  predicate Moves(moves: seq<Movement>, i: ItemId) {
    exists m | m in moves :: m.item == i
  }

  /** No other transaction holds the item's row lock. */
  predicate Free(s: State, x: TxId, i: ItemId) {
    forall y | y in s.txs && y != x :: !Moves(s.txs[y].moves, i)
  }

  predicate SkuTaken(s: State, sku: string) {
    exists i | i in s.items :: s.items[i].sku == sku
  }

  predicate Deducted(ledger: seq<Movement>, t: TaskId, i: ItemId) {
    exists m | m in ledger :: m.item == i && m.task == Some(t) && m.reason == TASK_CONSUMPTION
  }

  /** The unique key (task, item, reason); rows without a task never collide. */
  predicate Collides(ledger: seq<Movement>, moves: seq<Movement>) {
    exists m, n | m in moves && n in ledger ::
      m.task.Some? && m.task == n.task && m.item == n.item && m.reason == n.reason
  }

  /** The committed rows once the pending movements are written. */
  function Settle(items: map<ItemId, Item>, moves: seq<Movement>): (r: map<ItemId, Item>)
    ensures r.Keys == items.Keys
    ensures forall i | i in items :: r[i].sku == items[i].sku
    decreases |moves|
  {
    if moves == [] then items else
      var front, last := Settle(items, moves[..|moves| - 1]), moves[|moves| - 1];
      if last.item in items then front[last.item := front[last.item].(quantity := last.quantityAfter)] else front
  }

  function Deduction(s: State, t: TaskId, i: ItemId, need: int): Movement
    requires i in s.items
  {
    Movement(i, -need, s.items[i].quantity - need, TASK_CONSUMPTION, Some(t))
  }

  function End(s: State, x: TxId): State {
    s.(txs := s.txs - {x})
  }

  function Apply(s: State, a: Action): State {
    match a
    case CreateTask(t, checklist) =>
      if t in s.tasks then s else s.(tasks := s.tasks[t := Task(NEW, checklist)])
    case MoveTask(t, status) =>
      if t in s.tasks && s.tasks[t].status != CLOSED && status != CLOSED
      then s.(tasks := s.tasks[t := s.tasks[t].(status := status)])
      else s
    case CloseTask(t, final) =>
      if t in s.tasks && s.tasks[t].status != CLOSED
      then
        var checklist := if final.Some? then final.value else s.tasks[t].checklist;
        s.(tasks := s.tasks[t := Task(CLOSED, checklist)], outbox := s.outbox + [t])
      else s
    case CreateItem(i, sku, quantity) =>
      if i in s.items || SkuTaken(s, sku) || !(0 <= quantity <= MAX_OPENING_STOCK) then s
      else s.(items := s.items[i := Item(sku, quantity)],
              ledger := s.ledger + if quantity != 0 then [Movement(i, quantity, quantity, RESTOCK, None)] else [])
    case Deliver(x, t) =>
      if x in s.txs || t !in s.outbox || t !in s.tasks then s
      else s.(txs := s.txs[x := Consume(t, ReadingItems(PlanOf(s.tasks[t].checklist)), [])])
    case ReadItems(x) =>
      if x in s.txs && s.txs[x].Consume? && s.txs[x].phase.ReadingItems?
      then
        var plan := s.txs[x].phase.plan;
        var known := map i | i in s.items && s.items[i].sku in plan :: plan[s.items[i].sku];
        s.(txs := s.txs[x := s.txs[x].(phase := ReadingLedger(known))])
      else s
    case ReadLedger(x) =>
      if x in s.txs && s.txs[x].Consume? && s.txs[x].phase.ReadingLedger?
      then
        var known, t := s.txs[x].phase.known, s.txs[x].task;
        var todo := map i | i in known && !Deducted(s.ledger, t, i) :: known[i];
        s.(txs := s.txs[x := s.txs[x].(phase := Deducting(known, todo))])
      else s
    case Deduct(x, i) =>
      if x in s.txs && s.txs[x].Consume? && s.txs[x].phase.Deducting? && i in s.txs[x].phase.todo && i in s.items
         && Free(s, x, i)
      then
        var Consume(t, phase, moves) := s.txs[x];
        var need := phase.todo[i];
        if need > MAX_INT4 || s.items[i].quantity < need then End(s, x)
        else
          s.(txs := s.txs[x := Consume(t, phase.(todo := phase.todo - {i}), moves + [Deduction(s, t, i, need)])])
      else s
    case UpdateQuantity(x, i, delta) =>
      if x !in s.txs && i in s.items && Free(s, x, i) && 0 <= s.items[i].quantity + delta <= MAX_INT4
      then
        var reason := if delta > 0 then RESTOCK else MANUAL_ADJUSTMENT;
        s.(txs := s.txs[x := Adjust([Movement(i, delta, s.items[i].quantity + delta, reason, None)])])
      else s
    case Commit(x) =>
      if x in s.txs && (s.txs[x].Consume? ==> s.txs[x].phase.Deducting? && s.txs[x].phase.todo == map[])
      then
        var moves := s.txs[x].moves;
        if Collides(s.ledger, moves) then End(s, x)
        else End(s, x).(items := Settle(s.items, moves), ledger := s.ledger + moves)
      else s
    case Rollback(x) => End(s, x)
  }

  const EMPTY := State(map[], map[], [], [], map[])

  /** Any schedule of statements by any number of transactions. */
  function Run(acts: seq<Action>): State {
    if acts == [] then EMPTY else Apply(Run(acts[..|acts| - 1]), acts[|acts| - 1])
  }

  // ---------------------------------------------------------------------------------------------
  // The ledger
  // ---------------------------------------------------------------------------------------------

  /** The sum of the committed deltas of one item. */
  function Balance(ledger: seq<Movement>, i: ItemId): int {
    if ledger == [] then 0 else
      var last := ledger[|ledger| - 1];
      Balance(ledger[..|ledger| - 1], i) + if last.item == i then last.delta else 0
  }

  ghost predicate LedgerExplainsStock(s: State) {
    && (forall i | i in s.items :: s.items[i].quantity == Balance(s.ledger, i) && 0 <= s.items[i].quantity <= MAX_INT4)
    && (forall i | i !in s.items :: !Moves(s.ledger, i))
  }

  ghost predicate RunningTotals(ledger: seq<Movement>) {
    forall k | 0 <= k < |ledger| :: ledger[k].quantityAfter == Balance(ledger[..k + 1], ledger[k].item) >= 0
  }

  /** What a task takes of an item. */
  function Owed(s: State, t: TaskId, i: ItemId): int
    requires t in s.tasks && i in s.items
  {
    Total(s.tasks[t].checklist.List(), s.items[i].sku)
  }

  /** A consumption movement carries exactly what its closed task owes. */
  ghost predicate PaysExactly(s: State, m: Movement) {
    m.reason == TASK_CONSUMPTION ==>
      && m.task.Some? && m.task.value in s.tasks && s.tasks[m.task.value].status == CLOSED
      && m.item in s.items && m.delta == -Owed(s, m.task.value, m.item) && m.delta < 0
  }

  ghost predicate OncePerTask(ledger: seq<Movement>) {
    forall j, k | 0 <= j < k < |ledger| && ledger[j].reason == TASK_CONSUMPTION == ledger[k].reason ::
      ledger[j].task != ledger[k].task || ledger[j].item != ledger[k].item
  }

  /** Each close wrote one event, and only closed tasks have one. */
  ghost predicate OneEventPerClose(s: State) {
    && (forall j, k | 0 <= j < k < |s.outbox| :: s.outbox[j] != s.outbox[k])
    && (forall t :: t in s.outbox <==> t in s.tasks && s.tasks[t].status == CLOSED)
  }

  ghost predicate SkusUnique(s: State) {
    forall i, j | i in s.items && j in s.items && i != j :: s.items[i].sku != s.items[j].sku
  }

  // ---------------------------------------------------------------------------------------------
  // Transactions in flight
  // ---------------------------------------------------------------------------------------------

  ghost predicate DistinctItems(moves: seq<Movement>) {
    forall j, k | 0 <= j < k < |moves| :: moves[j].item != moves[k].item
  }

  ghost predicate MovesFit(s: State, moves: seq<Movement>) {
    && DistinctItems(moves)
    && (forall m | m in moves :: m.item in s.items && m.quantityAfter == s.items[m.item].quantity + m.delta)
    && (forall m | m in moves :: 0 <= m.quantityAfter <= MAX_INT4 && PaysExactly(s, m))
  }

  /** The planned quantities are what the closed task owes. */
  ghost predicate Planned(s: State, t: TaskId, known: map<ItemId, nat>) {
    t in s.tasks && forall i | i in known :: i in s.items && known[i] == Owed(s, t, i) && known[i] > 0
  }

  ghost predicate TxOk(s: State, tx: Tx) {
    && MovesFit(s, tx.moves)
    && match tx
       case Adjust(moves) => forall m | m in moves :: m.reason != TASK_CONSUMPTION
       case Consume(t, phase, moves) =>
         && t in s.tasks && s.tasks[t].status == CLOSED
         && (forall m | m in moves :: m.reason == TASK_CONSUMPTION && m.task == Some(t))
         && match phase
            case ReadingItems(plan) => plan == PlanOf(s.tasks[t].checklist) && moves == []
            case ReadingLedger(known) => Planned(s, t, known) && moves == []
            case Deducting(known, todo) =>
              && Planned(s, t, known) && todo.Keys <= known.Keys
              && (forall i | i in todo :: todo[i] == known[i] && !Moves(moves, i))
              && (forall m | m in moves :: m.item in known)
              && (forall i | i in known :: i in todo || Moves(moves, i) || Deducted(s.ledger, t, i))
  }

  /** Row locks exclude each other. */
  ghost predicate LocksExclusive(s: State) {
    forall x, y, i | x in s.txs && y in s.txs && x != y && Moves(s.txs[x].moves, i) :: !Moves(s.txs[y].moves, i)
  }

  ghost predicate LedgerInv(s: State) {
    && LedgerExplainsStock(s) && RunningTotals(s.ledger) && OncePerTask(s.ledger) && SkusUnique(s)
    && forall m | m in s.ledger :: PaysExactly(s, m)
  }

  ghost predicate TxInv(s: State) {
    LocksExclusive(s) && forall x | x in s.txs :: TxOk(s, s.txs[x])
  }

  ghost predicate Inv(s: State) {
    LedgerInv(s) && OneEventPerClose(s) && TxInv(s)
  }

  // ---------------------------------------------------------------------------------------------
  // Every statement keeps the invariant
  // ---------------------------------------------------------------------------------------------

  /** What no transaction ever takes back: closed tasks are frozen, items keep their SKU, the ledger grows. */
  ghost predicate Extends(s: State, s': State) {
    && (forall t | t in s.tasks && s.tasks[t].status == CLOSED :: t in s'.tasks && s'.tasks[t] == s.tasks[t])
    && (forall i | i in s.items :: i in s'.items && s'.items[i].sku == s.items[i].sku)
    && |s.ledger| <= |s'.ledger| && s'.ledger[..|s.ledger|] == s.ledger
  }

  lemma PlanIsOwed(checklist: Checklist, sku: string)
    ensures sku in PlanOf(checklist) <==> Total(checklist.List(), sku) > 0
    ensures sku in PlanOf(checklist) ==> PlanOf(checklist)[sku] == Total(checklist.List(), sku)
  {
    TotalIsPositiveExactlyWhenTicked(checklist.List(), sku);
  }

  /** The plan by the lines' fields: amounts says what each line takes of the SKU. */
  lemma PlanSumsLines(checklist: Checklist, sku: string, amounts: seq<nat>)
    requires Amounts(checklist.List(), sku, amounts)
    ensures sku in PlanOf(checklist) <==> Sum(amounts) > 0
    ensures sku in PlanOf(checklist) ==> PlanOf(checklist)[sku] == Sum(amounts)
  {
    TotalIsSum(checklist.List(), sku, amounts);
    PlanIsOwed(checklist, sku);
  }

  lemma DeductedSurvives(s: State, s': State, t: TaskId, i: ItemId)
    requires Extends(s, s') && Deducted(s.ledger, t, i)
    ensures Deducted(s'.ledger, t, i)
  {
    var m :| m in s.ledger && m.item == i && m.task == Some(t) && m.reason == TASK_CONSUMPTION;
    assert m in s'.ledger[..|s.ledger|];
  }

  lemma TxSurvives(s: State, s': State, tx: Tx)
    requires Extends(s, s') && TxOk(s, tx)
    requires forall m | m in tx.moves :: s'.items[m.item].quantity == s.items[m.item].quantity
    ensures TxOk(s', tx)
  {
    if tx.Consume? && tx.phase.Deducting? {
      forall i | i in tx.phase.known && Deducted(s.ledger, tx.task, i) ensures Deducted(s'.ledger, tx.task, i) {
        DeductedSurvives(s, s', tx.task, i);
      }
    }
  }

  /** A statement that leaves the items of pending movements alone keeps all transactions. */
  lemma TxsSurvive(s: State, s': State)
    requires Extends(s, s') && TxInv(s) && s'.txs == s.txs
    requires forall i | i in s.items :: s'.items[i] == s.items[i]
    ensures TxInv(s')
  {
    forall x | x in s'.txs ensures TxOk(s', s'.txs[x]) {
      TxSurvives(s, s', s.txs[x]);
    }
  }

  /** Starting, advancing or ending one transaction, with nothing committed. */
  lemma TxChanges(s: State, s': State, x: TxId)
    requires TxInv(s) && s' == s.(txs := s'.txs)
    requires s'.txs - {x} == s.txs - {x}
    requires x in s'.txs ==> TxOk(s, s'.txs[x]) && forall i | Moves(s'.txs[x].moves, i) :: Free(s, x, i)
    ensures TxInv(s')
  {
    assert forall y | y in s'.txs && y != x :: y in s'.txs - {x} && s'.txs[y] == (s'.txs - {x})[y];
    assert forall y | y in s.txs && y != x :: y in s.txs - {x} && s.txs[y] == (s.txs - {x})[y];
    forall y | y in s'.txs ensures TxOk(s', s'.txs[y]) {
      TxSurvives(s, s', s'.txs[y]);
    }
  }

  /** Task statements touch neither stock nor pending movements. */
  lemma TaskStepKeeps(s: State, s': State)
    requires LedgerInv(s) && TxInv(s) && Extends(s, s')
    requires s'.items == s.items && s'.ledger == s.ledger && s'.txs == s.txs
    ensures LedgerInv(s') && TxInv(s')
  {
    forall m | m in s'.ledger ensures PaysExactly(s', m) {
      assert PaysExactly(s, m);
    }
    TxsSurvive(s, s');
  }

  lemma {:induction false} BalanceOfConcat(xs: seq<Movement>, ys: seq<Movement>, i: ItemId)
    ensures Balance(xs + ys, i) == Balance(xs, i) + Balance(ys, i)
  {
    if ys == [] {
      assert xs + ys == xs;
    } else {
      var front := ys[..|ys| - 1];
      BalanceOfConcat(xs, front, i);
      assert (xs + ys)[..|xs + ys| - 1] == xs + front;
    }
  }

  lemma {:induction false} BalanceOfUntouched(moves: seq<Movement>, i: ItemId)
    requires !Moves(moves, i)
    ensures Balance(moves, i) == 0
  {
    if moves != [] {
      var front := moves[..|moves| - 1];
      assert moves[|moves| - 1] in moves && forall m | m in front :: m in moves;
      BalanceOfUntouched(front, i);
    }
  }

  lemma {:induction false} BalanceOfDistinct(moves: seq<Movement>, k: nat)
    requires DistinctItems(moves) && k < |moves|
    ensures Balance(moves, moves[k].item) == moves[k].delta
  {
    var front, last := moves[..|moves| - 1], moves[|moves| - 1];
    if k < |front| {
      BalanceOfDistinct(front, k);
    } else {
      BalanceOfUntouched(front, last.item);
    }
  }

  /** Committing movements that fit the current quantities keeps every running total. */
  lemma RunningTotalsGrow(ledger: seq<Movement>, moves: seq<Movement>)
    requires RunningTotals(ledger) && DistinctItems(moves)
    requires forall m | m in moves :: m.quantityAfter == Balance(ledger, m.item) + m.delta >= 0
    ensures RunningTotals(ledger + moves)
  {
    var all := ledger + moves;
    forall k | 0 <= k < |all| ensures all[k].quantityAfter == Balance(all[..k + 1], all[k].item) >= 0 {
      if k < |ledger| {
        assert all[..k + 1] == ledger[..k + 1];
      } else {
        var j := k - |ledger|;
        assert all[..k + 1] == ledger + moves[..j + 1] && moves[j] in moves;
        BalanceOfConcat(ledger, moves[..j + 1], moves[j].item);
        BalanceOfDistinct(moves[..j + 1], j);
      }
    }
  }

  /** The quantity of an item, zero before it exists. */
  function Before(items: map<ItemId, Item>, i: ItemId): int {
    if i in items then items[i].quantity else 0
  }

  /** moves are committed: each moved item gets its new quantity and the others keep theirs. */
  ghost predicate Books(s: State, s': State, moves: seq<Movement>) {
    && s'.ledger == s.ledger + moves && DistinctItems(moves) && s.items.Keys <= s'.items.Keys
    && (forall m | m in moves :: m.item in s'.items && 0 <= m.quantityAfter <= MAX_INT4)
    && (forall m | m in moves :: m.quantityAfter == s'.items[m.item].quantity == Before(s.items, m.item) + m.delta)
    && (forall i | i in s'.items && !Moves(moves, i) :: s'.items[i].quantity == Before(s.items, i))
  }

  lemma BooksExplain(s: State, s': State, moves: seq<Movement>)
    requires LedgerExplainsStock(s) && Books(s, s', moves)
    ensures LedgerExplainsStock(s')
  {
    forall i | i in s'.items
      ensures s'.items[i].quantity == Balance(s'.ledger, i) && 0 <= s'.items[i].quantity <= MAX_INT4
    {
      BookedQuantity(s, s', moves, i);
    }
    forall i | i !in s'.items ensures !Moves(s'.ledger, i) {
      assert !Moves(s.ledger, i);
    }
  }

  lemma BookedQuantity(s: State, s': State, moves: seq<Movement>, i: ItemId)
    requires LedgerExplainsStock(s) && Books(s, s', moves) && i in s'.items
    ensures s'.items[i].quantity == Balance(s'.ledger, i) && 0 <= s'.items[i].quantity <= MAX_INT4
  {
    BalanceOfConcat(s.ledger, moves, i);
    if i !in s.items {
      BalanceOfUntouched(s.ledger, i);
    }
    if k :| 0 <= k < |moves| && moves[k].item == i {
      BalanceOfDistinct(moves, k);
      assert moves[k] in moves;
    } else {
      assert !Moves(moves, i);
      BalanceOfUntouched(moves, i);
    }
  }

  lemma BooksRunningTotals(s: State, s': State, moves: seq<Movement>)
    requires LedgerExplainsStock(s) && RunningTotals(s.ledger) && Books(s, s', moves)
    ensures RunningTotals(s'.ledger)
  {
    forall m | m in moves ensures m.quantityAfter == Balance(s.ledger, m.item) + m.delta >= 0 {
      if m.item !in s.items {
        BalanceOfUntouched(s.ledger, m.item);
      }
    }
    RunningTotalsGrow(s.ledger, moves);
  }

  lemma OnceStillPerTask(ledger: seq<Movement>, moves: seq<Movement>)
    requires OncePerTask(ledger) && DistinctItems(moves) && !Collides(ledger, moves)
    requires forall m | m in moves && m.reason == TASK_CONSUMPTION :: m.task.Some?
    ensures OncePerTask(ledger + moves)
  {
    var all := ledger + moves;
    forall j, k | 0 <= j < k < |all| && all[j].reason == TASK_CONSUMPTION == all[k].reason
      ensures all[j].task != all[k].task || all[j].item != all[k].item
    {
      if j < |ledger| <= k {
        assert all[j] in ledger && all[k] in moves;
      }
    }
  }

  lemma BooksKeepLedger(s: State, s': State, moves: seq<Movement>)
    requires LedgerInv(s) && Extends(s, s') && Books(s, s', moves) && SkusUnique(s') && !Collides(s.ledger, moves)
    requires forall m | m in moves :: PaysExactly(s', m)
    ensures LedgerInv(s')
  {
    BooksExplain(s, s', moves);
    BooksRunningTotals(s, s', moves);
    OnceStillPerTask(s.ledger, moves);
    forall m | m in s'.ledger ensures PaysExactly(s', m) {
      if m in s.ledger {
        assert PaysExactly(s, m);
      }
    }
  }

  lemma OpeningBooks(s: State, s': State, i: ItemId, item: Item, opening: seq<Movement>)
    requires i !in s.items && 0 <= item.quantity <= MAX_INT4
    requires opening == if item.quantity != 0 then [Movement(i, item.quantity, item.quantity, RESTOCK, None)] else []
    requires s' == s.(items := s.items[i := item], ledger := s.ledger + opening)
    ensures Books(s, s', opening) && Extends(s, s') && !Collides(s.ledger, opening)
    ensures forall m | m in opening :: PaysExactly(s', m)
  {
    if item.quantity != 0 {
      assert opening[0] in opening;
    }
  }

  lemma NewSkuIsUnique(s: State, s': State, i: ItemId, item: Item)
    requires SkusUnique(s) && i !in s.items && !SkuTaken(s, item.sku) && s'.items == s.items[i := item]
    ensures SkusUnique(s')
  {
  }

  lemma CreateItemKeepsLedger(s: State, s': State, i: ItemId, item: Item, opening: seq<Movement>)
    requires LedgerInv(s) && i !in s.items && !SkuTaken(s, item.sku) && 0 <= item.quantity <= MAX_INT4
    requires opening == if item.quantity != 0 then [Movement(i, item.quantity, item.quantity, RESTOCK, None)] else []
    requires s' == s.(items := s.items[i := item], ledger := s.ledger + opening)
    ensures LedgerInv(s')
  {
    OpeningBooks(s, s', i, item, opening);
    NewSkuIsUnique(s, s', i, item);
    BooksKeepLedger(s, s', opening);
  }

  lemma CreateItemKeeps(s: State, s': State, i: ItemId, item: Item, opening: seq<Movement>)
    requires LedgerInv(s) && TxInv(s) && i !in s.items && !SkuTaken(s, item.sku) && 0 <= item.quantity <= MAX_INT4
    requires opening == if item.quantity != 0 then [Movement(i, item.quantity, item.quantity, RESTOCK, None)] else []
    requires s' == s.(items := s.items[i := item], ledger := s.ledger + opening)
    ensures LedgerInv(s') && TxInv(s')
  {
    CreateItemKeepsLedger(s, s', i, item, opening);
    OpeningBooks(s, s', i, item, opening);
    TxsSurvive(s, s');
  }

  /** The items the plan knows owe what the plan says. */
  lemma KnownIsPlanned(s: State, t: TaskId, plan: map<string, nat>, known: map<ItemId, nat>)
    requires t in s.tasks && plan == PlanOf(s.tasks[t].checklist)
    requires known == map i | i in s.items && s.items[i].sku in plan :: plan[s.items[i].sku]
    ensures Planned(s, t, known)
  {
    forall i | i in known ensures known[i] == Owed(s, t, i) > 0 {
      PlanIsOwed(s.tasks[t].checklist, s.items[i].sku);
    }
  }

  lemma DeliverKeeps(s: State, x: TxId, t: TaskId)
    requires TxInv(s) && OneEventPerClose(s)
    ensures TxInv(Apply(s, Deliver(x, t)))
  {
    var s' := Apply(s, Deliver(x, t));
    if s' != s {
      TxChanges(s, s', x);
    }
  }

  lemma ReadItemsKeeps(s: State, x: TxId)
    requires TxInv(s)
    ensures TxInv(Apply(s, ReadItems(x)))
  {
    var s' := Apply(s, ReadItems(x));
    if s' != s {
      assert TxOk(s, s.txs[x]);
      KnownIsPlanned(s, s.txs[x].task, s.txs[x].phase.plan, s'.txs[x].phase.known);
      TxChanges(s, s', x);
    }
  }

  lemma ReadLedgerKeeps(s: State, x: TxId)
    requires TxInv(s)
    ensures TxInv(Apply(s, ReadLedger(x)))
  {
    var s' := Apply(s, ReadLedger(x));
    if s' != s {
      assert TxOk(s, s.txs[x]);
      TxChanges(s, s', x);
    }
  }

  lemma EndKeeps(s: State, x: TxId)
    requires TxInv(s)
    ensures TxInv(End(s, x))
  {
    TxChanges(s, End(s, x), x);
  }

  lemma DeductKeeps(s: State, x: TxId, i: ItemId)
    requires TxInv(s) && LedgerExplainsStock(s)
    ensures TxInv(Apply(s, Deduct(x, i)))
  {
    var s' := Apply(s, Deduct(x, i));
    if x !in s'.txs {
      EndKeeps(s, x);
    } else if s' != s {
      DeductedTxOk(s, s.txs[x], i);
      LocksAfter(s.txs[x].moves, s'.txs[x].moves[|s.txs[x].moves|]);
      TxChanges(s, s', x);
    }
  }

  lemma LocksAfter(moves: seq<Movement>, move: Movement)
    ensures forall i :: Moves(moves + [move], i) <==> Moves(moves, i) || i == move.item
  {
    assert (moves + [move])[|moves|] == move;
    forall i | Moves(moves, i) ensures Moves(moves + [move], i) {
      var m :| m in moves && m.item == i;
      assert m in moves + [move];
    }
  }

  lemma DeductedTxOk(s: State, tx: Tx, i: ItemId)
    requires TxOk(s, tx) && tx.Consume? && tx.phase.Deducting? && i in tx.phase.todo
    requires tx.phase.todo[i] <= s.items[i].quantity <= MAX_INT4
    ensures var need := tx.phase.todo[i];
      var move := Deduction(s, tx.task, i, need);
      TxOk(s, Consume(tx.task, tx.phase.(todo := tx.phase.todo - {i}), tx.moves + [move]))
  {
    var move := Deduction(s, tx.task, i, tx.phase.todo[i]);
    LocksAfter(tx.moves, move);
    assert PaysExactly(s, move);
    forall j, k | 0 <= j < k <= |tx.moves| ensures (tx.moves + [move])[j].item != (tx.moves + [move])[k].item {
      assert k == |tx.moves| ==> tx.moves[j] in tx.moves;
    }
  }

  lemma UpdateQuantityKeeps(s: State, x: TxId, i: ItemId, delta: int)
    requires TxInv(s)
    ensures TxInv(Apply(s, UpdateQuantity(x, i, delta)))
  {
    var s' := Apply(s, UpdateQuantity(x, i, delta));
    if s' != s {
      TxChanges(s, s', x);
    }
  }

  lemma {:induction false} SettleMoved(items: map<ItemId, Item>, moves: seq<Movement>, k: nat)
    requires DistinctItems(moves) && k < |moves| && moves[k].item in items
    ensures Settle(items, moves)[moves[k].item].quantity == moves[k].quantityAfter
  {
    if k < |moves| - 1 {
      SettleMoved(items, moves[..|moves| - 1], k);
    }
  }

  lemma {:induction false} SettleUnmoved(items: map<ItemId, Item>, moves: seq<Movement>, i: ItemId)
    requires i in items && !Moves(moves, i)
    ensures Settle(items, moves)[i] == items[i]
  {
    if moves != [] {
      var front := moves[..|moves| - 1];
      assert moves[|moves| - 1] in moves && forall m | m in front :: m in moves;
      SettleUnmoved(items, front, i);
    }
  }

  lemma SettleBooks(s: State, s': State, moves: seq<Movement>)
    requires LedgerExplainsStock(s) && MovesFit(s, moves)
    requires s'.items == Settle(s.items, moves) && s'.ledger == s.ledger + moves
    ensures Books(s, s', moves)
  {
    forall k | 0 <= k < |moves| ensures s'.items[moves[k].item].quantity == moves[k].quantityAfter {
      assert moves[k] in moves;
      SettleMoved(s.items, moves, k);
    }
    forall i | i in s'.items && !Moves(moves, i) ensures s'.items[i].quantity == s.items[i].quantity {
      SettleUnmoved(s.items, moves, i);
    }
  }

  /** What x commits is not locked by anyone else. */
  lemma CommittedApart(s: State, x: TxId, y: TxId)
    requires LocksExclusive(s) && x in s.txs && y in s.txs && x != y
    ensures forall m | m in s.txs[y].moves :: !Moves(s.txs[x].moves, m.item)
  {
    forall m | m in s.txs[y].moves ensures !Moves(s.txs[x].moves, m.item) {
      assert Moves(s.txs[y].moves, m.item);
    }
  }

  lemma CommitKeepsTxs(s: State, s': State, x: TxId)
    requires TxInv(s) && x in s.txs && s'.txs == s.txs - {x} && Extends(s, s')
    requires forall i | i in s.items && !Moves(s.txs[x].moves, i) :: s'.items[i].quantity == s.items[i].quantity
    ensures TxInv(s')
  {
    forall y | y in s'.txs ensures TxOk(s', s'.txs[y]) {
      CommittedApart(s, x, y);
      assert TxOk(s, s.txs[y]);
      TxSurvives(s, s', s.txs[y]);
    }
  }

  lemma CommitKeeps(s: State, s': State, x: TxId)
    requires LedgerInv(s) && TxInv(s) && x in s.txs && !Collides(s.ledger, s.txs[x].moves)
    requires s' == End(s, x).(items := Settle(s.items, s.txs[x].moves), ledger := s.ledger + s.txs[x].moves)
    ensures LedgerInv(s') && TxInv(s')
  {
    var moves := s.txs[x].moves;
    assert TxOk(s, s.txs[x]);
    SettleBooks(s, s', moves);
    assert Extends(s, s');
    assert SkusUnique(s');
    forall m | m in moves ensures PaysExactly(s', m) {
      assert PaysExactly(s, m);
    }
    BooksKeepLedger(s, s', moves);
    CommitKeepsTxs(s, s', x);
  }

  lemma RowsKeep(s: State, s': State)
    requires LedgerInv(s) && OneEventPerClose(s)
    requires s'.items == s.items && s'.ledger == s.ledger && s'.tasks == s.tasks && s'.outbox == s.outbox
    ensures LedgerInv(s') && OneEventPerClose(s')
  {
    forall m | m in s'.ledger ensures PaysExactly(s', m) {
      assert PaysExactly(s, m);
    }
  }

  lemma CloseTaskKeeps(s: State, t: TaskId, final: Option<Checklist>)
    requires Inv(s)
    ensures Inv(Apply(s, CloseTask(t, final)))
  {
    var s' := Apply(s, CloseTask(t, final));
    assert Extends(s, s');
    TaskStepKeeps(s, s');
  }

  lemma OtherTaskStepKeeps(s: State, a: Action)
    requires Inv(s) && (a.CreateTask? || a.MoveTask?)
    ensures Inv(Apply(s, a))
  {
    StepExtends(s, a);
    TaskStepKeeps(s, Apply(s, a));
  }

  lemma CreateItemStepKeeps(s: State, i: ItemId, sku: string, quantity: int)
    requires Inv(s)
    ensures Inv(Apply(s, CreateItem(i, sku, quantity)))
  {
    var s' := Apply(s, CreateItem(i, sku, quantity));
    if s' != s {
      CreateItemKeeps(s, s', i, Item(sku, quantity), s'.ledger[|s.ledger|..]);
    }
  }

  lemma GivingUpKeeps(s: State, s': State, x: TxId)
    requires Inv(s) && s' == End(s, x)
    ensures Inv(s')
  {
    EndKeeps(s, x);
    RowsKeep(s, s');
  }

  lemma SameEvents(s: State, s': State)
    requires OneEventPerClose(s) && s'.tasks == s.tasks && s'.outbox == s.outbox
    ensures OneEventPerClose(s')
  {
  }

  ghost predicate Writes(s: State, x: TxId, s': State) {
    && x in s.txs && !Collides(s.ledger, s.txs[x].moves)
    && s' == End(s, x).(items := Settle(s.items, s.txs[x].moves), ledger := s.ledger + s.txs[x].moves)
  }

  lemma WritingKeeps(s: State, s': State, x: TxId)
    requires Inv(s) && Writes(s, x, s')
    ensures Inv(s')
  {
    CommitKeeps(s, s', x);
    SameEvents(s, s');
  }

  lemma CommitWritesOrGivesUp(s: State, x: TxId)
    ensures var s' := Apply(s, Commit(x)); s' == s || s' == End(s, x) || Writes(s, x, s')
  {
  }

  lemma CommitStepKeeps(s: State, x: TxId)
    requires Inv(s)
    ensures Inv(Apply(s, Commit(x)))
  {
    var s' := Apply(s, Commit(x));
    CommitWritesOrGivesUp(s, x);
    if s' == End(s, x) {
      GivingUpKeeps(s, s', x);
    } else if s' != s {
      WritingKeeps(s, s', x);
    }
  }

  lemma TxStepKeeps(s: State, a: Action)
    requires Inv(s) && Uncommitted(a)
    ensures TxInv(Apply(s, a))
  {
    match a
    case Deliver(x, t) => DeliverKeeps(s, x, t);
    case ReadItems(x) => ReadItemsKeeps(s, x);
    case ReadLedger(x) => ReadLedgerKeeps(s, x);
    case Deduct(x, i) => DeductKeeps(s, x, i);
    case UpdateQuantity(x, i, delta) => UpdateQuantityKeeps(s, x, i, delta);
    case Rollback(x) => EndKeeps(s, x);
  }

  predicate Uncommitted(a: Action) {
    a.Deliver? || a.ReadItems? || a.ReadLedger? || a.Deduct? || a.UpdateQuantity? || a.Rollback?
  }

  /** Until it commits, a transaction changes nothing but itself: a shortfall or a rollback leaves all rows as
      they were. */
  lemma TxStepOnly(s: State, a: Action)
    requires Uncommitted(a)
    ensures Apply(s, a) == s.(txs := Apply(s, a).txs)
  {
  }

  /** No statement of any transaction breaks the invariant. */
  lemma StepKeeps(s: State, a: Action)
    requires Inv(s)
    ensures Inv(Apply(s, a))
  {
    match a
    case CreateTask(t, checklist) => OtherTaskStepKeeps(s, a);
    case MoveTask(t, status) => OtherTaskStepKeeps(s, a);
    case CloseTask(t, final) => CloseTaskKeeps(s, t, final);
    case CreateItem(i, sku, quantity) => CreateItemStepKeeps(s, i, sku, quantity);
    case Commit(x) => CommitStepKeeps(s, x);
    case _ =>
      TxStepKeeps(s, a);
      TxStepOnly(s, a);
      RowsKeep(s, Apply(s, a));
  }

  lemma {:induction false} RunKeeps(acts: seq<Action>)
    ensures Inv(Run(acts))
  {
    if acts != [] {
      RunKeeps(acts[..|acts| - 1]);
      StepKeeps(Run(acts[..|acts| - 1]), acts[|acts| - 1]);
    }
  }

  // ---------------------------------------------------------------------------------------------
  // What holds over whole runs
  // ---------------------------------------------------------------------------------------------

  /** Stock reconciles: quantities are the sums of committed deltas, every quantityAfter is the running
      total in commit order, and nothing is ever negative. */
  lemma {:induction false} StockReconciles(acts: seq<Action>)
    ensures var s := Run(acts);
      && (forall i | i in s.items :: s.items[i].quantity == Balance(s.ledger, i) >= 0)
      && (forall k | 0 <= k < |s.ledger| ::
            s.ledger[k].quantityAfter == Balance(s.ledger[..k + 1], s.ledger[k].item) >= 0)
  {
    RunKeeps(acts);
  }

  /** What the ledger says a task has taken of an item. */
  function Taken(ledger: seq<Movement>, t: TaskId, i: ItemId): int {
    if ledger == [] then 0 else
      var last := ledger[|ledger| - 1];
      Taken(ledger[..|ledger| - 1], t, i)
      - if last.reason == TASK_CONSUMPTION && last.task == Some(t) && last.item == i then last.delta else 0
  }

  lemma {:induction false} TakenOnce(s: State, n: nat, t: TaskId, i: ItemId)
    requires n <= |s.ledger| && OncePerTask(s.ledger) && t in s.tasks && i in s.items
    requires forall m | m in s.ledger :: PaysExactly(s, m)
    ensures Taken(s.ledger[..n], t, i) == if Deducted(s.ledger[..n], t, i) then Owed(s, t, i) else 0
  {
    if n > 0 {
      var front, last := s.ledger[..n - 1], s.ledger[n - 1];
      assert s.ledger[..n] == front + [last] && last in s.ledger;
      assert s.ledger[..n][..n - 1] == front;
      TakenOnce(s, n - 1, t, i);
      if last.reason == TASK_CONSUMPTION && last.task == Some(t) && last.item == i {
        assert PaysExactly(s, last);
        assert last in s.ledger[..n];
        assert !Deducted(front, t, i);
      } else {
        assert Deducted(s.ledger[..n], t, i) <==> Deducted(front, t, i) by {
          assert forall m :: m in s.ledger[..n] <==> m in front || m == last;
        }
      }
    }
  }

  /** Whatever interleaves, a task takes of an item nothing at all or exactly what its final checklist
      ticks for that SKU, and something only once it is closed. */
  lemma {:induction false} TakenNothingOrExactly(acts: seq<Action>, t: TaskId, i: ItemId)
    requires t in Run(acts).tasks && i in Run(acts).items
    ensures var s := Run(acts);
      || Taken(s.ledger, t, i) == 0
      || (s.tasks[t].status == CLOSED && Taken(s.ledger, t, i) == Total(s.tasks[t].checklist.List(), s.items[i].sku))
  {
    var s := Run(acts);
    RunKeeps(acts);
    assert s.ledger[..|s.ledger|] == s.ledger;
    TakenOnce(s, |s.ledger|, t, i);
    if Deducted(s.ledger, t, i) {
      var m :| m in s.ledger && m.item == i && m.task == Some(t) && m.reason == TASK_CONSUMPTION;
      assert PaysExactly(s, m);
    }
  }

  lemma StepExtends(s: State, a: Action)
    ensures Extends(s, Apply(s, a))
  {
  }

  lemma LastStepExtends(acts: seq<Action>, more: seq<Action>)
    requires more != []
    ensures Extends(Run(acts + more[..|more| - 1]), Run(acts + more))
  {
    assert (acts + more)[..|acts + more| - 1] == acts + more[..|more| - 1];
    StepExtends(Run(acts + more[..|more| - 1]), more[|more| - 1]);
  }

  lemma {:induction false} RunExtends(acts: seq<Action>, more: seq<Action>)
    ensures Extends(Run(acts), Run(acts + more))
  {
    if more == [] {
      assert acts + more == acts;
    } else {
      var front := more[..|more| - 1];
      RunExtends(acts, front);
      LastStepExtends(acts, more);
      ExtendsFurther(Run(acts), Run(acts + front), Run(acts + more));
    }
  }

  lemma ExtendsFurther(s: State, m: State, e: State)
    requires Extends(s, m) && Extends(m, e)
    ensures Extends(s, e)
  {
    assert e.ledger[..|s.ledger|] == e.ledger[..|m.ledger|][..|s.ledger|];
  }

  /** Closing is final, freezes the checklist and writes exactly one event, whatever happens later. */
  lemma ClosedForGood(acts: seq<Action>, more: seq<Action>, t: TaskId)
    requires t in Run(acts).tasks && Run(acts).tasks[t].status == CLOSED
    ensures var s, e := Run(acts), Run(acts + more);
      && t in e.tasks && e.tasks[t] == s.tasks[t]
      && multiset(e.outbox)[t] == 1
  {
    RunExtends(acts, more);
    RunKeeps(acts + more);
    CountOnce(Run(acts + more).outbox, t);
  }

  lemma {:induction false} CountOnce(ts: seq<TaskId>, t: TaskId)
    requires forall j, k | 0 <= j < k < |ts| :: ts[j] != ts[k]
    ensures multiset(ts)[t] == if t in ts then 1 else 0
  {
    if ts != [] {
      var front, last := ts[..|ts| - 1], ts[|ts| - 1];
      CountOnce(front, t);
      assert ts == front + [last];
      assert forall j | 0 <= j < |front| :: front[j] == ts[j] && ts[j] != last;
    }
  }

  ghost predicate ReadyToCommit(s: State, x: TxId) {
    x in s.txs && s.txs[x].Consume? && s.txs[x].phase.Deducting? && s.txs[x].phase.todo == map[]
  }

  predicate SameRows(s: State, s': State) {
    s'.items == s.items && s'.ledger == s.ledger && s'.tasks == s.tasks && s'.outbox == s.outbox
  }

  /** All or nothing: a consumption that commits leaves every item its plan knew deducted, one that
      loses the race for the unique key changes no row. */
  lemma CommitIsAllOrNothing(s: State, x: TxId)
    requires ReadyToCommit(s, x) && TxOk(s, s.txs[x])
    ensures var s', t, known := Apply(s, Commit(x)), s.txs[x].task, s.txs[x].phase.known;
      if Collides(s.ledger, s.txs[x].moves) then SameRows(s, s')
      else forall i | i in known :: Deducted(s'.ledger, t, i)
  {
    AllKnownDeducted(s, s.txs[x]);
    if !Collides(s.ledger, s.txs[x].moves) {
      assert Apply(s, Commit(x)).ledger == s.ledger + s.txs[x].moves;
    }
  }

  lemma AllKnownDeducted(s: State, tx: Tx)
    requires TxOk(s, tx) && tx.Consume? && tx.phase.Deducting? && tx.phase.todo == map[]
    ensures forall i | i in tx.phase.known :: Deducted(s.ledger + tx.moves, tx.task, i)
  {
    forall i | i in tx.phase.known ensures Deducted(s.ledger + tx.moves, tx.task, i) {
      DeductedEitherWay(s.ledger, tx.moves, tx.task, i);
    }
  }

  lemma DeductedEitherWay(ledger: seq<Movement>, moves: seq<Movement>, t: TaskId, i: ItemId)
    requires Moves(moves, i) || Deducted(ledger, t, i)
    requires forall m | m in moves :: m.reason == TASK_CONSUMPTION && m.task == Some(t)
    ensures Deducted(ledger + moves, t, i)
  {
    if m :| m in moves && m.item == i {
      assert m in ledger + moves;
    } else {
      var m :| m in ledger && m.item == i && m.task == Some(t) && m.reason == TASK_CONSUMPTION;
      assert m in ledger + moves;
    }
  }

  lemma NothingLeftToWrite(s: State, x: TxId)
    requires ReadyToCommit(s, x) && TxOk(s, s.txs[x])
    requires forall i | i in s.txs[x].phase.known :: Deducted(s.ledger, s.txs[x].task, i)
    ensures s.txs[x].moves == [] || Collides(s.ledger, s.txs[x].moves)
  {
    var moves := s.txs[x].moves;
    if moves != [] {
      var m := moves[0];
      assert m in moves;
      var n :| n in s.ledger && n.item == m.item && n.task == Some(s.txs[x].task) && n.reason == TASK_CONSUMPTION;
      assert m.task == n.task;
    }
  }

  /** Delivering an event again, when all its known items are deducted, is a no-op. */
  lemma RedeliveryIsNoop(s: State, x: TxId)
    requires Inv(s) && ReadyToCommit(s, x)
    requires forall i | i in s.txs[x].phase.known :: Deducted(s.ledger, s.txs[x].task, i)
    ensures SameRows(s, Apply(s, Commit(x)))
  {
    assert TxOk(s, s.txs[x]);
    NothingLeftToWrite(s, x);
    assert s.txs[x].moves == [] ==> s.ledger + s.txs[x].moves == s.ledger;
  }

  /** A committed delivery leaves the items it knew deducted for good. */
  lemma DeliveredForGood(acts: seq<Action>, x: TxId, more: seq<Action>, i: ItemId)
    requires ReadyToCommit(Run(acts), x) && !Collides(Run(acts).ledger, Run(acts).txs[x].moves)
    requires i in Run(acts).txs[x].phase.known
    ensures Deducted(Run(acts + [Commit(x)] + more).ledger, Run(acts).txs[x].task, i)
  {
    var s, done := Run(acts), acts + [Commit(x)];
    RunKeeps(acts);
    CommitIsAllOrNothing(s, x);
    assert done[..|done| - 1] == acts;
    RunExtends(done, more);
    DeductedSurvives(Run(done), Run(done + more), s.txs[x].task, i);
  }

  lemma DeductedIsNotWritten(s: State, y: TxId, m: Movement)
    requires ReadyToCommit(s, y) && TxOk(s, s.txs[y]) && m in s.txs[y].moves
    requires Deducted(s.ledger, s.txs[y].task, m.item)
    ensures Collides(s.ledger, s.txs[y].moves)
  {
    var n :| n in s.ledger && n.item == m.item && n.task == Some(s.txs[y].task) && n.reason == TASK_CONSUMPTION;
    assert m.task == n.task && m.reason == n.reason;
  }

  /** The step adds no movement of these items. */
  ghost predicate TakesNoneOf(s: State, s': State, items: set<ItemId>) {
    |s.ledger| <= |s'.ledger| && forall k | |s.ledger| <= k < |s'.ledger| :: s'.ledger[k].item !in items
  }

  lemma CommitTakesNoneOf(s: State, y: TxId, items: set<ItemId>)
    requires ReadyToCommit(s, y) && TxOk(s, s.txs[y])
    requires forall i | i in items :: Deducted(s.ledger, s.txs[y].task, i)
    ensures TakesNoneOf(s, Apply(s, Commit(y)), items)
  {
    var moves := s.txs[y].moves;
    if !Collides(s.ledger, moves) {
      assert Apply(s, Commit(y)).ledger == s.ledger + moves;
      forall k | 0 <= k < |moves| ensures moves[k].item !in items {
        if moves[k].item in items {
          DeductedIsNotWritten(s, y, moves[k]);
        }
      }
    }
  }

  /** Whatever happens after a committed delivery, a later delivery for the same task takes of no item the first
      one knew, and changes no row when it knows no others. */
  lemma {:induction false} SecondDelivery(acts: seq<Action>, x: TxId, more: seq<Action>, y: TxId)
    requires ReadyToCommit(Run(acts), x) && !Collides(Run(acts).ledger, Run(acts).txs[x].moves)
    requires ReadyToCommit(Run(acts + [Commit(x)] + more), y)
    requires Run(acts + [Commit(x)] + more).txs[y].task == Run(acts).txs[x].task
    ensures var s, first := Run(acts + [Commit(x)] + more), Run(acts).txs[x].phase.known.Keys;
      && TakesNoneOf(s, Apply(s, Commit(y)), first)
      && (s.txs[y].phase.known.Keys <= first ==> SameRows(s, Apply(s, Commit(y))))
  {
    var s, first := Run(acts + [Commit(x)] + more), Run(acts).txs[x].phase.known.Keys;
    RunKeeps(acts + [Commit(x)] + more);
    assert TxOk(s, s.txs[y]);
    forall i | i in first ensures Deducted(s.ledger, s.txs[y].task, i) {
      DeliveredForGood(acts, x, more, i);
    }
    CommitTakesNoneOf(s, y, first);
    if s.txs[y].phase.known.Keys <= first {
      RedeliveryIsNoop(s, y);
    }
  }

  /** The decrement loop of transaction x over the items in the given order. */
  function DeductAll(s: State, x: TxId, order: seq<ItemId>): State
    decreases |order|
  {
    if order == [] then s else DeductAll(Apply(s, Deduct(x, order[0])), x, order[1..])
  }

  predicate Covered(s: State, todo: map<ItemId, nat>) {
    forall i | i in todo :: i in s.items && todo[i] <= s.items[i].quantity && todo[i] <= MAX_INT4
  }

  lemma {:induction false} GoneStaysGone(s: State, x: TxId, order: seq<ItemId>)
    requires x !in s.txs
    ensures DeductAll(s, x, order) == s
    decreases |order|
  {
    if order != [] {
      GoneStaysGone(s, x, order[1..]);
    }
  }

  /** One pass of the loop: the item is covered and leaves the work, or the transaction ends. */
  lemma OneDeduction(s: State, x: TxId, i: ItemId)
    requires x in s.txs && s.txs[x].Consume? && s.txs[x].phase.Deducting? && i in s.txs[x].phase.todo
    requires forall j | j in s.txs[x].phase.todo :: j in s.items && Free(s, x, j)
    ensures var s1, todo := Apply(s, Deduct(x, i)), s.txs[x].phase.todo;
      && SameRows(s, s1) && End(s1, x) == End(s, x)
      && (x !in s1.txs ==> s1 == End(s, x) && !Covered(s, todo))
      && (x in s1.txs ==>
            && s1.txs[x].Consume? && s1.txs[x].phase.Deducting? && s1.txs[x].phase.todo == todo - {i}
            && (forall j | j in todo - {i} :: j in s1.items && Free(s1, x, j))
            && (Covered(s, todo) <==> Covered(s1, todo - {i})))
  {
  }

  /** Undisturbed, the loop gets through exactly when every item covers its total; any shortfall ends the
      transaction with no row changed. The order of the items does not matter. */
  lemma {:induction false} LoopSucceedsIffCovered(s: State, x: TxId, order: seq<ItemId>)
    requires x in s.txs && s.txs[x].Consume? && s.txs[x].phase.Deducting?
    requires forall j, k | 0 <= j < k < |order| :: order[j] != order[k]
    requires forall i :: i in order <==> i in s.txs[x].phase.todo
    requires forall i | i in s.txs[x].phase.todo :: i in s.items && Free(s, x, i)
    ensures var s', todo := DeductAll(s, x, order), s.txs[x].phase.todo;
      && SameRows(s, s')
      && (Covered(s, todo) <==> ReadyToCommit(s', x))
      && (!Covered(s, todo) ==> s' == End(s, x))
    decreases |order|
  {
    var todo := s.txs[x].phase.todo;
    if order == [] {
      assert todo == map[];
      return;
    }
    var i, s1 := order[0], Apply(s, Deduct(x, order[0]));
    assert i in order;
    OneDeduction(s, x, i);
    if x !in s1.txs {
      GoneStaysGone(s1, x, order[1..]);
    } else {
      assert forall j :: j in order[1..] <==> j in order && j != i;
      LoopSucceedsIffCovered(s1, x, order[1..]);
    }
  }

  // ---------------------------------------------------------------------------------------------
  // What the steps do and the rows say, in terms of the rows alone
  // ---------------------------------------------------------------------------------------------

  /** An item is created exactly under a new SKU with an opening stock within bounds, and its stock is the
      first movement. */
  lemma CreatesExactlyWhen(s: State, i: ItemId, sku: string, quantity: int)
    requires i !in s.items
    ensures var s' := Apply(s, CreateItem(i, sku, quantity));
      if 0 <= quantity <= 1_000_000 && forall j | j in s.items :: s.items[j].sku != sku
      then s' == s.(items := s.items[i := Item(sku, quantity)], ledger := s'.ledger)
           && s'.ledger == s.ledger + if quantity == 0 then [] else [Movement(i, quantity, quantity, RESTOCK, None)]
      else s' == s
  {
  }

  /** A decrement waits exactly while another transaction has a movement of the item pending. */
  lemma WaitsExactlyWhen(s: State, x: TxId, i: ItemId)
    requires x in s.txs && s.txs[x].Consume? && s.txs[x].phase.Deducting? && i in s.txs[x].phase.todo && i in s.items
    ensures Apply(s, Deduct(x, i)) == s <==>
            exists y, m | y in s.txs && y != x && m in s.txs[y].moves :: m.item == i
  {
    var s' := Apply(s, Deduct(x, i));
    if Free(s, x, i) {
      assert x in s'.txs ==> s'.txs[x] != s.txs[x] by {
        assert x in s'.txs ==> i !in s'.txs[x].phase.todo;
      }
      forall y, m | y in s.txs && y != x && m in s.txs[y].moves ensures m.item != i {
        assert !Moves(s.txs[y].moves, i);
      }
    } else {
      var y :| y in s.txs && y != x && Moves(s.txs[y].moves, i);
      var m :| m in s.txs[y].moves && m.item == i;
    }
  }

  /** Consumptions are the movements of tasks, restocks add, and manual corrections take away. */
  predicate ReasonFits(m: Movement) {
    match m.reason
    case TASK_CONSUMPTION => m.task != None && m.delta <= 0
    case RESTOCK => m.task == None && m.delta > 0
    case MANUAL_ADJUSTMENT => m.task == None && m.delta <= 0
  }

  ghost predicate ReasonsFit(s: State) {
    && (forall m | m in s.ledger :: ReasonFits(m))
    && forall x, m | x in s.txs && m in s.txs[x].moves :: ReasonFits(m)
  }

  lemma StepKeepsReasons(s: State, a: Action)
    requires ReasonsFit(s)
    ensures ReasonsFit(Apply(s, a))
  {
  }

  /** Every movement ever committed has the reason that its task and its sign call for. */
  lemma {:induction false} ReasonsAlwaysFit(acts: seq<Action>)
    ensures ReasonsFit(Run(acts))
  {
    if acts != [] {
      ReasonsAlwaysFit(acts[..|acts| - 1]);
      StepKeepsReasons(Run(acts[..|acts| - 1]), acts[|acts| - 1]);
    }
  }
}
