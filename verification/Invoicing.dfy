/** Invoice runs of all tenants, interleaved statement by statement at READ COMMITTED.

    A run prepares its lines in one transaction (three reads, each seeing what is committed at that
    moment) and writes in a second one, numbered under an advisory lock keyed by a hash of the tenant,
    so that tenants whose hashes collide merely wait for each other. Inserting the lines is the last
    statement, so it is one step with the uniqueness checks and the commit. */
module Invoicing {
  import opened Prelude
  import opened Checklist
  import opened Billing

  type TenantId = string
  type CustomerId = nat
  type RunId = nat

  datatype Task = Task(tenant: TenantId, customer: CustomerId, closedAt: Option<nat>, checklist: Checklist)

  /** What the lines of a run were computed from. */
  datatype Basis = Basis(tasks: seq<ClosedTask>, prices: Prices)

  datatype Draft = Draft(lines: seq<LineItem>, total: int, basis: Basis)

  /** from and to are the period's first and last moment. */
  datatype Invoice = Invoice(tenant: TenantId, customer: CustomerId, from: nat, to: nat, number: int, draft: Draft)

  datatype Stage =
    | Excluding(excluded: set<TaskId>)
    | Pricing(tasks: seq<ClosedTask>)
    | Prepared(draft: Draft)
    | Locked(draft: Draft)
    | Numbered(draft: Draft, number: int)

  datatype Job = Job(tenant: TenantId, customer: CustomerId, from: nat, to: nat, stage: Stage)

  datatype State = State(
    tasks: map<TaskId, Task>,
    prices: map<TenantId, Prices>,
    invoices: seq<Invoice>,  // committed, in commit order
    jobs: map<RunId, Job>)

  datatype Action =
    | AddTask(task: TaskId, tenant: TenantId, customer: CustomerId, checklist: Checklist)
    | CloseTask(task: TaskId, at: nat, final: Option<Checklist>)
    | SetPrices(tenant: TenantId, prices: Prices)
    | Start(run: RunId, tenant: TenantId, customer: CustomerId, from: nat, to: nat)
    | ReadTasks(run: RunId, order: seq<TaskId>)
    | ReadPrices(run: RunId)
    | TakeLock(run: RunId)
    | ReadMax(run: RunId)
    | Write(run: RunId)
    | Abort(run: RunId)

  // ---------------------------------------------------------------------------------------------
  // The lock key: 32-bit FNV-1a of the tenant id
  // ---------------------------------------------------------------------------------------------

  function Fnv(tenant: string): bv32 {
    if tenant == "" then 2166136261 else Mix(Fnv(tenant[..|tenant| - 1]), CodeUnit(tenant[|tenant| - 1]))
  }

  function Mix(hash: bv32, unit: bv32): bv32 {
    (hash ^ unit) * 16777619
  }

  /** Tenant ids are ASCII UUIDs, so a character is one code unit. */
  function CodeUnit(c: char): bv32 {
    if c as int < 0x10000 then c as int as bv32 else 0
  }

  method TenantLockKey(tenant: TenantId) returns (key: bv32)
    ensures key == Fnv(tenant)
  {
    key := 2166136261;
    for i := 0 to |tenant|
      invariant key == Fnv(tenant[..i])
    {
      assert tenant[..i + 1][..i] == tenant[..i];
      key := Mix(key, CodeUnit(tenant[i]));
    }
    assert tenant[..|tenant|] == tenant;
  }

  // ---------------------------------------------------------------------------------------------
  // Statements
  // ---------------------------------------------------------------------------------------------

  function AllLines(invoices: seq<Invoice>): seq<LineItem> {
    if invoices == [] then [] else AllLines(invoices[..|invoices| - 1]) + invoices[|invoices| - 1].draft.lines
  }

  /** SELECT COALESCE(MAX(number), 0) */
  function MaxNumber(invoices: seq<Invoice>, tenant: TenantId): int {
    if invoices == [] then 0 else
      var m, last := MaxNumber(invoices[..|invoices| - 1], tenant), invoices[|invoices| - 1];
      if last.tenant == tenant && last.number > m then last.number else m
  }

  function Invoiced(invoices: seq<Invoice>, tenant: TenantId, customer: CustomerId): set<TaskId> {
    set v, l | v in invoices && v.tenant == tenant && v.customer == customer && l in v.draft.lines :: l.task
  }

  /** The tasks the second read selects. */
  predicate Qualifies(s: State, job: Job, t: TaskId)
    requires job.stage.Excluding?
  {
    && t in s.tasks && s.tasks[t].tenant == job.tenant && s.tasks[t].customer == job.customer
    && s.tasks[t].closedAt.Some? && job.from <= s.tasks[t].closedAt.value <= job.to && t !in job.stage.excluded
  }

  ghost predicate IsSelection(s: State, job: Job, order: seq<TaskId>)
    requires job.stage.Excluding?
  {
    && (forall j, k | 0 <= j < k < |order| :: order[j] != order[k])
    && (forall t :: t in order <==> Qualifies(s, job, t))
  }

  predicate Holds(job: Job) {
    job.stage.Locked? || job.stage.Numbered?
  }

  /** No other run holds the advisory lock of this tenant's key. */
  predicate LockFree(s: State, r: RunId, tenant: TenantId) {
    forall q | q in s.jobs && q != r && Holds(s.jobs[q]) :: Fnv(s.jobs[q].tenant) != Fnv(tenant)
  }

  function End(s: State, r: RunId): State {
    s.(jobs := s.jobs - {r})
  }

  function Advance(s: State, r: RunId, stage: Stage): State
    requires r in s.jobs
  {
    s.(jobs := s.jobs[r := s.jobs[r].(stage := stage)])
  }

  function InvoiceOf(job: Job): Invoice
    requires job.stage.Numbered?
  {
    Invoice(job.tenant, job.customer, job.from, job.to, job.stage.number, job.stage.draft)
  }

  function PricesOf(s: State, tenant: TenantId): Prices {
    if tenant in s.prices then s.prices[tenant] else map[]
  }

  function Snapshot(s: State, order: seq<TaskId>): seq<ClosedTask>
    requires forall t | t in order :: t in s.tasks
  {
    seq(|order|, i requires 0 <= i < |order| => ClosedTask(order[i], s.tasks[order[i]].checklist))
  }

  ghost function Apply(s: State, a: Action): State {
    match a
    case AddTask(t, tenant, customer, checklist) =>
      if t in s.tasks then s else s.(tasks := s.tasks[t := Task(tenant, customer, None, checklist)])
    case CloseTask(t, at, final) =>
      if t in s.tasks && s.tasks[t].closedAt.None?
      then
        var checklist := if final.Some? then final.value else s.tasks[t].checklist;
        s.(tasks := s.tasks[t := s.tasks[t].(closedAt := Some(at), checklist := checklist)])
      else s
    case SetPrices(tenant, prices) => s.(prices := s.prices[tenant := prices])
    case Start(r, tenant, customer, from, to) =>
      if r in s.jobs then s
      else s.(jobs := s.jobs[r := Job(tenant, customer, from, to, Excluding(Invoiced(s.invoices, tenant, customer)))])
    case ReadTasks(r, order) =>
      if r in s.jobs && s.jobs[r].stage.Excluding? && IsSelection(s, s.jobs[r], order)
      then if order == [] then End(s, r) else Advance(s, r, Pricing(Snapshot(s, order)))
      else s
    case ReadPrices(r) =>
      if r in s.jobs && s.jobs[r].stage.Pricing?
      then
        var tasks, prices := s.jobs[r].stage.tasks, PricesOf(s, s.jobs[r].tenant);
        var lines := LinesOf(tasks, prices);
        if (exists t | t in tasks :: !Readable(t.checklist)) || lines == [] then End(s, r)
        else Advance(s, r, Prepared(Draft(lines, SumAmounts(lines), Basis(tasks, prices))))
      else s
    case TakeLock(r) =>
      if r in s.jobs && s.jobs[r].stage.Prepared? && LockFree(s, r, s.jobs[r].tenant)
      then Advance(s, r, Locked(s.jobs[r].stage.draft))
      else s
    case ReadMax(r) =>
      if r in s.jobs && s.jobs[r].stage.Locked?
      then Advance(s, r, Numbered(s.jobs[r].stage.draft, MaxNumber(s.invoices, s.jobs[r].tenant) + 1))
      else s
    case Write(r) =>
      if r in s.jobs && s.jobs[r].stage.Numbered?
      then
        var job := s.jobs[r];
        if DistinctKeys(AllLines(s.invoices) + job.stage.draft.lines)
           && forall v | v in s.invoices :: v.tenant != job.tenant || v.number != job.stage.number
        then End(s, r).(invoices := s.invoices + [InvoiceOf(job)])
        else End(s, r)
      else s
    case Abort(r) => End(s, r)
  }

  const EMPTY := State(map[], map[], [], map[])

  /** Any schedule of statements by any number of runs. */
  ghost function Run(acts: seq<Action>): State {
    if acts == [] then EMPTY else Apply(Run(acts[..|acts| - 1]), acts[|acts| - 1])
  }

  // ---------------------------------------------------------------------------------------------
  // The invariant
  // ---------------------------------------------------------------------------------------------

  function Count(invoices: seq<Invoice>, tenant: TenantId): nat {
    if invoices == [] then 0 else
      Count(invoices[..|invoices| - 1], tenant) + if invoices[|invoices| - 1].tenant == tenant then 1 else 0
  }

  /** Each invoice carries the next number of its tenant. */
  ghost predicate Sequential(invoices: seq<Invoice>) {
    forall k | 0 <= k < |invoices| :: invoices[k].number == Count(invoices[..k], invoices[k].tenant) + 1
  }

  /** A task of the tenant and customer that was closed within the period. */
  ghost predicate ClosedWithin(s: State, t: TaskId, tenant: TenantId, customer: CustomerId, from: nat, to: nat) {
    && t in s.tasks && s.tasks[t].tenant == tenant && s.tasks[t].customer == customer
    && exists at: nat :: from <= at <= to && s.tasks[t].closedAt == Some(at)
  }

  /** The task is on a line of one of the customer's invoices. */
  ghost predicate OnInvoice(invoices: seq<Invoice>, tenant: TenantId, customer: CustomerId, t: TaskId) {
    exists v, l | v in invoices && l in v.draft.lines :: v.tenant == tenant && v.customer == customer && l.task == t
  }

  /** The tasks behind a draft are tasks of its tenant and customer closed within its period, with their final
      checklists. */
  ghost predicate TasksReal(s: State, tenant: TenantId, customer: CustomerId, from: nat, to: nat,
                            tasks: seq<ClosedTask>) {
    forall c | c in tasks :: ClosedWithin(s, c.id, tenant, customer, from, to) && s.tasks[c.id].checklist == c.checklist
  }

  ghost predicate DraftOk(s: State, tenant: TenantId, customer: CustomerId, from: nat, to: nat, d: Draft) {
    && TasksReal(s, tenant, customer, from, to, d.basis.tasks)
    && d.lines == LinesOf(d.basis.tasks, d.basis.prices) && d.lines != [] && d.total == SumAmounts(d.lines)
  }

  ghost predicate JobOk(s: State, job: Job) {
    match job.stage
    case Excluding(excluded) => forall t | t in excluded :: OnInvoice(s.invoices, job.tenant, job.customer, t)
    case Pricing(tasks) => TasksReal(s, job.tenant, job.customer, job.from, job.to, tasks)
    case Prepared(d) => DraftOk(s, job.tenant, job.customer, job.from, job.to, d)
    case Locked(d) => DraftOk(s, job.tenant, job.customer, job.from, job.to, d)
    case Numbered(d, number) =>
      DraftOk(s, job.tenant, job.customer, job.from, job.to, d) && number == Count(s.invoices, job.tenant) + 1
  }

  ghost predicate OneHolder(s: State) {
    forall q, r | q in s.jobs && r in s.jobs && q != r && Holds(s.jobs[q]) && Holds(s.jobs[r]) ::
      s.jobs[q].tenant != s.jobs[r].tenant
  }

  ghost predicate InvoicesOk(s: State) {
    && Sequential(s.invoices) && DistinctKeys(AllLines(s.invoices))
    && forall v | v in s.invoices :: DraftOk(s, v.tenant, v.customer, v.from, v.to, v.draft)
  }

  ghost predicate Inv(s: State) {
    InvoicesOk(s) && OneHolder(s) && forall r | r in s.jobs :: JobOk(s, s.jobs[r])
  }

  lemma {:induction false} MaxIsCount(invoices: seq<Invoice>, tenant: TenantId)
    requires Sequential(invoices)
    ensures MaxNumber(invoices, tenant) == Count(invoices, tenant)
  {
    if invoices != [] {
      var front := invoices[..|invoices| - 1];
      assert forall k | 0 <= k < |front| :: front[..k] == invoices[..k];
      MaxIsCount(front, tenant);
    }
  }

  /** Closed tasks are frozen. */
  ghost predicate Keeps(s: State, s': State) {
    forall t | t in s.tasks && s.tasks[t].closedAt.Some? :: t in s'.tasks && s'.tasks[t] == s.tasks[t]
  }

  lemma RowsKeep(s: State, s': State)
    requires Inv(s) && Keeps(s, s') && s'.invoices == s.invoices && s'.jobs == s.jobs
    ensures Inv(s')
  {
    forall v | v in s'.invoices ensures DraftOk(s', v.tenant, v.customer, v.from, v.to, v.draft) {
      assert DraftOk(s, v.tenant, v.customer, v.from, v.to, v.draft);
    }
    forall r | r in s'.jobs ensures JobOk(s', s'.jobs[r]) {
      assert JobOk(s, s.jobs[r]);
    }
  }

  ghost predicate HoldsAlone(s: State, r: RunId, tenant: TenantId) {
    forall q | q in s.jobs && q != r && Holds(s.jobs[q]) :: s.jobs[q].tenant != tenant
  }

  lemma SnapshotIsReal(s: State, job: Job, order: seq<TaskId>)
    requires job.stage.Excluding? && IsSelection(s, job, order)
    ensures TasksReal(s, job.tenant, job.customer, job.from, job.to, Snapshot(s, order))
  {
    forall i | 0 <= i < |order| ensures Qualifies(s, job, order[i]) {
      assert order[i] in order;
    }
  }

  /** One run moves on, or ends, with nothing committed. */
  lemma JobChanges(s: State, s': State, r: RunId)
    requires Inv(s) && s' == s.(jobs := s'.jobs) && s'.jobs - {r} == s.jobs - {r}
    requires r in s'.jobs ==> JobOk(s, s'.jobs[r])
    requires r in s'.jobs && Holds(s'.jobs[r]) ==> HoldsAlone(s, r, s'.jobs[r].tenant)
    ensures Inv(s')
  {
    assert forall q | q in s'.jobs && q != r :: q in s'.jobs - {r} && s'.jobs[q] == (s'.jobs - {r})[q];
    assert forall q | q in s.jobs && q != r :: q in s.jobs - {r} && s.jobs[q] == (s.jobs - {r})[q];
    forall q | q in s'.jobs ensures JobOk(s', s'.jobs[q]) {
      assert JobOk(s, s'.jobs[q]);
    }
    forall v | v in s'.invoices ensures DraftOk(s', v.tenant, v.customer, v.from, v.to, v.draft) {
      assert DraftOk(s, v.tenant, v.customer, v.from, v.to, v.draft);
    }
  }

  lemma {:induction false} AllLinesGrow(invoices: seq<Invoice>, v: Invoice)
    ensures AllLines(invoices + [v]) == AllLines(invoices) + v.draft.lines
  {
    assert (invoices + [v])[..|invoices|] == invoices;
  }

  lemma CountGrows(invoices: seq<Invoice>, v: Invoice, tenant: TenantId)
    ensures Count(invoices + [v], tenant) == Count(invoices, tenant) + if v.tenant == tenant then 1 else 0
  {
    assert (invoices + [v])[..|invoices|] == invoices;
  }

  ghost predicate Writes(s: State, r: RunId, v: Invoice, s': State) {
    && r in s.jobs && s.jobs[r].stage.Numbered? && v == InvoiceOf(s.jobs[r])
    && DistinctKeys(AllLines(s.invoices) + v.draft.lines)
    && s' == End(s, r).(invoices := s.invoices + [v])
  }

  lemma WriteKeepsInvoices(s: State, r: RunId, v: Invoice, s': State)
    requires Inv(s) && Writes(s, r, v, s')
    ensures InvoicesOk(s')
  {
    assert JobOk(s, s.jobs[r]);
    AllLinesGrow(s.invoices, v);
    forall k | 0 <= k < |s'.invoices|
      ensures s'.invoices[k].number == Count(s'.invoices[..k], s'.invoices[k].tenant) + 1
    {
      assert s'.invoices[..k] == s.invoices[..k];
      assert s.invoices[..|s.invoices|] == s.invoices;
    }
    forall w | w in s'.invoices ensures DraftOk(s', w.tenant, w.customer, w.from, w.to, w.draft) {
      assert w != v ==> DraftOk(s, w.tenant, w.customer, w.from, w.to, w.draft);
    }
  }

  /** The lock holder's number is still the next one when it commits. */
  lemma WriteKeeps(s: State, r: RunId, v: Invoice, s': State)
    requires Inv(s) && Writes(s, r, v, s')
    ensures Inv(s')
  {
    WriteKeepsInvoices(s, r, v, s');
    forall q | q in s'.jobs ensures JobOk(s', s'.jobs[q]) {
      assert JobOk(s, s.jobs[q]);
      CountGrows(s.invoices, v, s.jobs[q].tenant);
    }
  }

  lemma StartKeeps(s: State, a: Action)
    requires Inv(s) && (a.Start? || a.Abort?)
    ensures Inv(Apply(s, a))
  {
    if Apply(s, a) != s {
      JobChanges(s, Apply(s, a), a.run);
    }
  }

  lemma EndKeeps(s: State, r: RunId)
    requires Inv(s)
    ensures Inv(End(s, r))
  {
    JobChanges(s, End(s, r), r);
  }

  lemma AdvanceKeeps(s: State, r: RunId, stage: Stage)
    requires Inv(s) && r in s.jobs && JobOk(s, s.jobs[r].(stage := stage))
    requires Holds(s.jobs[r].(stage := stage)) ==> HoldsAlone(s, r, s.jobs[r].tenant)
    ensures Inv(Advance(s, r, stage))
  {
    JobChanges(s, Advance(s, r, stage), r);
  }

  lemma ReadTasksKeeps(s: State, r: RunId, order: seq<TaskId>)
    requires Inv(s)
    ensures Inv(Apply(s, ReadTasks(r, order)))
  {
    var s' := Apply(s, ReadTasks(r, order));
    if s' != s {
      SnapshotIsReal(s, s.jobs[r], order);
      if r in s'.jobs {
        AdvanceKeeps(s, r, s'.jobs[r].stage);
      } else {
        EndKeeps(s, r);
      }
    }
  }

  lemma PricedIsOk(s: State, r: RunId)
    requires r in s.jobs && s.jobs[r].stage.Pricing? && JobOk(s, s.jobs[r]) && r in Apply(s, ReadPrices(r)).jobs
    ensures var stage := Apply(s, ReadPrices(r)).jobs[r].stage;
      Apply(s, ReadPrices(r)) == Advance(s, r, stage) && stage.Prepared? && JobOk(s, s.jobs[r].(stage := stage))
  {
  }

  lemma ReadPricesKeeps(s: State, r: RunId)
    requires Inv(s)
    ensures Inv(Apply(s, ReadPrices(r)))
  {
    if r in s.jobs && s.jobs[r].stage.Pricing? {
      assert JobOk(s, s.jobs[r]);
      if r in Apply(s, ReadPrices(r)).jobs {
        PricedIsOk(s, r);
        AdvanceKeeps(s, r, Apply(s, ReadPrices(r)).jobs[r].stage);
      } else {
        EndKeeps(s, r);
      }
    }
  }

  /** Waits while a run of the same key, and so of the same tenant, holds the lock. */
  lemma TakeLockKeeps(s: State, r: RunId)
    requires Inv(s)
    ensures Inv(Apply(s, TakeLock(r)))
  {
    var s' := Apply(s, TakeLock(r));
    if s' != s {
      assert JobOk(s, s.jobs[r]);
      assert HoldsAlone(s, r, s.jobs[r].tenant);
      JobChanges(s, s', r);
    }
  }

  lemma ReadMaxKeeps(s: State, r: RunId)
    requires Inv(s)
    ensures Inv(Apply(s, ReadMax(r)))
  {
    var s' := Apply(s, ReadMax(r));
    if s' != s {
      assert JobOk(s, s.jobs[r]);
      MaxIsCount(s.invoices, s.jobs[r].tenant);
      assert HoldsAlone(s, r, s.jobs[r].tenant);
      JobChanges(s, s', r);
    }
  }

  lemma WriteStepKeeps(s: State, r: RunId)
    requires Inv(s)
    ensures Inv(Apply(s, Write(r)))
  {
    var s' := Apply(s, Write(r));
    if s' == End(s, r) {
      JobChanges(s, s', r);
    } else if s' != s {
      WriteKeeps(s, r, InvoiceOf(s.jobs[r]), s');
    }
  }

  lemma RowStepKeeps(s: State, a: Action)
    requires Inv(s) && (a.AddTask? || a.CloseTask? || a.SetPrices?)
    ensures Inv(Apply(s, a))
  {
    RowsKeep(s, Apply(s, a));
  }

  lemma StepKeeps(s: State, a: Action)
    requires Inv(s)
    ensures Inv(Apply(s, a))
  {
    match a
    case Start(_, _, _, _, _) => StartKeeps(s, a);
    case ReadTasks(r, order) => ReadTasksKeeps(s, r, order);
    case ReadPrices(r) => ReadPricesKeeps(s, r);
    case TakeLock(r) => TakeLockKeeps(s, r);
    case ReadMax(r) => ReadMaxKeeps(s, r);
    case Write(r) => WriteStepKeeps(s, r);
    case Abort(_) => StartKeeps(s, a);
    case _ => RowStepKeeps(s, a);
  }

  lemma {:induction false} RunKeeps(acts: seq<Action>)
    ensures Inv(Run(acts))
  {
    if acts != [] {
      RunKeeps(acts[..|acts| - 1]);
      StepKeeps(Run(acts[..|acts| - 1]), acts[|acts| - 1]);
    }
  }

  // ---------------------------------------------------------------------------------------------
  // What holds over whole runs
  // ---------------------------------------------------------------------------------------------

  /** A tenant's committed invoice numbers, in commit order. */
  function Numbers(invoices: seq<Invoice>, tenant: TenantId): (ns: seq<int>)
    ensures |ns| == Count(invoices, tenant)
  {
    if invoices == [] then [] else
      Numbers(invoices[..|invoices| - 1], tenant)
      + if invoices[|invoices| - 1].tenant == tenant then [invoices[|invoices| - 1].number] else []
  }

  lemma {:induction false} SequentialNumbers(invoices: seq<Invoice>, tenant: TenantId)
    requires Sequential(invoices)
    ensures forall i | 0 <= i < |Numbers(invoices, tenant)| :: Numbers(invoices, tenant)[i] == i + 1
  {
    if invoices != [] {
      var front := invoices[..|invoices| - 1];
      assert forall k | 0 <= k < |front| :: front[..k] == invoices[..k];
      SequentialNumbers(front, tenant);
    }
  }

  /** Whatever interleaves, a tenant's numbers are 1, 2, 3, ... in commit order: no gap, no repeat. */
  lemma NumbersAreGapless(acts: seq<Action>, tenant: TenantId)
    ensures forall i | 0 <= i < |Numbers(Run(acts).invoices, tenant)| ::
              Numbers(Run(acts).invoices, tenant)[i] == i + 1
  {
    RunKeeps(acts);
    SequentialNumbers(Run(acts).invoices, tenant);
  }

  /** No (task, code) is on two lines, within an invoice or across all invoices of all tenants. */
  lemma {:induction false} NothingIsBilledTwice(acts: seq<Action>)
    ensures !BillsTwice(AllLines(Run(acts).invoices))
  {
    RunKeeps(acts);
  }

  /** A committed total is the sum of its lines, which come from tasks of that customer closed in the period, and it
      equals the sum of those tasks' estimates up to the discrepancy of untidy checklists. */
  lemma TotalsAddUp(acts: seq<Action>, v: Invoice)
    requires v in Run(acts).invoices
    ensures var tasks, prices := v.draft.basis.tasks, v.draft.basis.prices;
      && v.draft.lines == LinesOf(tasks, prices) && v.draft.total == SumAmounts(v.draft.lines)
      && TasksReal(Run(acts), v.tenant, v.customer, v.from, v.to, tasks)
      && v.draft.total == SumEstimates(tasks, prices) + Discrepancy(tasks, prices)
  {
    RunKeeps(acts);
    var s := Run(acts);
    assert DraftOk(s, v.tenant, v.customer, v.from, v.to, v.draft);
    OwnLinesDistinct(s.invoices, v);
    TotalVersusEstimates(v.draft.basis.tasks, v.draft.basis.prices);
  }

  lemma {:induction false} OwnLinesDistinct(invoices: seq<Invoice>, v: Invoice)
    requires DistinctKeys(AllLines(invoices)) && v in invoices
    ensures DistinctKeys(v.draft.lines)
  {
    var front, last := invoices[..|invoices| - 1], invoices[|invoices| - 1];
    var all := AllLines(invoices);
    assert all == AllLines(front) + last.draft.lines;
    assert all[..|AllLines(front)|] == AllLines(front) && all[|AllLines(front)|..] == last.draft.lines;
    if v != last {
      assert v in front;
      OwnLinesDistinct(front, v);
    }
  }

  /** The separate check of the (tenant, number) key never fires: the lock already rules it out. */
  lemma NumberIsAlwaysFree(acts: seq<Action>, r: RunId)
    requires r in Run(acts).jobs && Run(acts).jobs[r].stage.Numbered?
    ensures var s := Run(acts);
      forall v | v in s.invoices && v.tenant == s.jobs[r].tenant :: v.number < s.jobs[r].stage.number
  {
    RunKeeps(acts);
    var s := Run(acts);
    assert JobOk(s, s.jobs[r]);
    forall k | 0 <= k < |s.invoices| && s.invoices[k].tenant == s.jobs[r].tenant
      ensures s.invoices[k].number < s.jobs[r].stage.number
    {
      CountOfPrefix(s.invoices, k, s.jobs[r].tenant);
    }
  }

  lemma {:induction false} CountOfPrefix(invoices: seq<Invoice>, k: nat, tenant: TenantId)
    requires k < |invoices| && invoices[k].tenant == tenant
    ensures Count(invoices[..k], tenant) < Count(invoices, tenant)
  {
    var front := invoices[..|invoices| - 1];
    if k < |front| {
      CountOfPrefix(front, k, tenant);
      assert front[..k] == invoices[..k];
    }
  }

  // ---------------------------------------------------------------------------------------------
  // What a run reads
  // ---------------------------------------------------------------------------------------------

  /** The tenant's price list, empty when it has none. */
  ghost predicate IsPriceList(s: State, tenant: TenantId, prices: Prices) {
    if tenant in s.prices then prices == s.prices[tenant] else prices == map[]
  }

  /** At some moment of the run this was the tenant's price list. */
  ghost predicate WasPriceList(acts: seq<Action>, tenant: TenantId, prices: Prices) {
    exists k | 0 <= k <= |acts| :: IsPriceList(Run(acts[..k]), tenant, prices)
  }

  function DraftOf(stage: Stage): Option<Draft> {
    match stage
    case Prepared(draft) => Some(draft)
    case Locked(draft) => Some(draft)
    case Numbered(draft, _) => Some(draft)
    case _ => None
  }

  ghost predicate JobPriced(acts: seq<Action>, job: Job) {
    DraftOf(job.stage).Some? ==> WasPriceList(acts, job.tenant, DraftOf(job.stage).value.basis.prices)
  }

  ghost predicate InvoicePriced(acts: seq<Action>, v: Invoice) {
    WasPriceList(acts, v.tenant, v.draft.basis.prices)
  }

  lemma WasPriceListLater(acts: seq<Action>, tenant: TenantId, prices: Prices)
    requires acts != [] && WasPriceList(acts[..|acts| - 1], tenant, prices)
    ensures WasPriceList(acts, tenant, prices)
  {
    var front := acts[..|acts| - 1];
    var k :| 0 <= k <= |front| && IsPriceList(Run(front[..k]), tenant, prices);
    assert front[..k] == acts[..k];
  }

  /** A draft comes from the step before, or from reading the prices in this one. */
  lemma DraftComesFrom(s: State, a: Action, r: RunId)
    requires r in Apply(s, a).jobs && DraftOf(Apply(s, a).jobs[r].stage).Some?
    ensures var job := Apply(s, a).jobs[r];
      || (r in s.jobs && s.jobs[r].tenant == job.tenant && DraftOf(s.jobs[r].stage) == DraftOf(job.stage))
      || IsPriceList(s, job.tenant, DraftOf(job.stage).value.basis.prices)
  {
  }

  lemma {:induction false} RunPriced(acts: seq<Action>)
    ensures forall r | r in Run(acts).jobs :: JobPriced(acts, Run(acts).jobs[r])
    ensures forall v | v in Run(acts).invoices :: InvoicePriced(acts, v)
  {
    if acts != [] {
      var front := acts[..|acts| - 1];
      RunPriced(front);
      forall r | r in Run(acts).jobs ensures JobPriced(acts, Run(acts).jobs[r]) {
        StepPricesJob(acts, r);
      }
      forall v | v in Run(acts).invoices ensures InvoicePriced(acts, v) {
        InvoicePricedBefore(front, Run(front), acts[|acts| - 1], v);
        WasPriceListLater(acts, v.tenant, v.draft.basis.prices);
      }
    }
  }

  lemma StepPricesJob(acts: seq<Action>, r: RunId)
    requires acts != [] && r in Run(acts).jobs
    requires var s := Run(acts[..|acts| - 1]); r in s.jobs ==> JobPriced(acts[..|acts| - 1], s.jobs[r])
    ensures JobPriced(acts, Run(acts).jobs[r])
  {
    var front, job := acts[..|acts| - 1], Run(acts).jobs[r];
    if DraftOf(job.stage).Some? {
      DraftComesFrom(Run(front), acts[|acts| - 1], r);
      var prices := DraftOf(job.stage).value.basis.prices;
      if !IsPriceList(Run(front), job.tenant, prices) {
        WasPriceListLater(acts, job.tenant, prices);
      } else {
        assert IsPriceList(Run(acts[..|front|]), job.tenant, prices);
      }
    }
  }

  lemma WrittenBy(s: State, a: Action, v: Invoice) returns (r: RunId)
    requires v in Apply(s, a).invoices && v !in s.invoices
    ensures r in s.jobs && s.jobs[r].stage.Numbered? && v == InvoiceOf(s.jobs[r])
  {
    assert a.Write?;
    r := a.run;
  }

  lemma InvoicePricedBefore(front: seq<Action>, s: State, a: Action, v: Invoice)
    requires v in Apply(s, a).invoices
    requires forall r | r in s.jobs :: JobPriced(front, s.jobs[r])
    requires forall w | w in s.invoices :: InvoicePriced(front, w)
    ensures InvoicePriced(front, v)
  {
    if v !in s.invoices {
      var r := WrittenBy(s, a, v);
      assert JobPriced(front, s.jobs[r]);
    }
  }

  /** The prices behind a committed invoice were the price list of its own tenant. */
  lemma PricesAreTheTenants(acts: seq<Action>, v: Invoice)
    requires v in Run(acts).invoices
    ensures exists k | 0 <= k <= |acts| :: IsPriceList(Run(acts[..k]), v.tenant, v.draft.basis.prices)
  {
    RunPriced(acts);
    assert InvoicePriced(acts, v);
  }

  /** The tasks behind a committed invoice are tasks of its tenant and customer, closed within its period. */
  lemma BilledWithinPeriod(acts: seq<Action>, v: Invoice, c: ClosedTask)
    requires v in Run(acts).invoices && c in v.draft.basis.tasks
    ensures ClosedWithin(Run(acts), c.id, v.tenant, v.customer, v.from, v.to)
    ensures Run(acts).tasks[c.id].checklist == c.checklist
  {
    RunKeeps(acts);
    assert DraftOk(Run(acts), v.tenant, v.customer, v.from, v.to, v.draft);
  }

  /** The query selects exactly the customer's tasks closed within the period, less the excluded ones. */
  lemma SelectsWithinPeriod(s: State, job: Job, order: seq<TaskId>)
    requires job.stage.Excluding? && IsSelection(s, job, order)
    ensures forall t :: t in order <==>
        ClosedWithin(s, t, job.tenant, job.customer, job.from, job.to) && t !in job.stage.excluded
  {
  }

  lemma FnvStep(tenant: string, c: char)
    ensures Fnv(tenant + [c]) == Mix(Fnv(tenant), CodeUnit(c))
  {
    assert (tenant + [c])[..|tenant|] == tenant;
  }

  lemma FnvIs(tenant: string, c: char, hash: bv32, unit: bv32, next: bv32)
    requires Fnv(tenant) == hash && CodeUnit(c) == unit && Mix(hash, unit) == next
    ensures Fnv(tenant + [c]) == next
  {
    FnvStep(tenant, c);
  }

  /** Known values of the 32-bit FNV-1a hash. */
  lemma FnvVectors()
    ensures Fnv("") == 0x811C9DC5 && Fnv("a") == 0xE40C292C && Fnv("foobar") == 0xBF9CF968
  {
    FnvIs("", 'a', 0x811C9DC5, 97, 0xE40C292C);
    assert "" + ['a'] == "a";
    FnvIs("", 'f', 0x811C9DC5, 102, 0xE30C2799);
    assert "" + ['f'] == "f";
    FnvIs("f", 'o', 0xE30C2799, 111, 0x6222E842);
    assert "f" + ['o'] == "fo";
    FnvIs("fo", 'o', 0x6222E842, 111, 0xA9F37ED7);
    assert "fo" + ['o'] == "foo";
    FnvIs("foo", 'b', 0xA9F37ED7, 98, 0x3F5076EF);
    assert "foo" + ['b'] == "foob";
    FnvIs("foob", 'a', 0x3F5076EF, 97, 0x39AAA18A);
    assert "foob" + ['a'] == "fooba";
    FnvIs("fooba", 'r', 0x39AAA18A, 114, 0xBF9CF968);
    assert "fooba" + ['r'] == "foobar";
  }
}
