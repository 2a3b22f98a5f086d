/** generateInvoice as it runs: its statements in source order against shared tables, with any other
    runs in between. It is one schedule of the machine in module Invoicing. */
module InvoicingService {
  import opened Prelude
  import opened Checklist
  import opened Billing
  import opened Invoicing

  datatype Result = Created(number: int) | NothingToBill | AlreadyBilled | Failed

  /** after is before plus statements of runs other than r. */
  ghost predicate OthersRan(before: seq<Action>, after: seq<Action>, r: RunId) {
    before <= after && forall k | |before| <= k < |after| :: !By(after[k], r)
  }

  /** Between two statements the others may take any steps that are theirs. */
  lemma OthersMayRun(before: seq<Action>, more: seq<Action>, r: RunId)
    requires forall a | a in more :: a.AddTask? || a.CloseTask? || a.SetPrices? || a.run != r
    ensures OthersRan(before, before + more, r)
  {
    forall k | |before| <= k < |before + more| ensures !By((before + more)[k], r) {
      assert (before + more)[k] in more;
    }
  }

  /** after is before plus statements, none of them r's write. */
  ghost predicate NoWrite(before: seq<Action>, after: seq<Action>, r: RunId) {
    before <= after && forall k | |before| <= k < |after| :: after[k] != Write(r)
  }

  lemma OthersDoNotWrite(before: seq<Action>, after: seq<Action>, r: RunId)
    requires OthersRan(before, after, r)
    ensures NoWrite(before, after, r)
  {
  }

  predicate By(a: Action, r: RunId) {
    match a
    case AddTask(_, _, _, _) => false
    case CloseTask(_, _, _) => false
    case SetPrices(_, _) => false
    case _ => a.run == r
  }

  lemma RunOneMore(acts: seq<Action>, a: Action)
    ensures Run(acts + [a]) == Apply(Run(acts), a)
  {
    assert (acts + [a])[..|acts|] == acts;
  }

  lemma OtherStepKeepsJob(s: State, a: Action, r: RunId)
    requires !By(a, r)
    ensures r in Apply(s, a).jobs <==> r in s.jobs
    ensures r in s.jobs ==> Apply(s, a).jobs[r] == s.jobs[r]
  {
  }

  lemma {:induction false} OthersKeepJob(before: seq<Action>, after: seq<Action>, r: RunId)
    requires OthersRan(before, after, r)
    ensures r in Run(after).jobs <==> r in Run(before).jobs
    ensures r in Run(before).jobs ==> Run(after).jobs[r] == Run(before).jobs[r]
    decreases |after|
  {
    if |after| == |before| {
      assert after == before;
    } else {
      var front := after[..|after| - 1];
      OthersKeepJob(before, front, r);
      OtherStepKeepsJob(Run(front), after[|after| - 1], r);
    }
  }

  lemma RunMaxIsCount(acts: seq<Action>, tenant: TenantId)
    ensures MaxNumber(Run(acts).invoices, tenant) == Count(Run(acts).invoices, tenant)
  {
    RunKeeps(acts);
    MaxIsCount(Run(acts).invoices, tenant);
  }

  /** No other run holds a lock with the tenant's key. */
  ghost predicate KeyIsFree(jobs: map<RunId, Job>, r: RunId, tenant: TenantId) {
    forall q | q in jobs && q != r && Holds(jobs[q]) :: Fnv(jobs[q].tenant) != Fnv(tenant)
  }

  /** A task the query is to select: of this customer, closed within the period, not excluded. */
  ghost predicate Selected(s: State, job: Job, t: TaskId) {
    && job.stage.Excluding? && t !in job.stage.excluded
    && ClosedWithin(s, t, job.tenant, job.customer, job.from, job.to)
  }

  lemma SnapshotIds(s: State, order: seq<TaskId>)
    requires forall t | t in order :: t in s.tasks
    ensures forall t :: (exists c | c in Snapshot(s, order) :: c.id == t) <==> t in order
    ensures forall c | c in Snapshot(s, order) :: c.id in s.tasks && c.checklist == s.tasks[c.id].checklist
  {
    var found := Snapshot(s, order);
    forall t | t in order ensures exists c | c in found :: c.id == t {
      var i :| 0 <= i < |order| && order[i] == t;
      assert found[i].id == t;
    }
  }

  /** The query found nothing: every task of the customer closed within the period was on one of its invoices. */
  lemma NothingLeft(acts: seq<Action>, r: RunId)
    requires r in Run(acts).jobs && Run(acts).jobs[r].stage.Excluding?
    requires forall t :: !Selected(Run(acts), Run(acts).jobs[r], t)
    ensures var s, job := Run(acts), Run(acts).jobs[r];
      forall t | ClosedWithin(s, t, job.tenant, job.customer, job.from, job.to) ::
        OnInvoice(s.invoices, job.tenant, job.customer, t)
  {
    RunKeeps(acts);
    var s, job := Run(acts), Run(acts).jobs[r];
    assert JobOk(s, job);
    forall t | ClosedWithin(s, t, job.tenant, job.customer, job.from, job.to)
      ensures OnInvoice(s.invoices, job.tenant, job.customer, t)
    {
      assert !Selected(s, job, t);
    }
  }

  lemma LastIsWithinPeriod(acts: seq<Action>, v: Invoice)
    requires v in Run(acts).invoices
    ensures forall c | c in v.draft.basis.tasks :: ClosedWithin(Run(acts), c.id, v.tenant, v.customer, v.from, v.to)
  {
    forall c | c in v.draft.basis.tasks ensures ClosedWithin(Run(acts), c.id, v.tenant, v.customer, v.from, v.to) {
      BilledWithinPeriod(acts, v, c);
    }
  }

  lemma PricingIsReal(acts: seq<Action>, r: RunId)
    requires r in Run(acts).jobs && Run(acts).jobs[r].stage.Pricing?
    ensures var job := Run(acts).jobs[r];
      TasksReal(Run(acts), job.tenant, job.customer, job.from, job.to, job.stage.tasks)
    ensures IsPriceList(Run(acts), Run(acts).jobs[r].tenant, PricesOf(Run(acts), Run(acts).jobs[r].tenant))
  {
    RunKeeps(acts);
    assert JobOk(Run(acts), Run(acts).jobs[r]);
  }

  /** All the tasks can be read, and they have a line. */
  ghost predicate Bills(tasks: seq<ClosedTask>, prices: Prices) {
    (forall t | t in tasks :: Readable(t.checklist)) && LinesOf(tasks, prices) != []
  }

  class Database {
    var tasks: map<TaskId, Task>
    var prices: map<TenantId, Prices>
    var invoices: seq<Invoice>
    var jobs: map<RunId, Job>
    ghost var schedule: seq<Action>

    function View(): State
      reads this
    {
      State(tasks, prices, invoices, jobs)
    }

    ghost predicate Valid()
      reads this
    {
      View() == Run(schedule)
    }

    constructor ()
      ensures Valid() && schedule == []
    {
      tasks, prices, invoices, jobs := map[], map[], [], map[];
      schedule := [];
    }

    /** Any number of statements of other runs. */
    method Yield(ghost r: RunId)
      requires Valid()
      modifies this
      ensures Valid() && OthersRan(old(schedule), schedule, r)
    {
    }

    method Interlude(ghost r: RunId)
      requires Valid()
      modifies this
      ensures Valid() && NoWrite(old(schedule), schedule, r)
      ensures r in jobs <==> r in old(jobs)
      ensures r in jobs ==> jobs[r] == old(jobs[r])
    {
      Yield(r);
      OthersKeepJob(old(schedule), schedule, r);
      OthersDoNotWrite(old(schedule), schedule, r);
    }

    method GiveUp(r: RunId)
      requires Valid()
      modifies this
      ensures Valid() && schedule == old(schedule) + [Abort(r)] && jobs == old(jobs) - {r} && invoices == old(invoices)
    {
      RunOneMore(schedule, Abort(r));
      jobs := jobs - {r};
      schedule := schedule + [Abort(r)];
    }

    /** The ids of the rows a query selects, in some order. */
    method InSomeOrder(ids: set<TaskId>) returns (order: seq<TaskId>)
      ensures forall t :: t in order <==> t in ids
      ensures forall j, k | 0 <= j < k < |order| :: order[j] != order[k]
    {
      order := [];
      var left := ids;
      while left != {}
        invariant left <= ids
        invariant forall t :: t in order <==> t in ids - left
        invariant forall j, k | 0 <= j < k < |order| :: order[j] != order[k]
        decreases left
      {
        var t :| t in left;
        assert t !in order;
        order := order + [t];
        left := left - {t};
      }
    }

    /** First transaction: the tasks already invoiced. */
    method ReadInvoiced(r: RunId, tenant: TenantId, customer: CustomerId, from: nat, to: nat)
      requires Valid() && r !in jobs
      modifies this
      ensures Valid() && schedule == old(schedule) + [Start(r, tenant, customer, from, to)]
      ensures r in jobs && jobs[r] == Job(tenant, customer, from, to, jobs[r].stage) && jobs[r].stage.Excluding?
      ensures forall t :: t in jobs[r].stage.excluded <==> OnInvoice(invoices, tenant, customer, t)
    {
      RunOneMore(schedule, Start(r, tenant, customer, from, to));
      jobs := jobs[r := Job(tenant, customer, from, to, Excluding(Invoiced(invoices, tenant, customer)))];
      schedule := schedule + [Start(r, tenant, customer, from, to)];
    }

    /** First transaction: the closed tasks of the period. */
    method SelectTasks(r: RunId) returns (found: seq<ClosedTask>)
      requires Valid() && r in jobs && jobs[r].stage.Excluding?
      modifies this
      ensures Valid() && NoWrite(old(schedule), schedule, r)
      ensures forall t :: (exists c | c in found :: c.id == t) <==> Selected(old(View()), old(jobs[r]), t)
      ensures forall c | c in found :: c.id in old(tasks) && c.checklist == old(tasks)[c.id].checklist
      ensures found == [] ==> r !in jobs && schedule == old(schedule) + [ReadTasks(r, [])]
      ensures found != [] ==> r in jobs && jobs[r] == old(jobs[r]).(stage := Pricing(found))
    {
      var ids := set t | t in tasks && Qualifies(View(), jobs[r], t);
      var order := InSomeOrder(ids);
      RunOneMore(schedule, ReadTasks(r, order));
      found := Snapshot(View(), order);
      SelectsWithinPeriod(View(), jobs[r], order);
      SnapshotIds(View(), order);
      if |order| == 0 {
        jobs := jobs - {r};
      } else {
        jobs := jobs[r := jobs[r].(stage := Pricing(found))];
      }
      schedule := schedule + [ReadTasks(r, order)];
    }

    /** First transaction, the price list and the computation. */
    method PriceTasks(r: RunId) returns (ok: bool)
      requires Valid() && r in jobs && jobs[r].stage.Pricing?
      modifies this
      ensures Valid() && schedule == old(schedule) + [ReadPrices(r)]
      ensures ok <==> r in jobs
      ensures ok <==> Bills(old(jobs[r].stage.tasks), PricesOf(old(View()), old(jobs[r].tenant)))
      ensures ok ==> jobs[r] == old(jobs[r]).(stage := jobs[r].stage) && jobs[r].stage.Prepared?
    {
      var found, list := jobs[r].stage.tasks, PricesOf(View(), jobs[r].tenant);
      RunOneMore(schedule, ReadPrices(r));
      var lines, total := PrepareLines(found, list);
      ok := lines.Some? && |lines.value| > 0;
      if ok {
        jobs := jobs[r := jobs[r].(stage := Prepared(Draft(lines.value, total, Basis(found, list))))];
      } else {
        jobs := jobs - {r};
      }
      schedule := schedule + [ReadPrices(r)];
    }

    /** Waits for the advisory lock of the tenant's key; a timeout gives up. */
    method AwaitLock(r: RunId) returns (locked: bool)
      requires Valid() && r in jobs && jobs[r].stage.Prepared?
      modifies this
      ensures Valid() && NoWrite(old(schedule), schedule, r)
      ensures locked <==> KeyIsFree(jobs, r, old(jobs[r].tenant))
      ensures r in jobs
      ensures jobs[r] == if locked then old(jobs[r]).(stage := Locked(old(jobs[r].stage.draft))) else old(jobs[r])
    {
      Interlude(r);
      var key := TenantLockKey(jobs[r].tenant);
      locked := forall q | q in jobs && q != r && Holds(jobs[q]) :: Fnv(jobs[q].tenant) != key;
      assert locked <==> KeyIsFree(jobs, r, jobs[r].tenant);
      if locked {
        RunOneMore(schedule, TakeLock(r));
        jobs := jobs[r := jobs[r].(stage := Locked(jobs[r].stage.draft))];
        schedule := schedule + [TakeLock(r)];
      }
    }

    /** The next number of the tenant, under its lock. */
    method AllocateInvoiceNumber(r: RunId) returns (next: int)
      requires Valid() && r in jobs && jobs[r].stage.Locked?
      modifies this
      ensures Valid() && schedule == old(schedule) + [ReadMax(r)] && invoices == old(invoices)
      ensures next == Count(invoices, old(jobs[r].tenant)) + 1
      ensures r in jobs && jobs[r] == old(jobs[r]).(stage := Numbered(old(jobs[r].stage.draft), next))
    {
      RunMaxIsCount(schedule, jobs[r].tenant);
      RunOneMore(schedule, ReadMax(r));
      next := MaxNumber(invoices, jobs[r].tenant) + 1;
      jobs := jobs[r := jobs[r].(stage := Numbered(jobs[r].stage.draft, next))];
      schedule := schedule + [ReadMax(r)];
    }

    /** Inserting the lines, with the uniqueness checks and the commit. */
    method WriteInvoice(r: RunId) returns (written: bool)
      requires Valid() && r in jobs && jobs[r].stage.Numbered?
      modifies this
      ensures Valid() && schedule == old(schedule) + [Write(r)] && r !in jobs
      ensures written <==> !BillsTwice(AllLines(old(invoices)) + old(jobs[r].stage.draft.lines))
      ensures invoices == old(invoices) + if written
        then [Invoice(old(jobs[r].tenant), old(jobs[r].customer), old(jobs[r].from), old(jobs[r].to),
                 old(jobs[r].stage.number), old(jobs[r].stage.draft))]
        else []
    {
      NumberIsAlwaysFree(schedule, r);
      RunOneMore(schedule, Write(r));
      var job := jobs[r];
      written := DistinctKeys(AllLines(invoices) + job.stage.draft.lines);
      if written {
        invoices := invoices + [Invoice(job.tenant, job.customer, job.from, job.to, job.stage.number, job.stage.draft)];
      }
      jobs := jobs - {r};
      schedule := schedule + [Write(r)];
    }

    /** The tenant's next number, still the next one when others have run again. */
    method TakeNumber(r: RunId) returns (next: int)
      requires Valid() && r in jobs && jobs[r].stage.Locked?
      modifies this
      ensures Valid() && NoWrite(old(schedule), schedule, r) && next == Count(invoices, old(jobs[r].tenant)) + 1
      ensures r in jobs && jobs[r] == old(jobs[r]).(stage := Numbered(old(jobs[r].stage.draft), next))
    {
      next := AllocateInvoiceNumber(r);
      Interlude(r);
      NextNumberHolds(schedule, r);
    }

    /** The insert of a numbered run. */
    method Finish(r: RunId) returns (res: Result)
      requires Valid() && r in jobs && jobs[r].stage.Numbered?
      requires jobs[r].stage.number == Count(invoices, jobs[r].tenant) + 1
      modifies this
      ensures Valid() && schedule == old(schedule) + [Write(r)] && r !in jobs && (res.Created? || res.AlreadyBilled?)
      ensures res.AlreadyBilled? <==> BillsTwice(AllLines(old(invoices)) + old(jobs[r].stage.draft.lines))
      ensures res.AlreadyBilled? ==> invoices == old(invoices)
      ensures res.Created? ==> invoices != [] && res.number == Count(invoices, old(jobs[r].tenant))
      ensures res.Created? ==> var job := old(jobs[r]);
        invoices[|invoices| - 1] == Invoice(job.tenant, job.customer, job.from, job.to, res.number, job.stage.draft)
    {
      ghost var before := invoices;
      var next := jobs[r].stage.number;
      var written := WriteInvoice(r);
      if !written {
        return AlreadyBilled;
      }
      CountGrows(before, invoices[|before|], invoices[|before|].tenant);
      res := Created(next);
    }

    /** The state before the last statement. */
    ghost function Before(): State
      reads this
      requires schedule != []
    {
      Run(schedule[..|schedule| - 1])
    }

    /** The last statement was r's write; r's own lines repeat a billed (task, code), and the invoices are as they
        were. */
    ghost predicate Rejected(r: RunId, tenant: TenantId, customer: CustomerId)
      reads this
    {
      && schedule != [] && schedule[|schedule| - 1] == Write(r) && Before().invoices == invoices
      && r in Before().jobs && Before().jobs[r].stage.Numbered?
      && Before().jobs[r].tenant == tenant && Before().jobs[r].customer == customer
      && BillsTwice(AllLines(invoices) + Before().jobs[r].stage.draft.lines)
    }

    /** The last statement was r's query, when every task of the customer closed within the period was already on
        one of its invoices; or it was r's reading of the tenant's prices, at which its tasks have no line. */
    ghost predicate NothingBillable(r: RunId, tenant: TenantId, customer: CustomerId, from: nat, to: nat)
      reads this
    {
      && schedule != []
      && var s := Before();
         || (schedule[|schedule| - 1] == ReadTasks(r, [])
             && forall t | ClosedWithin(s, t, tenant, customer, from, to) :: OnInvoice(s.invoices, tenant, customer, t))
         || (schedule[|schedule| - 1] == ReadPrices(r) && r in s.jobs && s.jobs[r].stage.Pricing?
             && TasksReal(s, tenant, customer, from, to, s.jobs[r].stage.tasks)
             && exists list :: IsPriceList(s, tenant, list) && !Bills(s.jobs[r].stage.tasks, list))
    }

    /** The write transaction of a prepared run. */
    method NumberAndWrite(r: RunId) returns (res: Result)
      requires Valid() && r in jobs && jobs[r].stage.Prepared?
      modifies this
      ensures Valid() && old(schedule) <= schedule && r !in jobs && !res.NothingToBill?
      ensures res.Failed? ==> NoWrite(old(schedule), schedule, r) && !KeyIsFree(jobs, r, old(jobs[r].tenant))
      ensures res.AlreadyBilled? ==> Rejected(r, old(jobs[r].tenant), old(jobs[r].customer))
      ensures res.Created? ==> invoices != [] && res.number == Count(invoices, old(jobs[r].tenant))
      ensures res.Created? ==> var job := old(jobs[r]);
        invoices[|invoices| - 1] == Invoice(job.tenant, job.customer, job.from, job.to, res.number, job.stage.draft)
    {
      var locked := AwaitLock(r);
      if !locked {
        ghost var q :| q in jobs && q != r && Holds(jobs[q]) && Fnv(jobs[q].tenant) == Fnv(jobs[r].tenant);
        GiveUp(r);
        assert q in jobs && Holds(jobs[q]);
        return Failed;
      }
      Interlude(r);
      var next := TakeNumber(r);
      ghost var acts := schedule;
      res := Finish(r);
      assert schedule[..|schedule| - 1] == acts;
    }

    /** The second read, with what it does not find when it ends the run. */
    method SelectOrEnd(r: RunId) returns (ok: bool)
      requires Valid() && r in jobs && jobs[r].stage.Excluding?
      modifies this
      ensures Valid() && NoWrite(old(schedule), schedule, r)
      ensures var job := old(jobs[r]);
        if ok then r in jobs && jobs[r] == job.(stage := jobs[r].stage) && jobs[r].stage.Pricing?
        else r !in jobs && NothingBillable(r, job.tenant, job.customer, job.from, job.to)
    {
      ghost var acts := schedule;
      var found := SelectTasks(r);
      ok := |found| > 0;
      if !ok {
        NothingLeft(acts, r);
        assert schedule[..|schedule| - 1] == acts;
      }
    }

    /** The third read, with what it finds when it ends the run. */
    method PriceOrEnd(r: RunId) returns (ok: bool)
      requires Valid() && r in jobs && jobs[r].stage.Pricing?
      modifies this
      ensures Valid() && schedule == old(schedule) + [ReadPrices(r)]
      ensures var job := old(jobs[r]);
        if ok then r in jobs && jobs[r] == job.(stage := jobs[r].stage) && jobs[r].stage.Prepared?
        else r !in jobs && NothingBillable(r, job.tenant, job.customer, job.from, job.to)
    {
      ghost var acts := schedule;
      PricingIsReal(acts, r);
      ok := PriceTasks(r);
      assert schedule[..|schedule| - 1] == acts;
    }

    /** The first transaction: the reads and the computation. */
    method Prepare(r: RunId, tenant: TenantId, customer: CustomerId, from: nat, to: nat) returns (ok: bool)
      requires Valid() && r !in jobs
      modifies this
      ensures Valid() && NoWrite(old(schedule), schedule, r)
      ensures !ok ==> r !in jobs && NothingBillable(r, tenant, customer, from, to)
      ensures ok ==> r in jobs && jobs[r] == Job(tenant, customer, from, to, jobs[r].stage) && jobs[r].stage.Prepared?
    {
      ReadInvoiced(r, tenant, customer, from, to);
      Interlude(r);
      ok := SelectOrEnd(r);
      if !ok {
        return;
      }
      Interlude(r);
      ok := PriceOrEnd(r);
    }

    method GenerateInvoice(r: RunId, tenant: TenantId, customer: CustomerId, from: nat, to: nat) returns (res: Result)
      requires Valid() && r !in jobs
      modifies this
      ensures Valid() && old(schedule) <= schedule && r !in jobs
      // created: the last committed invoice is this customer's for the period, with the tenant's next number, and
      // bills tasks closed within the period
      ensures res.Created? ==> invoices != [] && res.number == Count(invoices, tenant)
      ensures res.Created? ==> var v := invoices[|invoices| - 1];
        && v == Invoice(tenant, customer, from, to, res.number, v.draft)
        && forall c | c in v.draft.basis.tasks :: ClosedWithin(View(), c.id, tenant, customer, from, to)
      // refused: nothing written, or a write that hit a billed line and changed no invoice
      ensures res.NothingToBill? || res.Failed? ==> NoWrite(old(schedule), schedule, r)
      ensures res.NothingToBill? ==> NothingBillable(r, tenant, customer, from, to)
      ensures res.Failed? ==> !KeyIsFree(jobs, r, tenant)
      ensures res.AlreadyBilled? ==> Rejected(r, tenant, customer)
    {
      var ok := Prepare(r, tenant, customer, from, to);
      if !ok {
        return NothingToBill;
      }
      res := NumberAndWrite(r);
      if res.Created? {
        LastIsWithinPeriod(schedule, invoices[|invoices| - 1]);
      }
    }
  }

  /** A number stays the next one while its run holds the lock, whatever others do. */
  lemma NextNumberHolds(acts: seq<Action>, r: RunId)
    requires r in Run(acts).jobs && Run(acts).jobs[r].stage.Numbered?
    ensures Run(acts).jobs[r].stage.number == Count(Run(acts).invoices, Run(acts).jobs[r].tenant) + 1
  {
    RunKeeps(acts);
    assert JobOk(Run(acts), Run(acts).jobs[r]);
  }
}
