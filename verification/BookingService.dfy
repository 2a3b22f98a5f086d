/** book as it runs: its statements in source order, with any other transactions in between. It is one
    schedule of the machine in module Booking. */
module BookingService {
  import opened Prelude
  import opened Booking

  datatype Result = Booked(task: TaskId) | BadDate | LinkUsed | NotFound | AlreadyArranged | Failed

  predicate By(a: Action, x: TxId) {
    match a
    case Mark(y, _) => y == x
    case Lock(y) => y == x
    case Check(y) => y == x
    case Commit(y, _) => y == x
    case Rollback(y) => y == x
    case _ => false
  }

  ghost predicate OthersRan(before: seq<Action>, after: seq<Action>, x: TxId) {
    before <= after && forall k | |before| <= k < |after| :: !By(after[k], x)
  }

  /** Between two statements the others may take any steps that are theirs. */
  lemma OthersMayRun(before: seq<Action>, more: seq<Action>, x: TxId)
    requires forall a | a in more :: a.AddEquipment? || a.SetActive? || a.IssueLink? || a.FinishTask? || a.tx != x
    ensures OthersRan(before, before + more, x)
  {
    forall k | |before| <= k < |before + more| ensures !By((before + more)[k], x) {
      assert (before + more)[k] in more;
    }
  }

  ghost predicate NoCommit(before: seq<Action>, after: seq<Action>, x: TxId) {
    before <= after && forall k | |before| <= k < |after| :: after[k].Commit? ==> after[k].tx != x
  }

  lemma OthersDoNotCommit(before: seq<Action>, after: seq<Action>, x: TxId)
    requires OthersRan(before, after, x)
    ensures NoCommit(before, after, x)
  {
  }

  /** x's transaction, and that its link still exists with its equipment. */
  ghost predicate Same(s: State, s': State, x: TxId) {
    && (x in s.txs <==> x in s'.txs) && (x in s.txs ==> s'.txs[x] == s.txs[x])
    && forall l | l in s.links :: l in s'.links && s'.links[l].equipment == s.links[l].equipment
  }

  lemma OtherStepKeepsTx(s: State, a: Action, x: TxId)
    requires !By(a, x)
    ensures Same(s, Apply(s, a), x)
  {
  }

  lemma {:induction false} OthersKeepTx(before: seq<Action>, after: seq<Action>, x: TxId)
    requires OthersRan(before, after, x)
    ensures Same(Run(before), Run(after), x)
    decreases |after|
  {
    if |after| == |before| {
      assert after == before;
    } else {
      var front := after[..|after| - 1];
      OthersKeepTx(before, front, x);
      OtherStepKeepsTx(Run(front), after[|after| - 1], x);
    }
  }

  lemma RunNoOpenTask(acts: seq<Action>, x: TxId)
    requires x in Run(acts).txs && Run(acts).txs[x].phase.Checked?
    ensures Run(acts).txs[x].link in Run(acts).links && !Run(acts).links[Run(acts).txs[x].link].used
    ensures !HasOpenTask(Run(acts), Run(acts).links[Run(acts).txs[x].link].equipment)
  {
    RunKeeps(acts);
  }

  /** Another transaction has marked the link, or one of the same equipment. */
  ghost predicate Competes(s: State, x: TxId, l: LinkId)
    requires l in s.links
  {
    exists y | y in s.txs && y != x && s.txs[y].link in s.links ::
      s.txs[y].link == l || s.links[s.txs[y].link].equipment == s.links[l].equipment
  }

  class Database {
    var equipment: map<EquipmentId, bool>
    var links: map<LinkId, Link>
    var tasks: map<TaskId, Task>
    var outbox: seq<TaskId>
    var txs: map<TxId, Tx>
    /** History: no table records it. */
    var made: map<LinkId, TaskId>
    ghost var schedule: seq<Action>

    function View(): State
      reads this
    {
      State(equipment, links, tasks, outbox, txs, made)
    }

    ghost predicate Valid()
      reads this
    {
      View() == Run(schedule)
    }

    constructor ()
      ensures Valid() && schedule == []
    {
      equipment, links, tasks, outbox, txs, made := map[], map[], map[], [], map[], map[];
      schedule := [];
    }

    ghost method Record(a: Action)
      requires View() == Apply(Run(schedule), a)
      modifies this`schedule
      ensures Valid() && schedule == old(schedule) + [a]
    {
      RunOneMore(schedule, a);
      schedule := schedule + [a];
    }

    /** Any number of statements of other transactions. */
    method Yield(x: TxId)
      requires Valid()
      modifies this
      ensures Valid() && OthersRan(old(schedule), schedule, x)
    {
    }

    method Interlude(x: TxId)
      requires Valid()
      modifies this
      ensures Valid() && Same(old(View()), View(), x) && NoCommit(old(schedule), schedule, x)
    {
      Yield(x);
      OthersKeepTx(old(schedule), schedule, x);
      OthersDoNotCommit(old(schedule), schedule, x);
    }

    method Abort(x: TxId)
      requires Valid()
      modifies this`txs, this`schedule
      ensures Valid() && schedule == old(schedule) + [Rollback(x)] && txs == old(txs) - {x}
    {
      txs := txs - {x};
      Record(Rollback(x));
    }

    /** The conditional update of the link; the caller has waited for its row lock. */
    method MarkLink(x: TxId, l: LinkId) returns (count: nat)
      requires Valid() && x !in txs && l in links && LinkFree(View(), x, l)
      modifies this`txs, this`schedule
      ensures Valid() && schedule == old(schedule) + [Mark(x, l)] && (count == 0 <==> links[l].used)
      ensures txs == if count == 0 then old(txs) else old(txs)[x := Tx(l, Marked)]
    {
      if links[l].used {
        count := 0;
      } else {
        txs := txs[x := Tx(l, Marked)];
        count := 1;
      }
      Record(Mark(x, l));
    }

    /** SELECT ... FOR UPDATE on the active equipment row; the caller has waited for its row lock. */
    method LockEquipment(x: TxId, e: EquipmentId) returns (locked: bool)
      requires Valid() && x in txs && txs[x].phase.Marked? && txs[x].link in links && links[txs[x].link].equipment == e
      requires EquipmentFree(View(), Some(x), e)
      modifies this`txs, this`schedule
      ensures Valid() && schedule == old(schedule) + [Lock(x)] && (locked <==> e in equipment && equipment[e])
      ensures txs == if locked then old(txs)[x := Tx(old(txs[x].link), Locked)] else old(txs) - {x}
    {
      locked := e in equipment && equipment[e];
      txs := if locked then txs[x := Tx(txs[x].link, Locked)] else txs - {x};
      Record(Lock(x));
    }

    method CheckOpenTask(x: TxId, e: EquipmentId) returns (open: bool)
      requires Valid() && x in txs && txs[x].phase.Locked? && txs[x].link in links && links[txs[x].link].equipment == e
      modifies this`txs, this`schedule
      ensures Valid() && schedule == old(schedule) + [Check(x)]
      ensures open <==> exists t | t in tasks :: tasks[t].equipment == e && tasks[t].open
      ensures txs == if open then old(txs) - {x} else old(txs)[x := Tx(old(txs[x].link), Checked)]
    {
      open := exists t | t in tasks :: tasks[t].equipment == e && tasks[t].open;
      txs := if open then txs - {x} else txs[x := Tx(txs[x].link, Checked)];
      Record(Check(x));
    }

    method InsertAndCommit(x: TxId, e: EquipmentId, t: TaskId)
      requires Valid() && x in txs && txs[x].phase.Checked? && txs[x].link in links && links[txs[x].link].equipment == e
      requires t !in tasks
      modifies this
      ensures Valid() && schedule == old(schedule) + [Commit(x, t)]
      ensures txs == old(txs) - {x} && equipment == old(equipment)
      ensures links == old(links)[old(txs[x].link) := Link(e, true)]
      ensures tasks == old(tasks)[t := Task(e, true)] && outbox == old(outbox) + [t]
      ensures made == old(made)[old(txs[x].link) := t]
    {
      var l := txs[x].link;
      txs := txs - {x};
      links := links[l := Link(e, true)];
      tasks := tasks[t := Task(e, true)];
      outbox := outbox + [t];
      made := made[l := t];
      Record(Commit(x, t));
    }

    /** What a booking promises once it is over. */
    ghost predicate Over(res: Result, before: seq<Action>, x: TxId, l: LinkId, t: TaskId)
      reads this
    {
      && x !in txs && l in links
      // refused: nothing committed, for the reason given
      && (!res.Booked? ==> NoCommit(before, schedule, x))
      && (res.LinkUsed? ==> links[l].used)
      && (res.NotFound? ==> !(links[l].equipment in equipment && equipment[links[l].equipment]))
      && (res.AlreadyArranged? ==> exists u | u in tasks :: tasks[u].equipment == links[l].equipment && tasks[u].open)
      && (res.Failed? ==> t in tasks || Competes(View(), x, l))
      // booked: the equipment's only open task, made by this link
      && (res.Booked? ==>
            && links[l].used && l in made && made[l] == res.task == t && t in outbox
            && t in tasks && tasks[t] == Task(links[l].equipment, true)
            && forall u | u in tasks && u != t && tasks[u].equipment == links[l].equipment :: !tasks[u].open)
    }

    /** From the check for an open task to the commit. */
    method Arrange(x: TxId, l: LinkId, e: EquipmentId, t: TaskId) returns (res: Result)
      requires Valid() && x in txs && txs[x] == Tx(l, Locked) && l in links && links[l].equipment == e
      modifies this
      ensures Valid() && Over(res, old(schedule), x, l, t) && (res.Booked? || res.AlreadyArranged? || res.Failed?)
    {
      Interlude(x);
      var open := CheckOpenTask(x, e);
      if open {
        return AlreadyArranged;
      }
      Interlude(x);
      if t in tasks {
        Abort(x);
        return Failed;
      }
      RunNoOpenTask(schedule, x);
      assert !HasOpenTask(View(), e);
      InsertAndCommit(x, e, t);
      res := Result.Booked(t);
    }

    /** From the lock on the equipment row to the commit. */
    method LockAndArrange(x: TxId, l: LinkId, e: EquipmentId, t: TaskId) returns (res: Result)
      requires Valid() && x in txs && txs[x] == Tx(l, Marked) && l in links && links[l].equipment == e
      modifies this
      ensures Valid() && Over(res, old(schedule), x, l, t) && !res.BadDate?
    {
      Interlude(x);
      if !EquipmentFree(View(), Some(x), e) {
        ghost var y :| y in txs && y != x && HoldsEquipment(View(), y, e);
        Abort(x);
        assert y in txs && links[txs[y].link].equipment == links[l].equipment;
        return Failed;
      }
      var locked := LockEquipment(x, e);
      if !locked {
        return NotFound;
      }
      res := Arrange(x, l, e, t);
    }

    /** datesOk says whether every requested window is a calendar date within range. The method returns
        Failed when it would have to go on waiting for a lock: the wait may outlast the statement timeout. */
    method Book(x: TxId, l: LinkId, datesOk: bool, t: TaskId) returns (res: Result)
      requires Valid() && x !in txs && l in links
      modifies this
      ensures Valid() && Over(res, old(schedule), x, l, t)
      ensures res.BadDate? <==> !datesOk
    {
      if !datesOk {
        return BadDate;
      }
      var e := links[l].equipment;
      Interlude(x);
      if !LinkFree(View(), x, l) {
        return Failed;
      }
      var count := MarkLink(x, l);
      if count == 0 {
        return LinkUsed;
      }
      res := LockAndArrange(x, l, e, t);
    }
  }
}
