/** Booking a service visit through single-use links, under concurrent READ COMMITTED transactions.

    A booking transaction marks its link, locks the equipment row, looks for an open task and inserts
    one; the insert, its outbox event and the commit are one step, since nothing is visible before the
    commit. A step that has to wait for a row lock leaves the state unchanged. */
module Booking {
  import opened Prelude

  type EquipmentId = nat
  type LinkId = nat
  type TaskId = nat
  type TxId = nat

  datatype Link = Link(equipment: EquipmentId, used: bool)

  datatype Task = Task(equipment: EquipmentId, open: bool)

  /** How far a booking transaction has come; Checked means it saw no open task. */
  datatype Phase = Marked | Locked | Checked

  datatype Tx = Tx(link: LinkId, phase: Phase)

  datatype State = State(
    equipment: map<EquipmentId, bool>,   // isActive
    links: map<LinkId, Link>,
    tasks: map<TaskId, Task>,
    outbox: seq<TaskId>,                 // task.created events
    txs: map<TxId, Tx>,
    made: map<LinkId, TaskId>)           // which link made which task; no table records it

  datatype Action =
    | AddEquipment(equipment: EquipmentId)
    | SetActive(equipment: EquipmentId, active: bool)
    | IssueLink(link: LinkId, equipment: EquipmentId)
    | FinishTask(task: TaskId)
    | Mark(tx: TxId, link: LinkId)
    | Lock(tx: TxId)
    | Check(tx: TxId)
    | Commit(tx: TxId, task: TaskId)
    | Rollback(tx: TxId)

  predicate HasOpenTask(s: State, e: EquipmentId) {
    exists t | t in s.tasks :: s.tasks[t].equipment == e && s.tasks[t].open
  }

  /** No other transaction has marked the link. */
  predicate LinkFree(s: State, x: TxId, l: LinkId) {
    forall y | y in s.txs && y != x :: s.txs[y].link != l
  }

  predicate HoldsEquipment(s: State, y: TxId, e: EquipmentId)
    requires y in s.txs
  {
    !s.txs[y].phase.Marked? && s.txs[y].link in s.links && s.links[s.txs[y].link].equipment == e
  }

  /** No other transaction holds the equipment row. */
  predicate EquipmentFree(s: State, x: Option<TxId>, e: EquipmentId) {
    forall y | y in s.txs && Some(y) != x :: !HoldsEquipment(s, y, e)
  }

  function End(s: State, x: TxId): State {
    s.(txs := s.txs - {x})
  }

  function Advance(s: State, x: TxId, phase: Phase): State
    requires x in s.txs
  {
    s.(txs := s.txs[x := Tx(s.txs[x].link, phase)])
  }

  function Apply(s: State, a: Action): State {
    match a
    case AddEquipment(e) => if e in s.equipment then s else s.(equipment := s.equipment[e := true])
    case SetActive(e, active) =>
      // waits for a transaction that holds the row
      if e in s.equipment && EquipmentFree(s, None, e) then s.(equipment := s.equipment[e := active]) else s
    case IssueLink(l, e) =>
      if l in s.links || e !in s.equipment then s else s.(links := s.links[l := Link(e, false)])
    case FinishTask(t) =>
      if t in s.tasks then s.(tasks := s.tasks[t := s.tasks[t].(open := false)]) else s
    case Mark(x, l) =>
      if x !in s.txs && l in s.links && LinkFree(s, x, l) && !s.links[l].used
      then s.(txs := s.txs[x := Tx(l, Marked)])
      else s
    case Lock(x) =>
      if x in s.txs && s.txs[x].phase.Marked? && s.txs[x].link in s.links
      then
        var e := s.links[s.txs[x].link].equipment;
        if !EquipmentFree(s, Some(x), e) then s
        else if e in s.equipment && s.equipment[e] then Advance(s, x, Locked)
        else End(s, x)
      else s
    case Check(x) =>
      if x in s.txs && s.txs[x].phase.Locked? && s.txs[x].link in s.links
      then if HasOpenTask(s, s.links[s.txs[x].link].equipment) then End(s, x) else Advance(s, x, Checked)
      else s
    case Commit(x, t) =>
      if x in s.txs && s.txs[x].phase.Checked? && s.txs[x].link in s.links && t !in s.tasks
      then
        var l := s.txs[x].link;
        End(s, x).(links := s.links[l := s.links[l].(used := true)],
                   tasks := s.tasks[t := Task(s.links[l].equipment, true)],
                   outbox := s.outbox + [t],
                   made := s.made[l := t])
      else s
    case Rollback(x) => End(s, x)
  }

  const EMPTY := State(map[], map[], map[], [], map[], map[])

  function Run(acts: seq<Action>): State {
    if acts == [] then EMPTY else Apply(Run(acts[..|acts| - 1]), acts[|acts| - 1])
  }

  lemma RunOneMore(acts: seq<Action>, a: Action)
    ensures Run(acts + [a]) == Apply(Run(acts), a)
  {
    assert (acts + [a])[..|acts|] == acts;
  }

  // ---------------------------------------------------------------------------------------------
  // Locks and the open task
  // ---------------------------------------------------------------------------------------------

  ghost predicate LocksOk(s: State) {
    && (forall x | x in s.txs :: s.txs[x].link in s.links && !s.links[s.txs[x].link].used)
    && (forall x, y | x in s.txs && y in s.txs && x != y :: s.txs[x].link != s.txs[y].link)
    && (forall x, y | x in s.txs && y in s.txs && x != y && !s.txs[x].phase.Marked? && !s.txs[y].phase.Marked? ::
          s.links[s.txs[x].link].equipment != s.links[s.txs[y].link].equipment)
    && (forall x | x in s.txs && !s.txs[x].phase.Marked? ::
          var e := s.links[s.txs[x].link].equipment; e in s.equipment && s.equipment[e])
  }

  ghost predicate TasksOk(s: State) {
    && (forall x | x in s.txs && s.txs[x].phase.Checked? && s.txs[x].link in s.links ::
          !HasOpenTask(s, s.links[s.txs[x].link].equipment))
    && forall t, u | t in s.tasks && u in s.tasks && s.tasks[t].open && s.tasks[u].open && t != u ::
          s.tasks[t].equipment != s.tasks[u].equipment
  }

  lemma LockKeepsLocks(s: State, x: TxId)
    requires LocksOk(s)
    ensures LocksOk(Apply(s, Lock(x)))
  {
    var s' := Apply(s, Lock(x));
    if s' != s && x in s'.txs {
      var e := s.links[s.txs[x].link].equipment;
      forall y | y in s.txs && y != x && !s.txs[y].phase.Marked? ensures s.links[s.txs[y].link].equipment != e {
        assert Some(y) != Some(x) && !HoldsEquipment(s, y, e);
      }
    }
  }

  lemma SetActiveKeepsLocks(s: State, e: EquipmentId, active: bool)
    requires LocksOk(s)
    ensures LocksOk(Apply(s, SetActive(e, active)))
  {
    if Apply(s, SetActive(e, active)) != s {
      forall y | y in s.txs && !s.txs[y].phase.Marked? ensures s.links[s.txs[y].link].equipment != e {
        assert Some(y) != None && !HoldsEquipment(s, y, e);
      }
    }
  }

  lemma MarkKeepsLocks(s: State, x: TxId, l: LinkId)
    requires LocksOk(s)
    ensures LocksOk(Apply(s, Mark(x, l)))
  {
  }

  lemma CheckKeepsLocks(s: State, x: TxId)
    requires LocksOk(s)
    ensures LocksOk(Apply(s, Check(x)))
  {
  }

  lemma EndKeepsLocks(s: State, a: Action)
    requires LocksOk(s) && (a.Commit? || a.Rollback?)
    ensures LocksOk(Apply(s, a))
  {
  }

  lemma RowStepKeepsLocks(s: State, a: Action)
    requires LocksOk(s) && (a.AddEquipment? || a.IssueLink? || a.FinishTask?)
    ensures LocksOk(Apply(s, a))
  {
  }

  lemma CommitKeepsTasks(s: State, x: TxId, t: TaskId)
    requires LocksOk(s) && TasksOk(s)
    ensures TasksOk(Apply(s, Commit(x, t)))
  {
    var s' := Apply(s, Commit(x, t));
    if s' != s {
      var e := s.links[s.txs[x].link].equipment;
      assert !HasOpenTask(s, e);
      forall y | y in s'.txs && s'.txs[y].phase.Checked? && s'.txs[y].link in s'.links
        ensures !HasOpenTask(s', s'.links[s'.txs[y].link].equipment)
      {
        assert y in s.txs && y != x && !HasOpenTask(s, s.links[s.txs[y].link].equipment);
        assert s.links[s.txs[y].link].equipment != e;
      }
    }
  }

  lemma NoNewOpenTask(s: State, a: Action, e: EquipmentId)
    requires !a.Commit? && HasOpenTask(Apply(s, a), e)
    ensures HasOpenTask(s, e)
  {
    var t :| t in Apply(s, a).tasks && Apply(s, a).tasks[t].equipment == e && Apply(s, a).tasks[t].open;
    assert t in s.tasks && s.tasks[t].equipment == e && s.tasks[t].open;
  }

  lemma CheckedBefore(s: State, a: Action, x: TxId)
    requires x in Apply(s, a).txs && Apply(s, a).txs[x].phase.Checked?
    requires x in s.txs ==> s.txs[x].link in s.links
    requires x in s.txs && s.txs[x].phase.Checked? ==> !HasOpenTask(s, s.links[s.txs[x].link].equipment)
    ensures x in s.txs && s.txs[x].link == Apply(s, a).txs[x].link && s.txs[x].link in s.links
    ensures !HasOpenTask(s, s.links[s.txs[x].link].equipment)
    ensures s.txs[x].link in Apply(s, a).links
    ensures Apply(s, a).links[s.txs[x].link].equipment == s.links[s.txs[x].link].equipment
  {
  }

  lemma TasksOnlyClose(s: State, a: Action, t: TaskId)
    requires !a.Commit? && t in Apply(s, a).tasks
    ensures t in s.tasks && s.tasks[t].equipment == Apply(s, a).tasks[t].equipment
    ensures Apply(s, a).tasks[t].open ==> s.tasks[t].open
  {
  }

  lemma CheckedStaysFree(s: State, a: Action, x: TxId)
    requires LocksOk(s) && TasksOk(s) && !a.Commit?
    requires x in Apply(s, a).txs && Apply(s, a).txs[x].phase.Checked? && Apply(s, a).txs[x].link in Apply(s, a).links
    ensures !HasOpenTask(Apply(s, a), Apply(s, a).links[Apply(s, a).txs[x].link].equipment)
  {
    CheckedBefore(s, a, x);
    var e := Apply(s, a).links[Apply(s, a).txs[x].link].equipment;
    if HasOpenTask(Apply(s, a), e) {
      NoNewOpenTask(s, a, e);
    }
  }

  lemma OtherStepKeepsTasks(s: State, a: Action)
    requires LocksOk(s) && TasksOk(s) && !a.Commit?
    ensures TasksOk(Apply(s, a))
  {
    var s' := Apply(s, a);
    forall x | x in s'.txs && s'.txs[x].phase.Checked? && s'.txs[x].link in s'.links
      ensures !HasOpenTask(s', s'.links[s'.txs[x].link].equipment)
    {
      CheckedStaysFree(s, a, x);
    }
    forall t | t in s'.tasks
      ensures t in s.tasks && s.tasks[t].equipment == s'.tasks[t].equipment && (s'.tasks[t].open ==> s.tasks[t].open)
    {
      TasksOnlyClose(s, a, t);
    }
  }

  // ---------------------------------------------------------------------------------------------
  // Used links and the tasks they made
  // ---------------------------------------------------------------------------------------------

  /** Every used link made one task of its equipment, and every task was made by one used link. */
  ghost predicate Paired(s: State) {
    && (forall l | l in s.made :: l in s.links && s.made[l] in s.tasks
          && s.tasks[s.made[l]].equipment == s.links[l].equipment)
    && (forall l | l in s.links :: s.links[l].used <==> l in s.made)
    && (forall l, m | l in s.made && m in s.made && l != m :: s.made[l] != s.made[m])
    && s.tasks.Keys == s.made.Values
  }

  /** One event per task. */
  ghost predicate EventsOk(s: State) {
    && (forall t :: t in s.outbox <==> t in s.tasks)
    && forall j, k | 0 <= j < k < |s.outbox| :: s.outbox[j] != s.outbox[k]
  }

  lemma CommitKeepsPairs(s: State, x: TxId, t: TaskId)
    requires LocksOk(s) && Paired(s)
    ensures Paired(Apply(s, Commit(x, t)))
  {
    var s' := Apply(s, Commit(x, t));
    if s' != s {
      var l := s.txs[x].link;
      assert l !in s.made;
      assert s'.made.Values == s.made.Values + {t} by {
        assert s'.made[l] == t;
        forall u | u in s.made.Values ensures u in s'.made.Values {
          var m :| m in s.made && s.made[m] == u;
          assert s'.made[m] == u;
        }
      }
    }
  }

  lemma OtherStepKeepsPairs(s: State, a: Action)
    requires Paired(s) && !a.Commit?
    ensures Paired(Apply(s, a))
  {
  }

  lemma StepKeepsEvents(s: State, a: Action)
    requires EventsOk(s)
    ensures EventsOk(Apply(s, a))
  {
    if a.Commit? && Apply(s, a) != s {
      assert a.task !in s.outbox;
    }
  }

  lemma StepKeeps(s: State, a: Action)
    requires LocksOk(s) && TasksOk(s) && Paired(s) && EventsOk(s)
    ensures LocksOk(Apply(s, a)) && TasksOk(Apply(s, a)) && Paired(Apply(s, a)) && EventsOk(Apply(s, a))
  {
    if a.Commit? { CommitKeepsTasks(s, a.tx, a.task); } else { OtherStepKeepsTasks(s, a); }
    StepKeepsEvents(s, a);
    match a
    case Lock(x) => LockKeepsLocks(s, x); OtherStepKeepsPairs(s, a);
    case SetActive(e, active) => SetActiveKeepsLocks(s, e, active); OtherStepKeepsPairs(s, a);
    case Mark(x, l) => MarkKeepsLocks(s, x, l); OtherStepKeepsPairs(s, a);
    case Commit(x, t) => CommitKeepsPairs(s, x, t); EndKeepsLocks(s, a);
    case Check(x) => CheckKeepsLocks(s, x); OtherStepKeepsPairs(s, a);
    case Rollback(_) => EndKeepsLocks(s, a); OtherStepKeepsPairs(s, a);
    case _ => RowStepKeepsLocks(s, a); OtherStepKeepsPairs(s, a);
  }

  lemma {:induction false} RunKeeps(acts: seq<Action>)
    ensures LocksOk(Run(acts)) && TasksOk(Run(acts)) && Paired(Run(acts)) && EventsOk(Run(acts))
  {
    if acts != [] {
      var s, a := Run(acts[..|acts| - 1]), acts[|acts| - 1];
      RunKeeps(acts[..|acts| - 1]);
      StepKeeps(s, a);
    }
  }

  /** Every piece of equipment has at most one open task. */
  lemma OneOpenTask(acts: seq<Action>, t: TaskId, u: TaskId)
    requires var s := Run(acts); t in s.tasks && u in s.tasks && s.tasks[t].open && s.tasks[u].open
    ensures Run(acts).tasks[t].equipment == Run(acts).tasks[u].equipment ==> t == u
  {
    RunKeeps(acts);
  }

  /** Used links and tasks correspond one to one: the pairing is a bijection that respects the equipment,
      and each task has exactly one event. */
  lemma {:induction false} UsedLinksMatchTasks(acts: seq<Action>)
    ensures var s := Run(acts);
      && s.made.Keys == (set l | l in s.links && s.links[l].used)
      && s.made.Values == s.tasks.Keys
      && (forall l, m | l in s.made && m in s.made && l != m :: s.made[l] != s.made[m])
      && (forall l | l in s.made ::
            l in s.links && s.made[l] in s.tasks && s.tasks[s.made[l]].equipment == s.links[l].equipment)
      && |s.tasks| == |s.outbox|
  {
    RunKeeps(acts);
    var s := Run(acts);
    DistinctCount(s.outbox);
    assert Elements(s.outbox) == s.tasks.Keys;
  }

  function Elements(xs: seq<nat>): set<nat> {
    set x | x in xs
  }

  lemma {:induction false} DistinctCount(xs: seq<nat>)
    requires forall j, k | 0 <= j < k < |xs| :: xs[j] != xs[k]
    ensures |Elements(xs)| == |xs|
  {
    if xs == [] {
      assert Elements(xs) == {};
    } else {
      var front, last := xs[..|xs| - 1], xs[|xs| - 1];
      DistinctCount(front);
      assert last !in front;
      assert Elements(xs) == Elements(front) + {last};
    }
  }

  /** A commit on an inactive piece of equipment cannot happen: the lock keeps it active to the end. */
  lemma BookedWhileActive(acts: seq<Action>, x: TxId, t: TaskId)
    requires Apply(Run(acts), Commit(x, t)) != Run(acts)
    ensures var s := Run(acts); var s' := Apply(s, Commit(x, t));
      && t in s'.tasks && s'.tasks[t].equipment in s.equipment && s.equipment[s'.tasks[t].equipment]
      && forall u | u in s.tasks && s.tasks[u].equipment == s'.tasks[t].equipment :: !s.tasks[u].open
  {
    RunKeeps(acts);
  }

  /** Equipment starts active; its flag changes when no booking holds the row; a link is issued unused for
      equipment that exists. */
  lemma RowSteps(s: State, e: EquipmentId, active: bool, l: LinkId)
    ensures e !in s.equipment ==> Apply(s, AddEquipment(e)) == s.(equipment := s.equipment[e := true])
    ensures e in s.equipment ==> Apply(s, AddEquipment(e)) == s
    ensures e in s.equipment
        && (forall y | y in s.txs && s.txs[y].phase != Marked && s.txs[y].link in s.links ::
              s.links[s.txs[y].link].equipment != e)
        ==> Apply(s, SetActive(e, active)) == s.(equipment := s.equipment[e := active])
    ensures Apply(s, IssueLink(l, e)) ==
            if e in s.equipment && l !in s.links then s.(links := s.links[l := Link(e, false)]) else s
  {
  }

  /** A booking waits exactly for a transaction that has marked its link, or holds the row of its equipment. */
  lemma WaitsExactlyWhen(acts: seq<Action>, x: TxId, l: LinkId)
    requires l in Run(acts).links
    ensures var s := Run(acts); x !in s.txs && !s.links[l].used ==>
      (Apply(s, Mark(x, l)) == s <==> exists y | y in s.txs :: s.txs[y].link == l)
    ensures var s := Run(acts); x in s.txs && s.txs[x] == Tx(l, Marked) ==>
      (Apply(s, Lock(x)) == s <==>
        exists y | y in s.txs && s.txs[y].phase != Marked && s.txs[y].link in s.links ::
          s.links[s.txs[y].link].equipment == s.links[l].equipment)
  {
    RunKeeps(acts);
    var s := Run(acts);
    if x !in s.txs {
      assert x in s.txs[x := Tx(l, Marked)];
    } else if s.txs[x] == Tx(l, Marked) {
      assert EquipmentFree(s, Some(x), s.links[l].equipment) ==> Apply(s, Lock(x)) != s;
    }
  }

  /** Undisturbed, the link is marked and the equipment locked exactly when the one is unused and the other
      active. */
  lemma AloneLocks(s: State, x: TxId, l: LinkId)
    requires s.txs == map[] && l in s.links
    ensures var e := s.links[l].equipment;
      Apply(Apply(s, Mark(x, l)), Lock(x)) ==
      if !s.links[l].used && e in s.equipment && s.equipment[e] then s.(txs := map[x := Tx(l, Locked)]) else s
  {
    if !s.links[l].used {
      var s1 := Apply(s, Mark(x, l));
      assert s1 == s.(txs := map[x := Tx(l, Marked)]);
      assert EquipmentFree(s1, Some(x), s.links[l].equipment);
      assert End(s1, x) == s;
    }
  }

  lemma AloneCommits(s: State, x: TxId, l: LinkId, t: TaskId)
    requires s.txs == map[] && l in s.links && t !in s.tasks
    ensures var locked, e := s.(txs := map[x := Tx(l, Locked)]), s.links[l].equipment;
      Apply(Apply(locked, Check(x)), Commit(x, t)) ==
      if HasOpenTask(s, e) then s
      else s.(links := s.links[l := Link(e, true)], tasks := s.tasks[t := Task(e, true)], outbox := s.outbox + [t],
              made := s.made[l := t])
  {
    var locked, e := s.(txs := map[x := Tx(l, Locked)]), s.links[l].equipment;
    assert HasOpenTask(locked, e) <==> HasOpenTask(s, e);
    assert End(locked, x) == s;
    var checked := s.(txs := map[x := Tx(l, Checked)]);
    assert !HasOpenTask(s, e) ==> Apply(locked, Check(x)) == checked;
    assert End(checked, x) == s;
  }

  /** Without other transactions in flight, a booking goes through exactly for an unused link to active
      equipment that has no open task. */
  lemma AloneBooksExactlyWhen(acts: seq<Action>, x: TxId, l: LinkId, t: TaskId)
    requires var s := Run(acts); s.txs == map[] && l in s.links && t !in s.tasks
    ensures var s := Run(acts);
      var s' := Apply(Apply(Apply(Apply(s, Mark(x, l)), Lock(x)), Check(x)), Commit(x, t));
      var e := s.links[l].equipment;
      if !s.links[l].used && e in s.equipment && s.equipment[e]
         && forall u | u in s.tasks && s.tasks[u].equipment == e :: !s.tasks[u].open
      then s'.links[l].used && t in s'.tasks && s'.tasks == s.tasks[t := Task(e, true)] && s'.outbox == s.outbox + [t]
      else s' == s
  {
    AloneLocks(Run(acts), x, l);
    AloneCommits(Run(acts), x, l, t);
  }
}
