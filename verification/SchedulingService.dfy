/** assignWithin as it runs: its statements in source order, with any other transactions in between. It is
    one schedule of the machine in module Scheduling. */
module SchedulingService {
  import opened Prelude
  import opened Scheduling

  datatype Result =
    | Assigned(user: UserId)
    | Disabled
    | TaskNotFound
    | TaskOver(status: Status)
    | NoTechnicians
    | NoSkilledTechnician
    | TaskChanged
    | TimedOut

  predicate By(a: Action, r: RunId) {
    match a
    case Begin(q, _) => q == r
    case Lock(q) => q == r
    case Choose(q, _) => q == r
    case Write(q) => q == r
    case Rollback(q) => q == r
    case _ => false
  }

  ghost predicate OthersRan(before: seq<Action>, after: seq<Action>, r: RunId) {
    before <= after && forall k | |before| <= k < |after| :: !By(after[k], r)
  }

  /** Between two statements the others may take any steps that are theirs. */
  lemma OthersMayRun(before: seq<Action>, more: seq<Action>, r: RunId)
    requires forall a | a in more :: a.Create? || a.StartWork? || a.Finish? || a.run != r
    ensures OthersRan(before, before + more, r)
  {
    forall k | |before| <= k < |before + more| ensures !By((before + more)[k], r) {
      assert (before + more)[k] in more;
    }
  }

  lemma {:induction false} OthersKeepJob(c: Company, before: seq<Action>, after: seq<Action>, r: RunId)
    requires OthersRan(before, after, r)
    ensures r in Run(c, after).jobs <==> r in Run(c, before).jobs
    ensures r in Run(c, before).jobs ==> Run(c, after).jobs[r] == Run(c, before).jobs[r]
    decreases |after|
  {
    if |after| == |before| {
      assert after == before;
    } else {
      OthersKeepJob(c, before, after[..|after| - 1], r);
    }
  }

  /** The loads a group-by returns: candidates without tasks have no group. */
  function Counts(tasks: map<TaskId, Task>, candidates: seq<Technician>): map<UserId, nat> {
    map k | 0 <= k < |candidates| && Load(tasks, candidates[k].id) > 0 ::
      candidates[k].id := Load(tasks, candidates[k].id)
  }

  class Database {
    const company: Company
    const enabled: bool
    var tasks: map<TaskId, Task>
    var holder: Option<RunId>
    var jobs: map<RunId, Job>
    ghost var schedule: seq<Action>

    function View(): State
      reads this
    {
      State(tasks, holder, jobs)
    }

    ghost predicate Valid()
      reads this
    {
      View() == Run(company, schedule)
    }

    constructor (company: Company, enabled: bool)
      ensures Valid() && schedule == [] && this.company == company && this.enabled == enabled
    {
      this.company, this.enabled := company, enabled;
      tasks, holder, jobs, schedule := map[], None, map[], [];
    }

    ghost method Record(a: Action)
      requires View() == Apply(company, Run(company, schedule), a)
      modifies this`schedule
      ensures Valid() && schedule == old(schedule) + [a]
    {
      ghost var before := schedule;
      RunOneMore(company, before, a);
      schedule := before + [a];
      assert Run(company, schedule) == Apply(company, Run(company, before), a);
    }

    /** Any number of statements of other transactions. */
    method Yield(r: RunId)
      requires Valid()
      modifies this
      ensures Valid() && OthersRan(old(schedule), schedule, r)
    {
    }

    method Interlude(r: RunId)
      requires Valid()
      modifies this
      ensures Valid()
      ensures r in jobs <==> r in old(jobs)
      ensures r in jobs ==> jobs[r] == old(jobs[r])
    {
      Yield(r);
      OthersKeepJob(company, old(schedule), schedule, r);
    }

    ghost function ScoreOf(task: Task, tech: Technician, tasks: map<TaskId, Task>): real {
      Score(company, task, tech, Load(tasks, tech.id))
    }

    /** The scoring loop: the first candidate with the highest score. */
    method PickBest(task: Task, eligible: seq<Technician>, loads: map<UserId, nat>) returns (best: nat)
      requires eligible == Eligible(company.staff, task.skill) && eligible != []
      requires loads == Counts(tasks, eligible)
      ensures IsBest(company, tasks, task, best)
    {
      var chosen: Option<(nat, real)> := None;
      ghost var top := 0;
      for i := 0 to |eligible|
        invariant i > 0 ==> top < i && chosen == Some((top, ScoreOf(task, eligible[top], tasks)))
        invariant i == 0 ==> chosen == None
        invariant forall j | 0 <= j < i :: ScoreOf(task, eligible[j], tasks) <= chosen.value.1
        invariant forall j | 0 <= j < i && j < top :: ScoreOf(task, eligible[j], tasks) < chosen.value.1
      {
        var id := eligible[i].id;
        var load := if id in loads then loads[id] else 0;
        assert load == Load(tasks, id);
        var score := Score(company, task, eligible[i], load);
        if chosen.None? || score > chosen.value.1 {
          chosen := Some((i, score));
          top := i;
        }
      }
      best := chosen.value.0;
    }

    method LockStaff(r: RunId) returns (eligible: seq<Technician>)
      requires Valid() && r in jobs && jobs[r].stage.Waiting? && holder == None
      modifies this`holder, this`jobs, this`schedule
      ensures Valid() && eligible == Eligible(company.staff, old(jobs[r].seen.skill))
      ensures eligible == [] ==> jobs == old(jobs) - {r} && holder == None
      ensures eligible != [] ==> holder == Some(r)
      ensures eligible != [] ==> jobs == old(jobs)[r := Job(old(jobs[r].target), old(jobs[r].seen), Locked)]
    {
      var job := jobs[r];
      eligible := Eligible(company.staff, job.seen.skill);
      if eligible == [] {
        jobs := jobs - {r};
      } else {
        holder := Some(r);
        jobs := jobs[r := Job(job.target, job.seen, Locked)];
      }
      Record(Lock(r));
    }

    method ChooseBest(r: RunId, eligible: seq<Technician>) returns (best: nat)
      requires Valid() && r in jobs && jobs[r].stage.Locked?
      requires eligible == Eligible(company.staff, jobs[r].seen.skill) && eligible != []
      modifies this`jobs, this`schedule
      ensures Valid() && best < |eligible| && IsBest(company, tasks, old(jobs[r].seen), best)
      ensures jobs == old(jobs)[r := Job(old(jobs[r].target), old(jobs[r].seen), Scored(best))]
    {
      var job := jobs[r];
      best := PickBest(job.seen, eligible, Counts(tasks, eligible));
      jobs := jobs[r := Job(job.target, job.seen, Scored(best))];
      Record(Choose(r, best));
    }

    /** The conditional update, and the commit that releases the staff rows. */
    method WriteAssignment(r: RunId, user: UserId) returns (count: nat)
      requires Valid() && r in jobs && jobs[r].stage.Scored?
      requires jobs[r].stage.best < |Eligible(company.staff, jobs[r].seen.skill)|
      requires Eligible(company.staff, jobs[r].seen.skill)[jobs[r].stage.best].id == user
      modifies this
      ensures Valid() && jobs == old(jobs) - {r}
      ensures count > 0 <==>
          old(jobs[r].target) in old(tasks) && old(tasks)[old(jobs[r].target)].status in {NEW, ASSIGNED}
      ensures count == 0 ==> tasks == old(tasks)
      ensures count > 0 ==>
        tasks == Scheduling.Assigned(old(tasks), old(jobs[r].target), user)
    {
      var t := jobs[r].target;
      if t in tasks && tasks[t].status in {NEW, ASSIGNED} {
        tasks := tasks[t := tasks[t].(status := ASSIGNED, assignee := Some(user))];
        count := 1;
      } else {
        count := 0;
      }
      jobs := jobs - {r};
      holder := if holder == Some(r) then None else holder;
      Record(Write(r));
    }

    /** While another run holds the staff rows this one waits; the transaction timeout may end the wait. */
    method AssignWithin(r: RunId, t: TaskId)
      returns (res: Result, ghost counted: map<TaskId, Task>, ghost read: Option<Task>)
      requires Valid() && r !in jobs
      modifies this
      ensures Valid() && r !in jobs
      ensures res.Disabled? <==> !enabled
      ensures res.TaskNotFound? <==> enabled && t !in old(tasks)
      ensures res.TaskOver? <==> enabled && t in old(tasks) && old(tasks[t]).status in {CLOSED, CANCELLED}
      ensures res.NoTechnicians? ==> company.staff == []
      ensures res.NoSkilledTechnician? ==> Eligible(company.staff, old(tasks[t]).skill) == []
      ensures res.TimedOut? ==> holder != None && holder != Some(r)
      ensures res.TaskChanged? ==> t !in tasks || tasks[t].status !in {NEW, ASSIGNED}
      // the user written is the best candidate for the task as read, at the loads counted under the lock
      ensures res.Assigned? ==> t in tasks && tasks[t].status == ASSIGNED && tasks[t].assignee == Some(res.user)
      ensures res.Assigned? ==> read == Some(old(tasks[t]))
      ensures res.Assigned? ==> exists i: nat ::
          IsBest(company, counted, read.value, i) && Eligible(company.staff, read.value.skill)[i].id == res.user
    {
      counted, read := map[], None;
      if !enabled {
        return Disabled, counted, read;
      }
      if t !in tasks {
        return TaskNotFound, counted, read;
      }
      var task := tasks[t];
      if task.status == CLOSED || task.status == CANCELLED {
        return TaskOver(task.status), counted, read;
      }
      read := Some(task);
      jobs := jobs[r := Job(t, task, Waiting)];
      Record(Begin(r, t));

      Interlude(r);
      if holder != None {
        RunOneHolder(company, schedule);
        GiveUp(r);
        return TimedOut, counted, read;
      }
      var eligible := LockStaff(r);
      if company.staff == [] {
        return NoTechnicians, counted, read;
      }
      if eligible == [] {
        return NoSkilledTechnician, counted, read;
      }
      Interlude(r);
      counted := tasks;
      var best := ChooseBest(r, eligible);
      Interlude(r);
      var count := WriteAssignment(r, eligible[best].id);
      if count == 0 {
        return TaskChanged, counted, read;
      }
      res := Assigned(eligible[best].id);
    }

    method GiveUp(r: RunId)
      requires Valid() && r in jobs
      modifies this`jobs, this`holder, this`schedule
      ensures Valid() && jobs == old(jobs) - {r}
      ensures old(holder) != Some(r) ==> holder == old(holder)
    {
      jobs := jobs - {r};
      holder := if holder == Some(r) then None else holder;
      Record(Rollback(r));
    }
  }
}
