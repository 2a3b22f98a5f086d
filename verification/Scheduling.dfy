/** Assigning tasks to technicians: concurrent assignment runs that lock the staff rows, count committed
    loads, pick a technician of highest score and write the task conditionally on its status.

    The staff is fixed during a run of the machine. Distance is any function of two places, and scores
    are real numbers. */
module Scheduling {
  import opened Prelude

  type UserId = nat
  type TaskId = nat
  type RunId = nat

  datatype Place = Place(lat: real, lng: real)

  type Km = x: real | x >= 0.0 witness 0.0

  datatype Status = NEW | ASSIGNED | IN_PROGRESS | CLOSED | CANCELLED

  datatype Technician = Technician(id: UserId, skills: set<string>, home: Option<Place>)

  datatype Task = Task(status: Status, assignee: Option<UserId>, place: Option<Place>, skill: string)

  datatype Weights = Weights(skill: real, distance: real, load: real)

  /** The active field staff in id order, the weights and the distance in kilometres. */
  datatype Company = Company(staff: seq<Technician>, weights: Weights, km: (Place, Place) -> Km)

  datatype Stage = Waiting | Locked | Scored(best: nat)

  /** seen is the task as the run read it before it locked the staff. */
  datatype Job = Job(target: TaskId, seen: Task, stage: Stage)

  datatype State = State(tasks: map<TaskId, Task>, holder: Option<RunId>, jobs: map<RunId, Job>)

  datatype Action =
    | Create(task: TaskId, place: Option<Place>, skill: string)
    | StartWork(task: TaskId)
    | Finish(task: TaskId, status: Status)
    | Begin(run: RunId, task: TaskId)
    | Lock(run: RunId)
    | Choose(run: RunId, best: nat)
    | Write(run: RunId)
    | Rollback(run: RunId)

  // ---------------------------------------------------------------------------------------------
  // Scores
  // ---------------------------------------------------------------------------------------------

  /** A task without a skill, or with an empty one, suits everyone. */
  function Eligible(staff: seq<Technician>, skill: string): (r: seq<Technician>)
    ensures skill == "" ==> r == staff
  {
    if staff == [] then []
    else
      var rest := Eligible(staff[1..], skill);
      if skill == "" || skill in staff[0].skills then [staff[0]] + rest else rest
  }

  predicate Active(task: Task, u: UserId) {
    (task.status == ASSIGNED || task.status == IN_PROGRESS) && task.assignee == Some(u)
  }

  function TasksOf(tasks: map<TaskId, Task>, u: UserId): set<TaskId> {
    set t | t in tasks && Active(tasks[t], u)
  }

  function Load(tasks: map<TaskId, Task>, u: UserId): nat {
    |TasksOf(tasks, u)|
  }

  function DistanceScore(km: (Place, Place) -> Km, task: Task, tech: Technician): real {
    if task.place.Some? && tech.home.Some?
    then 1.0 / (1.0 + km(task.place.value, tech.home.value))
    else 0.5
  }

  function LoadScore(load: nat): real {
    1.0 / (1.0 + load as real)
  }

  function Score(c: Company, task: Task, tech: Technician, load: nat): real {
    c.weights.skill * (if task.skill != "" then 1.0 else 0.5)
    + c.weights.distance * DistanceScore(c.km, task, tech)
    + c.weights.load * LoadScore(load)
  }

  lemma TimesInverse(x: real)
    requires x > 0.0
    ensures 1.0 / x * x == 1.0
  {
  }

  lemma WeighedParts(d: real, l: real, near: real, idle: real, k: real, n: real)
    requires near * k == 1.0 && idle * n == 1.0
    ensures (d * near + l * idle) * k * n == d * n + l * k
  {
    assert d * near * k == d && l * idle * n == l;
    assert (d * near + l * idle) * k * n == d * near * k * n + l * idle * n * k;
  }

  /** The score without its fractions: k stands for one kilometre more than the distance, an unknown place
      counting as one kilometre, and n for one task more than the load. */
  lemma ScoreIs(c: Company, task: Task, tech: Technician, load: nat, k: real, n: real)
    requires n == 1.0 + load as real
    requires k == if task.place.Some? && tech.home.Some? then 1.0 + c.km(task.place.value, tech.home.value) else 2.0
    ensures (Score(c, task, tech, load) - c.weights.skill * if task.skill == "" then 0.5 else 1.0) * k * n
         == c.weights.distance * n + c.weights.load * k
  {
    TimesInverse(k);
    TimesInverse(n);
    WeighedParts(c.weights.distance, c.weights.load, DistanceScore(c.km, task, tech), LoadScore(load), k, n);
  }

  /** The eligible keep their order, and one technician is eligible without a skill or with the one asked for. */
  lemma {:induction false} EligibleOfConcat(xs: seq<Technician>, ys: seq<Technician>, skill: string)
    ensures Eligible(xs + ys, skill) == Eligible(xs, skill) + Eligible(ys, skill)
  {
    if xs == [] {
      assert xs + ys == ys;
    } else {
      EligibleOfConcat(xs[1..], ys, skill);
      assert (xs + ys)[1..] == xs[1..] + ys;
    }
  }

  lemma EligibleOfOne(x: Technician, skill: string)
    ensures Eligible([x], skill) == if skill != "" && skill !in x.skills then [] else [x]
  {
  }

  /** The candidate at i has the highest score, and none before it has as high a score. */
  predicate IsBest(c: Company, tasks: map<TaskId, Task>, task: Task, i: nat) {
    var candidates := Eligible(c.staff, task.skill);
    && i < |candidates|
    && forall j | 0 <= j < |candidates| ::
         var mine, other := Score(c, task, candidates[i], Load(tasks, candidates[i].id)),
                            Score(c, task, candidates[j], Load(tasks, candidates[j].id));
         other <= mine && (j < i ==> other < mine)
  }

  // ---------------------------------------------------------------------------------------------
  // The machine
  // ---------------------------------------------------------------------------------------------

  function End(s: State, r: RunId): State {
    s.(jobs := s.jobs - {r}, holder := if s.holder == Some(r) then None else s.holder)
  }

  function Assigned(tasks: map<TaskId, Task>, t: TaskId, u: UserId): map<TaskId, Task>
    requires t in tasks
  {
    tasks[t := tasks[t].(status := ASSIGNED, assignee := Some(u))]
  }

  function Apply(c: Company, s: State, a: Action): State {
    match a
    case Create(t, place, skill) =>
      if t in s.tasks then s else s.(tasks := s.tasks[t := Task(NEW, None, place, skill)])
    case StartWork(t) =>
      if t in s.tasks && s.tasks[t].status == ASSIGNED
      then s.(tasks := s.tasks[t := s.tasks[t].(status := IN_PROGRESS)])
      else s
    case Finish(t, status) =>
      if t in s.tasks && s.tasks[t].status !in {CLOSED, CANCELLED} && status in {CLOSED, CANCELLED}
      then s.(tasks := s.tasks[t := s.tasks[t].(status := status)])
      else s
    case Begin(r, t) =>
      if r !in s.jobs && t in s.tasks && s.tasks[t].status !in {CLOSED, CANCELLED}
      then s.(jobs := s.jobs[r := Job(t, s.tasks[t], Waiting)])
      else s
    case Lock(r) =>
      if r in s.jobs && s.jobs[r].stage.Waiting? && s.holder == None
      then
        if Eligible(c.staff, s.jobs[r].seen.skill) == [] then End(s, r)
        else s.(holder := Some(r), jobs := s.jobs[r := Job(s.jobs[r].target, s.jobs[r].seen, Locked)])
      else s
    case Choose(r, i) =>
      if r in s.jobs && s.jobs[r].stage.Locked? && IsBest(c, s.tasks, s.jobs[r].seen, i)
      then s.(jobs := s.jobs[r := Job(s.jobs[r].target, s.jobs[r].seen, Scored(i))])
      else s
    case Write(r) =>
      if r in s.jobs && s.jobs[r].stage.Scored?
      then
        var Job(t, seen, Scored(i)) := s.jobs[r];
        if t in s.tasks && s.tasks[t].status in {NEW, ASSIGNED} && i < |Eligible(c.staff, seen.skill)|
        then End(s, r).(tasks := Assigned(s.tasks, t, Eligible(c.staff, seen.skill)[i].id))
        else End(s, r)
      else s
    case Rollback(r) => End(s, r)
  }

  function Run(c: Company, acts: seq<Action>): State {
    if acts == [] then State(map[], None, map[]) else Apply(c, Run(c, acts[..|acts| - 1]), acts[|acts| - 1])
  }

  lemma RunOneMore(c: Company, acts: seq<Action>, a: Action)
    ensures Run(c, acts + [a]) == Apply(c, Run(c, acts), a)
  {
    assert (acts + [a])[..|acts|] == acts;
  }

  // ---------------------------------------------------------------------------------------------
  // The lock
  // ---------------------------------------------------------------------------------------------

  /** Past its lock only the holder counts, chooses and writes. */
  ghost predicate OneHolder(s: State) {
    && (forall r | r in s.jobs && !s.jobs[r].stage.Waiting? :: s.holder == Some(r))
    && (s.holder.Some? ==> s.holder.value in s.jobs && !s.jobs[s.holder.value].stage.Waiting?)
  }

  lemma {:induction false} RunOneHolder(c: Company, acts: seq<Action>)
    ensures OneHolder(Run(c, acts))
  {
    if acts != [] {
      RunOneHolder(c, acts[..|acts| - 1]);
    }
  }

  ghost predicate SameLoads(tasks: map<TaskId, Task>, tasks': map<TaskId, Task>) {
    forall u: UserId :: Load(tasks, u) == Load(tasks', u)
  }

  lemma SameActiveSameLoads(tasks: map<TaskId, Task>, tasks': map<TaskId, Task>)
    requires forall t, u :: (t in tasks && Active(tasks[t], u)) <==> (t in tasks' && Active(tasks'[t], u))
    ensures SameLoads(tasks, tasks')
  {
    forall u: UserId ensures Load(tasks, u) == Load(tasks', u) {
      assert TasksOf(tasks, u) == TasksOf(tasks', u);
    }
  }

  /** Only finishing a task and writing an assignment change a load. */
  lemma StepKeepsLoads(c: Company, s: State, a: Action)
    requires !a.Finish? && !a.Write?
    ensures SameLoads(s.tasks, Apply(c, s, a).tasks)
  {
    SameActiveSameLoads(s.tasks, Apply(c, s, a).tasks);
  }

  ghost predicate ChoiceHolds(c: Company, s: State) {
    forall r | r in s.jobs && s.jobs[r].stage.Scored? :: IsBest(c, s.tasks, s.jobs[r].seen, s.jobs[r].stage.best)
  }

  lemma StepKeepsChoice(c: Company, s: State, a: Action)
    requires OneHolder(s) && ChoiceHolds(c, s) && !a.Finish?
    ensures ChoiceHolds(c, Apply(c, s, a))
  {
    var s' := Apply(c, s, a);
    forall r | r in s'.jobs && s'.jobs[r].stage.Scored?
      ensures IsBest(c, s'.tasks, s'.jobs[r].seen, s'.jobs[r].stage.best)
    {
      if !a.Write? {
        StepKeepsLoads(c, s, a);
        assert IsBest(c, s.tasks, s'.jobs[r].seen, s'.jobs[r].stage.best);
      }
    }
  }

  /** While no task is finished, the choice a run made under the lock is still a best one, at the loads of
      that moment, when it is written. */
  lemma {:induction false} ChoiceIsBestWhenWritten(c: Company, acts: seq<Action>, r: RunId)
    requires forall a | a in acts :: !a.Finish?
    requires r in Run(c, acts).jobs && Run(c, acts).jobs[r].stage.Scored?
    ensures var s := Run(c, acts); IsBest(c, s.tasks, s.jobs[r].seen, s.jobs[r].stage.best)
  {
    RunChoiceHolds(c, acts);
  }

  lemma {:induction false} RunChoiceHolds(c: Company, acts: seq<Action>)
    requires forall a | a in acts :: !a.Finish?
    ensures ChoiceHolds(c, Run(c, acts))
  {
    if acts != [] {
      var front := acts[..|acts| - 1];
      assert acts[|acts| - 1] in acts && forall a | a in front :: a in acts;
      RunChoiceHolds(c, front);
      RunOneHolder(c, front);
      StepKeepsChoice(c, Run(c, front), acts[|acts| - 1]);
    }
  }

  // ---------------------------------------------------------------------------------------------
  // Balance
  // ---------------------------------------------------------------------------------------------

  ghost predicate DistinctIds(staff: seq<Technician>) {
    forall i, j | 0 <= i < j < |staff| :: staff[i].id != staff[j].id
  }

  /** Those who may be given a task of this skill, in id order. */
  function Crew(c: Company, skill: string): seq<Technician> {
    Eligible(c.staff, skill)
  }

  lemma {:induction false} EligibleAreStaff(staff: seq<Technician>, skill: string)
    requires DistinctIds(staff)
    ensures DistinctIds(Eligible(staff, skill)) && forall x | x in Eligible(staff, skill) :: x in staff
  {
    if staff != [] {
      EligibleAreStaff(staff[1..], skill);
      assert forall x | x in staff[1..] :: x.id != staff[0].id;
    }
  }

  ghost predicate AlikeTask(task: Task, skill: string) {
    task.place == None && task.skill == skill
  }

  /** Tasks without place and of one skill, none of them finished. */
  ghost predicate AlikeAction(a: Action, skill: string) {
    !a.Finish? && (a.Create? ==> a.place == None && a.skill == skill)
  }

  ghost predicate Alike(s: State, skill: string) {
    && (forall t | t in s.tasks :: AlikeTask(s.tasks[t], skill))
    && forall r | r in s.jobs :: AlikeTask(s.jobs[r].seen, skill)
  }

  ghost predicate InCrew(crew: seq<Technician>, u: UserId) {
    exists k | 0 <= k < |crew| :: crew[k].id == u
  }

  /** Tasks in hand are in the hands of the crew. */
  ghost predicate HeldByCrew(crew: seq<Technician>, tasks: map<TaskId, Task>) {
    forall t | t in tasks && tasks[t].status in {ASSIGNED, IN_PROGRESS} ::
      tasks[t].assignee.Some? && InCrew(crew, tasks[t].assignee.value)
  }

  /** The write gives out a new task, or hands an assigned one back to its holder or on from someone with a
      higher load. */
  predicate EvenWrite(c: Company, s: State, r: RunId) {
    r in s.jobs && s.jobs[r].stage.Scored? && s.jobs[r].target in s.tasks ==>
      EvenMove(s.tasks, s.tasks[s.jobs[r].target], Crew(c, s.jobs[r].seen.skill), s.jobs[r].stage.best)
  }

  predicate EvenMove(tasks: map<TaskId, Task>, task: Task, crew: seq<Technician>, best: nat) {
    task.status == ASSIGNED && task.assignee.Some? && best < |crew| ==>
      crew[best].id == task.assignee.value || Load(tasks, task.assignee.value) > Load(tasks, crew[best].id)
  }

  ghost predicate EvenWrites(c: Company, acts: seq<Action>) {
    forall k | 0 <= k < |acts| && acts[k].Write? :: EvenWrite(c, Run(c, acts[..k]), acts[k].run)
  }

  ghost predicate Balanced(crew: seq<Technician>, tasks: map<TaskId, Task>) {
    forall i, j | 0 <= i < |crew| && 0 <= j < |crew| :: Load(tasks, crew[i].id) <= Load(tasks, crew[j].id) + 1
  }

  lemma LoadScoreFalls(a: nat, b: nat)
    requires a < b
    ensures LoadScore(b) < LoadScore(a)
  {
    var x, y := 1.0 + a as real, 1.0 + b as real;
    assert x * y > 0.0;
    assert 1.0 / x - 1.0 / y == (y - x) / (x * y);
  }

  lemma Scaled(w: real, x: real, y: real)
    requires w > 0.0 && x < y
    ensures w * x < w * y
  {
    assert w * (y - x) > 0.0;
  }

  /** For a task without place only the load tells candidates apart. */
  lemma AlikeScores(c: Company, task: Task, x: Technician, y: Technician, a: nat, b: nat)
    requires task.place == None && c.weights.load > 0.0 && b < a
    ensures Score(c, task, x, a) < Score(c, task, y, b)
  {
    LoadScoreFalls(b, a);
    Scaled(c.weights.load, LoadScore(a), LoadScore(b));
    assert DistanceScore(c.km, task, x) == 0.5 && DistanceScore(c.km, task, y) == 0.5;
  }

  /** For such a task the best candidate is a least loaded one among the eligible. */
  lemma {:induction false} BestIsLeastLoaded(c: Company, tasks: map<TaskId, Task>, task: Task, i: nat, j: nat)
    requires task.place == None && c.weights.load > 0.0
    requires IsBest(c, tasks, task, i) && j < |Crew(c, task.skill)|
    ensures var crew := Crew(c, task.skill);
      i < |crew| && Load(tasks, crew[i].id) <= Load(tasks, crew[j].id)
  {
    var crew := Crew(c, task.skill);
    var a, b := Load(tasks, crew[i].id), Load(tasks, crew[j].id);
    if b < a {
      AlikeScores(c, task, crew[i], crew[j], a, b);
    }
  }

  /** The loads, the task and the staff leave only one choice: a tie goes to the first candidate. */
  lemma BestIsUnique(c: Company, tasks: map<TaskId, Task>, task: Task, i: nat, j: nat)
    requires IsBest(c, tasks, task, i) && IsBest(c, tasks, task, j)
    ensures i == j
    ensures forall k | 0 <= k < i :: var crew := Crew(c, task.skill);
      Score(c, task, crew[k], Load(tasks, crew[k].id)) < Score(c, task, crew[i], Load(tasks, crew[i].id))
  {
    var crew := Crew(c, task.skill);
    var x, y := Score(c, task, crew[i], Load(tasks, crew[i].id)), Score(c, task, crew[j], Load(tasks, crew[j].id));
    assert x <= y && y <= x;
  }

  lemma NearerScores(c: Company, task: Task, x: Technician, y: Technician, load: nat)
    requires c.weights.distance > 0.0 && task.place.Some? && x.home.Some? && y.home.Some?
    requires c.km(task.place.value, y.home.value) < c.km(task.place.value, x.home.value)
    ensures Score(c, task, x, load) < Score(c, task, y, load)
  {
    var far, near := 1.0 + c.km(task.place.value, x.home.value), 1.0 + c.km(task.place.value, y.home.value);
    assert far * near > 0.0;
    assert 1.0 / near - 1.0 / far == (far - near) / (far * near);
    Scaled(c.weights.distance, 1.0 / far, 1.0 / near);
  }

  /** Among equally loaded technicians with a home the best candidate is a nearest one. */
  lemma BestIsNearest(c: Company, tasks: map<TaskId, Task>, task: Task, i: nat, j: nat)
    requires c.weights.distance > 0.0 && task.place.Some? && IsBest(c, tasks, task, i) && j < |Crew(c, task.skill)|
    requires var x, y := Crew(c, task.skill)[i], Crew(c, task.skill)[j];
      x.home.Some? && y.home.Some? && Load(tasks, x.id) == Load(tasks, y.id)
    ensures var x, y := Crew(c, task.skill)[i], Crew(c, task.skill)[j];
      c.km(task.place.value, x.home.value) <= c.km(task.place.value, y.home.value)
  {
    var x, y := Crew(c, task.skill)[i], Crew(c, task.skill)[j];
    if c.km(task.place.value, y.home.value) < c.km(task.place.value, x.home.value) {
      NearerScores(c, task, x, y, Load(tasks, x.id));
    }
  }

  /** The best of the crew, in terms of loads alone. */
  ghost predicate LeastLoaded(crew: seq<Technician>, tasks: map<TaskId, Task>, best: nat) {
    best < |crew| && forall j | 0 <= j < |crew| :: Load(tasks, crew[best].id) <= Load(tasks, crew[j].id)
  }

  /** What a write takes from the holder, if any, and gives to the user. */
  lemma AssignedLoads(tasks: map<TaskId, Task>, t: TaskId, u: UserId, v: UserId)
    requires t in tasks
    ensures Load(Assigned(tasks, t, u), v) ==
            Load(tasks, v) - (if Active(tasks[t], v) then 1 else 0) + if u == v then 1 else 0
  {
    var tasks' := Assigned(tasks, t, u);
    assert TasksOf(tasks', v) == if u == v then TasksOf(tasks, v) - {t} + {t} else TasksOf(tasks, v) - {t};
  }

  /** Finishing a task takes it from whoever had it assigned or in progress, and from no one else. */
  lemma FinishedLoads(c: Company, s: State, t: TaskId, status: Status, v: UserId)
    requires t in s.tasks && s.tasks[t].status !in {CLOSED, CANCELLED} && status in {CLOSED, CANCELLED}
    ensures Load(Apply(c, s, Finish(t, status)).tasks, v) == Load(s.tasks, v) -
            if s.tasks[t].status in {ASSIGNED, IN_PROGRESS} && s.tasks[t].assignee == Some(v) then 1 else 0
  {
    assert TasksOf(Apply(c, s, Finish(t, status)).tasks, v) == TasksOf(s.tasks, v) - {t};
  }

  lemma EvenMoveBalances(crew: seq<Technician>, tasks: map<TaskId, Task>, t: TaskId, best: nat)
    requires DistinctIds(crew) && LeastLoaded(crew, tasks, best) && Balanced(crew, tasks)
    requires t in tasks && tasks[t].status in {NEW, ASSIGNED} && EvenMove(tasks, tasks[t], crew, best)
    ensures Balanced(crew, Assigned(tasks, t, crew[best].id))
  {
    var tasks' := Assigned(tasks, t, crew[best].id);
    forall i, j | 0 <= i < |crew| && 0 <= j < |crew|
      ensures Load(tasks', crew[i].id) <= Load(tasks', crew[j].id) + 1
    {
      AssignedLoads(tasks, t, crew[best].id, crew[i].id);
      AssignedLoads(tasks, t, crew[best].id, crew[j].id);
    }
  }

  lemma UnevenMoveUnbalances(crew: seq<Technician>, tasks: map<TaskId, Task>, t: TaskId, best: nat)
    requires DistinctIds(crew) && LeastLoaded(crew, tasks, best) && HeldByCrew(crew, tasks)
    requires t in tasks && tasks[t].status in {NEW, ASSIGNED} && !EvenMove(tasks, tasks[t], crew, best)
    ensures !Balanced(crew, Assigned(tasks, t, crew[best].id))
  {
    var u :| 0 <= u < |crew| && crew[u].id == tasks[t].assignee.value;
    AssignedLoads(tasks, t, crew[best].id, crew[u].id);
    AssignedLoads(tasks, t, crew[best].id, crew[best].id);
  }

  /** Giving a task of the crew to a least loaded member keeps the balance exactly when the move is even. */
  lemma BalancedExactlyWhenEven(crew: seq<Technician>, tasks: map<TaskId, Task>, t: TaskId, best: nat)
    requires DistinctIds(crew) && LeastLoaded(crew, tasks, best) && Balanced(crew, tasks) && HeldByCrew(crew, tasks)
    requires t in tasks && tasks[t].status in {NEW, ASSIGNED}
    ensures Balanced(crew, Assigned(tasks, t, crew[best].id)) <==> EvenMove(tasks, tasks[t], crew, best)
  {
    if EvenMove(tasks, tasks[t], crew, best) {
      EvenMoveBalances(crew, tasks, t, best);
    } else {
      UnevenMoveUnbalances(crew, tasks, t, best);
    }
  }

  /** What every state of an alike run keeps, balanced or not. */
  ghost predicate AlikeInv(c: Company, skill: string, s: State) {
    Alike(s, skill) && HeldByCrew(Crew(c, skill), s.tasks)
  }

  lemma StepKeepsAlike(c: Company, skill: string, s: State, a: Action)
    requires Alike(s, skill) && AlikeAction(a, skill)
    ensures Alike(Apply(c, s, a), skill)
  {
  }

  lemma StepKeepsHeld(c: Company, skill: string, s: State, a: Action)
    requires Alike(s, skill) && HeldByCrew(Crew(c, skill), s.tasks) && !a.Write?
    ensures HeldByCrew(Crew(c, skill), Apply(c, s, a).tasks)
  {
    var tasks' := Apply(c, s, a).tasks;
    forall t | t in tasks' && tasks'[t].status in {ASSIGNED, IN_PROGRESS}
      ensures tasks'[t].assignee.Some? && InCrew(Crew(c, skill), tasks'[t].assignee.value)
    {
      assert t in s.tasks && s.tasks[t].assignee == tasks'[t].assignee;
    }
  }

  lemma WriteKeepsHeld(c: Company, skill: string, s: State, r: RunId)
    requires Alike(s, skill) && HeldByCrew(Crew(c, skill), s.tasks)
    ensures HeldByCrew(Crew(c, skill), Apply(c, s, Write(r)).tasks)
  {
    if Apply(c, s, Write(r)).tasks != s.tasks {
      assert AlikeTask(s.jobs[r].seen, skill);
      var best := s.jobs[r].stage.best;
      assert InCrew(Crew(c, skill), Crew(c, skill)[best].id);
    }
  }

  lemma {:induction false} RunAlike(c: Company, skill: string, acts: seq<Action>)
    requires forall a | a in acts :: AlikeAction(a, skill)
    ensures AlikeInv(c, skill, Run(c, acts))
  {
    if acts != [] {
      var front, a := acts[..|acts| - 1], acts[|acts| - 1];
      assert a in acts && forall b | b in front :: b in acts;
      RunAlike(c, skill, front);
      StepKeepsAlike(c, skill, Run(c, front), a);
      if a.Write? {
        WriteKeepsHeld(c, skill, Run(c, front), a.run);
      } else {
        StepKeepsHeld(c, skill, Run(c, front), a);
      }
    }
  }

  lemma OtherStepKeepsBalance(c: Company, crew: seq<Technician>, s: State, a: Action)
    requires Balanced(crew, s.tasks) && !a.Finish? && !a.Write?
    ensures Balanced(crew, Apply(c, s, a).tasks)
  {
    StepKeepsLoads(c, s, a);
  }

  lemma WriteBalancesExactlyWhenEven(c: Company, skill: string, s: State, r: RunId)
    requires DistinctIds(Crew(c, skill)) && c.weights.load > 0.0
    requires AlikeInv(c, skill, s) && ChoiceHolds(c, s) && Balanced(Crew(c, skill), s.tasks)
    ensures Balanced(Crew(c, skill), Apply(c, s, Write(r)).tasks) <==> EvenWrite(c, s, r)
  {
    var crew := Crew(c, skill);
    if r in s.jobs && s.jobs[r].stage.Scored? {
      var Job(t, seen, Scored(best)) := s.jobs[r];
      assert AlikeTask(seen, skill) && IsBest(c, s.tasks, seen, best);
      if t in s.tasks && s.tasks[t].status in {NEW, ASSIGNED} {
        forall j | 0 <= j < |crew| ensures Load(s.tasks, crew[best].id) <= Load(s.tasks, crew[j].id) {
          BestIsLeastLoaded(c, s.tasks, seen, best, j);
        }
        BalancedExactlyWhenEven(crew, s.tasks, t, best);
        assert Apply(c, s, Write(r)).tasks == Assigned(s.tasks, t, crew[best].id);
      }
    }
  }

  /** One step of a run between balanced states is, if a write, an even one, and the other way round. */
  lemma StepBalancesExactlyWhenEven(c: Company, skill: string, acts: seq<Action>)
    requires DistinctIds(c.staff) && c.weights.load > 0.0 && acts != []
    requires forall a | a in acts :: AlikeAction(a, skill)
    requires Balanced(Crew(c, skill), Run(c, acts[..|acts| - 1]).tasks)
    ensures var last := acts[|acts| - 1];
      Balanced(Crew(c, skill), Run(c, acts).tasks) <==>
      (last.Write? ==> EvenWrite(c, Run(c, acts[..|acts| - 1]), last.run))
  {
    var front, last := acts[..|acts| - 1], acts[|acts| - 1];
    assert last in acts && forall b | b in front :: b in acts;
    RunAlike(c, skill, front);
    EligibleAreStaff(c.staff, skill);
    if last.Write? {
      RunChoiceHolds(c, front);
      WriteBalancesExactlyWhenEven(c, skill, Run(c, front), last.run);
    } else {
      OtherStepKeepsBalance(c, Crew(c, skill), Run(c, front), last);
    }
  }

  lemma EvenBefore(c: Company, acts: seq<Action>)
    requires acts != []
    ensures EvenWrites(c, acts) <==>
            && EvenWrites(c, acts[..|acts| - 1])
            && (acts[|acts| - 1].Write? ==> EvenWrite(c, Run(c, acts[..|acts| - 1]), acts[|acts| - 1].run))
  {
    var front := acts[..|acts| - 1];
    assert forall k | 0 <= k < |front| :: front[..k] == acts[..k] && front[k] == acts[k];
  }

  ghost predicate BalancedAfter(c: Company, skill: string, acts: seq<Action>) {
    Balanced(Crew(c, skill), Run(c, acts).tasks)
  }

  ghost predicate BalancedThroughout(c: Company, skill: string, acts: seq<Action>) {
    forall k | 0 <= k <= |acts| :: BalancedAfter(c, skill, acts[..k])
  }

  lemma BalancedBefore(c: Company, skill: string, acts: seq<Action>)
    requires acts != []
    ensures BalancedThroughout(c, skill, acts) <==>
            BalancedThroughout(c, skill, acts[..|acts| - 1]) && BalancedAfter(c, skill, acts)
  {
    var front := acts[..|acts| - 1];
    assert acts[..|acts|] == acts;
    if BalancedThroughout(c, skill, acts) {
      forall k | 0 <= k <= |front| ensures BalancedAfter(c, skill, front[..k]) {
        assert front[..k] == acts[..k];
      }
    } else {
      var k :| 0 <= k <= |acts| && !BalancedAfter(c, skill, acts[..k]);
      assert k < |acts| ==> front[..k] == acts[..k];
    }
  }

  /** With a positive load weight, alike tasks and a fixed staff, the eligible stay balanced throughout a run,
      whatever interleaves, exactly when every write is even; a write to a new task always is. */
  lemma {:induction false} BalancedThroughoutExactlyWhenEven(c: Company, skill: string, acts: seq<Action>)
    requires DistinctIds(c.staff) && c.weights.load > 0.0
    requires forall a | a in acts :: AlikeAction(a, skill)
    ensures BalancedThroughout(c, skill, acts) <==> EvenWrites(c, acts)
  {
    if acts == [] {
      EmptyIsBalanced(Crew(c, skill));
    } else {
      var front := acts[..|acts| - 1];
      assert forall b | b in front :: b in acts;
      BalancedThroughoutExactlyWhenEven(c, skill, front);
      EvenBefore(c, acts);
      BalancedBefore(c, skill, acts);
      if BalancedThroughout(c, skill, front) {
        assert front[..|front|] == front;
        StepBalancesExactlyWhenEven(c, skill, acts);
      }
    }
  }

  lemma EmptyIsBalanced(staff: seq<Technician>)
    ensures Balanced(staff, map[])
  {
    assert forall u: UserId :: TasksOf(map[], u) == {};
  }

  // ---------------------------------------------------------------------------------------------
  // Floor and ceiling
  // ---------------------------------------------------------------------------------------------

  ghost function SumLoads(tasks: map<TaskId, Task>, staff: seq<Technician>): nat {
    if staff == [] then 0 else SumLoads(tasks, staff[..|staff| - 1]) + Load(tasks, staff[|staff| - 1].id)
  }

  /** The tasks in the hands of the staff. */
  ghost function Held(tasks: map<TaskId, Task>, staff: seq<Technician>): set<TaskId> {
    set t, k | t in tasks && 0 <= k < |staff| && Active(tasks[t], staff[k].id) :: t
  }

  lemma HeldSplits(tasks: map<TaskId, Task>, staff: seq<Technician>)
    requires DistinctIds(staff) && staff != []
    ensures var front, last := staff[..|staff| - 1], staff[|staff| - 1];
      && Held(tasks, staff) == Held(tasks, front) + TasksOf(tasks, last.id)
      && Held(tasks, front) !! TasksOf(tasks, last.id)
  {
  }

  lemma {:induction false} HeldIsSum(tasks: map<TaskId, Task>, staff: seq<Technician>)
    requires DistinctIds(staff)
    ensures |Held(tasks, staff)| == SumLoads(tasks, staff)
  {
    if staff == [] {
      assert Held(tasks, staff) == {};
    } else {
      HeldSplits(tasks, staff);
      HeldIsSum(tasks, staff[..|staff| - 1]);
    }
  }

  lemma OneMoreTime(x: int, n: int)
    ensures x * n == x * (n - 1) + x
  {
  }

  lemma {:induction false} SumBounds(tasks: map<TaskId, Task>, staff: seq<Technician>, low: int, high: int)
    requires forall k | 0 <= k < |staff| :: low <= Load(tasks, staff[k].id) <= high
    ensures low * |staff| <= SumLoads(tasks, staff) <= high * |staff|
  {
    if staff != [] {
      SumBounds(tasks, staff[..|staff| - 1], low, high);
      OneMoreTime(low, |staff|);
      OneMoreTime(high, |staff|);
    }
  }

  lemma {:induction false} SumBoundsAround(tasks: map<TaskId, Task>, staff: seq<Technician>, i: nat, low: int,
                                           high: int)
    requires i < |staff| && low < Load(tasks, staff[i].id) < high
    requires forall k | 0 <= k < |staff| :: low <= Load(tasks, staff[k].id) <= high
    ensures low * |staff| + 1 <= SumLoads(tasks, staff) <= high * |staff| - 1
  {
    if i == |staff| - 1 {
      SumBounds(tasks, staff[..|staff| - 1], low, high);
    } else {
      SumBoundsAround(tasks, staff[..|staff| - 1], i, low, high);
    }
    OneMoreTime(low, |staff|);
    OneMoreTime(high, |staff|);
  }

  lemma TimesMono(a: int, b: int, n: int)
    requires a <= b && n >= 0
    ensures a * n <= b * n
  {
    assert b * n - a * n == (b - a) * n;
  }

  lemma QuotientBelow(total: int, n: int, bound: int)
    requires n > 0 && total < bound * n
    ensures total / n < bound
  {
    var q := total / n;
    if q >= bound {
      TimesMono(bound, q, n);
    }
  }

  lemma QuotientAtLeast(total: int, n: int, bound: int)
    requires n > 0 && bound * n <= total
    ensures bound <= total / n
  {
    var q := total / n;
    if q < bound {
      TimesMono(q + 1, bound, n);
    }
  }

  /** The technician's load is the floor or the ceiling of the average. */
  ghost predicate EvenShare(staff: seq<Technician>, tasks: map<TaskId, Task>, i: nat)
    requires i < |staff|
  {
    |Held(tasks, staff)| / |staff| <= Load(tasks, staff[i].id) <= (|Held(tasks, staff)| + |staff| - 1) / |staff|
  }

  lemma BalancedIsEven(staff: seq<Technician>, tasks: map<TaskId, Task>, i: nat)
    requires DistinctIds(staff) && Balanced(staff, tasks) && i < |staff|
    ensures EvenShare(staff, tasks, i)
  {
    HeldIsSum(tasks, staff);
    var load, k, n := Load(tasks, staff[i].id), |Held(tasks, staff)|, |staff|;
    SumBoundsAround(tasks, staff, i, load - 1, load + 1);
    QuotientBelow(k, n, load + 1);
    assert load * n == (load - 1) * n + n;
    QuotientAtLeast(k + n - 1, n, load);
  }

  /** With a positive load weight, alike tasks, a fixed staff and even writes (a write to a new task always is
      one), every eligible technician holds an even share, over every interleaving of assignment runs. */
  lemma {:induction false} LoadsAreEven(c: Company, skill: string, acts: seq<Action>, i: nat)
    requires DistinctIds(c.staff) && c.weights.load > 0.0 && i < |Crew(c, skill)|
    requires (forall a | a in acts :: AlikeAction(a, skill)) && EvenWrites(c, acts)
    ensures EvenShare(Crew(c, skill), Run(c, acts).tasks, i)
  {
    BalancedThroughoutExactlyWhenEven(c, skill, acts);
    assert acts[..|acts|] == acts;
    EligibleAreStaff(c.staff, skill);
    BalancedIsEven(Crew(c, skill), Run(c, acts).tasks, i);
  }

  // ---------------------------------------------------------------------------------------------
  // An uneven write
  // ---------------------------------------------------------------------------------------------

  /** The four steps of a run that assigns t to the candidate at best, undisturbed. */
  function Alone(r: RunId, t: TaskId, best: nat): seq<Action> {
    [Begin(r, t), Lock(r), Choose(r, best), Write(r)]
  }

  lemma LockAlone(c: Company, acts: seq<Action>, r: RunId, t: TaskId)
    requires var s := Run(c, acts);
      && s.jobs == map[] && s.holder == None && t in s.tasks && s.tasks[t].status in {NEW, ASSIGNED}
      && Crew(c, s.tasks[t].skill) != []
    ensures var s := Run(c, acts);
      Run(c, acts + [Begin(r, t)] + [Lock(r)]) == State(s.tasks, Some(r), map[r := Job(t, s.tasks[t], Locked)])
  {
    var s := Run(c, acts);
    RunOneMore(c, acts, Begin(r, t));
    assert Run(c, acts + [Begin(r, t)]) == State(s.tasks, None, map[r := Job(t, s.tasks[t], Waiting)]);
    RunOneMore(c, acts + [Begin(r, t)], Lock(r));
  }

  lemma WriteAlone(c: Company, acts: seq<Action>, r: RunId, t: TaskId, task: Task, best: nat)
    requires var s := Run(c, acts);
      && s == State(s.tasks, Some(r), map[r := Job(t, task, Locked)])
      && t in s.tasks && s.tasks[t].status in {NEW, ASSIGNED} && IsBest(c, s.tasks, task, best)
    ensures var s := Run(c, acts);
      Run(c, acts + [Choose(r, best)] + [Write(r)]) ==
      State(Assigned(s.tasks, t, Crew(c, task.skill)[best].id), None, map[])
  {
    var s := Run(c, acts);
    RunOneMore(c, acts, Choose(r, best));
    assert Run(c, acts + [Choose(r, best)]) == State(s.tasks, Some(r), map[r := Job(t, task, Scored(best))]);
    RunOneMore(c, acts + [Choose(r, best)], Write(r));
  }

  lemma AssignAlone(c: Company, acts: seq<Action>, r: RunId, t: TaskId, best: nat)
    requires var s := Run(c, acts);
      && s.jobs == map[] && s.holder == None && t in s.tasks && s.tasks[t].status in {NEW, ASSIGNED}
      && IsBest(c, s.tasks, s.tasks[t], best)
    ensures var s := Run(c, acts);
      Run(c, acts + Alone(r, t, best)) ==
      State(Assigned(s.tasks, t, Crew(c, s.tasks[t].skill)[best].id), None, map[])
  {
    var locked := acts + [Begin(r, t)] + [Lock(r)];
    LockAlone(c, acts, r, t);
    WriteAlone(c, locked, r, t, Run(c, acts).tasks[t], best);
    assert acts + Alone(r, t, best) == locked + [Choose(r, best)] + [Write(r)];
  }

  /** Two technicians, a task for each, and the second task assigned again: the tie goes to the first, who
      then holds both. */
  function TakenAway(): seq<Action> {
    [Create(0, None, "")] + Alone(0, 0, 0) + [Create(1, None, "")] + Alone(1, 1, 1) + Alone(2, 1, 0)
  }

  lemma Candidates(c: Company, tasks: map<TaskId, Task>, task: Task, best: nat)
    requires |c.staff| == 2 && c.weights.load > 0.0 && AlikeTask(task, "") && best < 2
    requires best == 0 ==> Load(tasks, c.staff[0].id) == Load(tasks, c.staff[1].id)
    requires best == 1 ==> Load(tasks, c.staff[1].id) < Load(tasks, c.staff[0].id)
    ensures IsBest(c, tasks, task, best)
  {
    if best == 1 {
      AlikeScores(c, task, c.staff[0], c.staff[1], Load(tasks, c.staff[0].id), Load(tasks, c.staff[1].id));
    }
  }

  lemma TwoTasksGivenOut(c: Company)
    requires |c.staff| == 2 && DistinctIds(c.staff) && c.weights.load > 0.0
    ensures Run(c, [Create(0, None, "")] + Alone(0, 0, 0) + [Create(1, None, "")] + Alone(1, 1, 1)) ==
            State(map[0 := Task(ASSIGNED, Some(c.staff[0].id), None, ""),
                      1 := Task(ASSIGNED, Some(c.staff[1].id), None, "")],
                  None, map[])
  {
    var a, b := c.staff[0].id, c.staff[1].id;
    var acts := [Create(0, None, "")];
    RunOneMore(c, [], Create(0, None, ""));
    assert [] + acts == acts;
    var tasks := map[0 := Task(NEW, None, None, "")];
    assert Run(c, acts) == State(tasks, None, map[]);
    assert TasksOf(tasks, a) == {} && TasksOf(tasks, b) == {};
    Candidates(c, tasks, tasks[0], 0);
    AssignAlone(c, acts, 0, 0, 0);
    acts := acts + Alone(0, 0, 0);
    RunOneMore(c, acts, Create(1, None, ""));
    acts := acts + [Create(1, None, "")];
    tasks := map[0 := Task(ASSIGNED, Some(a), None, ""), 1 := Task(NEW, None, None, "")];
    assert Run(c, acts) == State(tasks, None, map[]);
    assert TasksOf(tasks, a) == {0} && TasksOf(tasks, b) == {};
    Candidates(c, tasks, tasks[1], 1);
    AssignAlone(c, acts, 1, 1, 1);
  }

  /** Assigning an assigned task again can unbalance the loads. */
  lemma ReassigningUnbalances(c: Company)
    requires |c.staff| == 2 && DistinctIds(c.staff) && c.weights.load > 0.0
    ensures !Balanced(c.staff, Run(c, TakenAway()).tasks)
  {
    var a, b := c.staff[0].id, c.staff[1].id;
    var acts := [Create(0, None, "")] + Alone(0, 0, 0) + [Create(1, None, "")] + Alone(1, 1, 1);
    TwoTasksGivenOut(c);
    var tasks := Run(c, acts).tasks;
    assert TasksOf(tasks, a) == {0} && TasksOf(tasks, b) == {1};
    Candidates(c, tasks, tasks[1], 0);
    AssignAlone(c, acts, 2, 1, 0);
    var tasks' := Run(c, TakenAway()).tasks;
    assert TasksOf(tasks', a) == {0, 1} && TasksOf(tasks', b) == {};
  }
}
