/** The outbox between its table and the job queue: publishers claim pending rows, enqueue each under a job
    id derived from the row, and return a row whose enqueueing failed; a worker runs the handlers of a job
    and settles the row. Publishers and workers may die at any point. */
module Outbox {
  import opened Prelude

  type EventId = nat
  type PublisherId = nat

  const MAX_ATTEMPTS := 5

  datatype Status = PENDING | PROCESSING | DONE | DEAD

  /** handled counts the runs in which every handler succeeded, dead whether its end was ever reported. */
  datatype Event = Event(status: Status, handled: nat, dead: bool)

  /** A queued job with its failed attempts, or one that is over but still kept under its id. */
  datatype Job = Waiting(attempts: nat) | Over

  /** The rows a publisher has claimed and not enqueued yet, and the one it is returning. */
  datatype Hold = Hold(todo: set<EventId>, returning: Option<EventId>)

  datatype State = State(events: map<EventId, Event>, jobs: map<EventId, Job>, holds: map<PublisherId, Hold>)

  /** What comes back from enqueueing: in the last case the queue took the job and the answer was lost. */
  datatype Answer = Added | Refused | Unanswered

  datatype Action =
    | Emit(event: EventId)
    | Claim(publisher: PublisherId, batch: set<EventId>)
    | Enqueue(publisher: PublisherId, event: EventId, answer: Answer)
    | Return(publisher: PublisherId)
    | Finish(publisher: PublisherId)
    | Crash(publisher: PublisherId)   // it dies, or returning a row fails and ends its loop
    | Attempt(event: EventId, handled: bool, marked: bool, recorded: bool)
    | Drop(event: EventId)            // the queue gives a job up without its worker
    | Forget(event: EventId)          // the queue deletes a job that is over

  function Mark(s: State, e: EventId, status: Status): State
    requires e in s.events
  {
    s.(events := s.events[e := s.events[e].(status := status)])
  }

  /** The queue ignores a second job under an id it knows. */
  function AddJob(jobs: map<EventId, Job>, e: EventId): map<EventId, Job> {
    if e in jobs then jobs else jobs[e := Waiting(0)]
  }

  function AfterEnqueue(s: State, p: PublisherId, e: EventId, answer: Answer): State
    requires p in s.holds
  {
    var todo := s.holds[p].todo - {e};
    match answer
    case Added => s.(jobs := AddJob(s.jobs, e), holds := s.holds[p := Hold(todo, None)])
    case Refused => s.(holds := s.holds[p := Hold(todo, Some(e))])
    case Unanswered => s.(jobs := AddJob(s.jobs, e), holds := s.holds[p := Hold(todo, Some(e))])
  }

  /** One attempt at a job: the handlers, the mark as done, and on failure its record. */
  function AfterAttempt(s: State, e: EventId, attempts: nat, handled: bool, marked: bool, recorded: bool): State
    requires e in s.events
  {
    var event := s.events[e].(handled := s.events[e].handled + if handled then 1 else 0);
    var exhausted := attempts + 1 >= MAX_ATTEMPTS;
    if handled && marked then
      s.(events := s.events[e := event.(status := DONE)], jobs := s.jobs[e := Over])
    else
      s.(jobs := s.jobs[e := if exhausted then Over else Waiting(attempts + 1)],
         events := s.events[e :=
           if !recorded then event
           else if exhausted then Event(DEAD, event.handled, true)
           else event.(status := PROCESSING)])
  }

  function Apply(s: State, a: Action): State {
    match a
    case Emit(e) => if e in s.events then s else s.(events := s.events[e := Event(PENDING, 0, false)])
    case Claim(p, batch) =>
      if p !in s.holds && forall e | e in batch :: e in s.events && s.events[e].status == PENDING
      then s.(events := map e | e in s.events :: if e in batch then s.events[e].(status := PROCESSING) else s.events[e],
              holds := s.holds[p := Hold(batch, None)])
      else s
    case Enqueue(p, e, answer) =>
      if p in s.holds && s.holds[p].returning == None && e in s.holds[p].todo then AfterEnqueue(s, p, e, answer) else s
    case Return(p) =>
      if p in s.holds && s.holds[p].returning.Some?
      then
        var e, s' := s.holds[p].returning.value, s.(holds := s.holds[p := Hold(s.holds[p].todo, None)]);
        if e in s.events then Mark(s', e, PENDING) else s'
      else s
    case Finish(p) =>
      if p in s.holds && s.holds[p] == Hold({}, None) then s.(holds := s.holds - {p}) else s
    case Crash(p) => s.(holds := s.holds - {p})
    case Attempt(e, handled, marked, recorded) =>
      if e in s.events && e in s.jobs && s.jobs[e].Waiting?
      then AfterAttempt(s, e, s.jobs[e].attempts, handled, marked, recorded)
      else s
    case Drop(e) => if e in s.jobs && s.jobs[e].Waiting? then s.(jobs := s.jobs[e := Over]) else s
    case Forget(e) => if e in s.jobs && s.jobs[e].Over? then s.(jobs := s.jobs - {e}) else s
  }

  const EMPTY := State(map[], map[], map[])

  function Run(s: State, acts: seq<Action>): State
    decreases |acts|
  {
    if acts == [] then s else Run(Apply(s, acts[0]), acts[1..])
  }

  lemma {:induction false} RunOneMore(s: State, acts: seq<Action>, a: Action)
    ensures Run(s, acts + [a]) == Apply(Run(s, acts), a)
    decreases |acts|
  {
    if acts == [] {
      assert [a][1..] == [];
    } else {
      RunOneMore(Apply(s, acts[0]), acts[1..], a);
      assert (acts + [a])[1..] == acts[1..] + [a];
    }
  }

  // ---------------------------------------------------------------------------------------------
  // Reported dead
  // ---------------------------------------------------------------------------------------------

  /** An attempt reports the row dead exactly when it is the last one, its failure is recorded, and the handlers
      or the mark failed: also after the handlers have succeeded. */
  lemma ReportedDeadExactlyWhen(s: State, e: EventId, handled: bool, marked: bool, recorded: bool)
    requires e in s.events && e in s.jobs && s.jobs[e].Waiting? && !s.events[e].dead
    ensures Apply(s, Attempt(e, handled, marked, recorded)).events[e].dead <==>
            !(handled && marked) && recorded && s.jobs[e].attempts + 1 >= 5
  {
  }

  function Attempts(e: EventId, n: nat): seq<Action> {
    if n == 0 then [] else [Attempt(e, true, false, true)] + Attempts(e, n - 1)
  }

  lemma {:induction false} UnmarkedAttempts(s: State, e: EventId, n: nat)
    requires e in s.events && !s.events[e].dead && e in s.jobs && s.jobs[e].Waiting?
    requires 0 < n && s.jobs[e].attempts + n == MAX_ATTEMPTS
    ensures var s' := Run(s, Attempts(e, n));
      e in s'.events && s'.events[e] == Event(DEAD, s.events[e].handled + n, true)
    decreases n
  {
    var attempt := Attempt(e, true, false, true);
    Run1(s, attempt, Attempts(e, n - 1));
    if n > 1 {
      UnmarkedAttempts(Apply(s, attempt), e, n - 1);
    }
  }

  /** An event whose handlers succeed at every attempt, and whose mark fails at every one, is reported dead. */
  lemma DeadThoughHandled(e: EventId, p: PublisherId)
    ensures var s := Run(EMPTY, [Emit(e)] + ([Claim(p, {e})] + ([Enqueue(p, e, Added)] + Attempts(e, MAX_ATTEMPTS))));
      e in s.events && s.events[e] == Event(DEAD, 5, true)
  {
    var emitted := Apply(EMPTY, Emit(e));
    var claimed := Apply(emitted, Claim(p, {e}));
    var queued := Apply(claimed, Enqueue(p, e, Added));
    Run1(EMPTY, Emit(e), [Claim(p, {e})] + ([Enqueue(p, e, Added)] + Attempts(e, MAX_ATTEMPTS)));
    Run1(emitted, Claim(p, {e}), [Enqueue(p, e, Added)] + Attempts(e, MAX_ATTEMPTS));
    Run1(claimed, Enqueue(p, e, Added), Attempts(e, MAX_ATTEMPTS));
    assert claimed.events[e] == Event(PROCESSING, 0, false);
    UnmarkedAttempts(queued, e, MAX_ATTEMPTS);
  }

  // ---------------------------------------------------------------------------------------------
  // Lost events
  // ---------------------------------------------------------------------------------------------

  predicate HeldBy(s: State, p: PublisherId, e: EventId) {
    p in s.holds && (e in s.holds[p].todo || s.holds[p].returning == Some(e))
  }

  predicate Held(s: State, e: EventId) {
    exists p | p in s.holds :: HeldBy(s, p, e)
  }

  predicate Queued(s: State, e: EventId) {
    e in s.jobs && s.jobs[e].Waiting?
  }

  /** No scan will claim the event, no publisher holds it and no job is queued for it. */
  predicate Idle(s: State, e: EventId) {
    e in s.events && s.events[e].status != PENDING && !Held(s, e) && !Queued(s, e)
  }

  lemma StepKeepsIdle(s: State, a: Action, e: EventId)
    requires Idle(s, e)
    ensures Idle(Apply(s, a), e) && Apply(s, a).events[e] == s.events[e]
  {
    var s' := Apply(s, a);
    forall p | p in s'.holds ensures !HeldBy(s', p, e) {
      assert p in s.holds ==> !HeldBy(s, p, e);
      assert !a.Claim? && p in s'.holds ==> p in s.holds;
    }
    if a.Enqueue? && a.publisher in s.holds {
      assert !HeldBy(s, a.publisher, e);
    }
    if a.Return? && a.publisher in s.holds {
      assert !HeldBy(s, a.publisher, e);
    }
  }

  lemma {:induction false} IdleIsForGood(s: State, more: seq<Action>, e: EventId)
    requires Idle(s, e)
    ensures Idle(Run(s, more), e) && Run(s, more).events[e] == s.events[e]
    decreases |more|
  {
    if more != [] {
      StepKeepsIdle(s, more[0], e);
      IdleIsForGood(Apply(s, more[0]), more[1..], e);
    }
  }

  function Handled(s: State, e: EventId): nat {
    if e in s.events then s.events[e].handled else 0
  }

  lemma {:induction false} FreshPublisher(used: set<PublisherId>) returns (p: PublisherId)
    ensures p !in used
  {
    var left := used;
    p := 0;
    while left != {}
      invariant left <= used && forall q | q in used && q !in left :: q < p
      decreases left
    {
      var q :| q in left;
      left := left - {q};
      if q >= p {
        p := q + 1;
      }
    }
  }

  lemma Run1(s: State, a: Action, more: seq<Action>)
    ensures Run(s, [a] + more) == Run(Apply(s, a), more)
  {
    assert ([a] + more)[1..] == more;
  }

  lemma HandleQueued(s: State, e: EventId) returns (more: seq<Action>)
    requires e in s.events && Queued(s, e)
    ensures Handled(Run(s, more), e) > Handled(s, e)
  {
    var attempt := Attempt(e, true, true, true);
    more := [attempt] + [];
    Run1(s, attempt, []);
  }

  /** An event in a publisher's hands is enqueued after what the publisher is busy with. */
  lemma HandleHeld(s: State, p: PublisherId, e: EventId) returns (more: seq<Action>)
    requires e in s.events && p in s.holds && e in s.holds[p].todo
    ensures Handled(Run(s, more), e) > Handled(s, e)
  {
    var s1 := Apply(s, Return(p));
    var s2 := Apply(s1, Forget(e));
    var s3 := Apply(s2, Enqueue(p, e, Added));
    var rest := HandleQueued(s3, e);
    more := [Return(p)] + ([Forget(e)] + ([Enqueue(p, e, Added)] + rest));
    Run1(s, Return(p), [Forget(e)] + ([Enqueue(p, e, Added)] + rest));
    Run1(s1, Forget(e), [Enqueue(p, e, Added)] + rest);
    Run1(s2, Enqueue(p, e, Added), rest);
  }

  lemma HandlePending(s: State, e: EventId) returns (more: seq<Action>)
    requires e in s.events && s.events[e].status == PENDING
    ensures Handled(Run(s, more), e) > Handled(s, e)
  {
    var p := FreshPublisher(s.holds.Keys);
    var rest := HandleHeld(Apply(s, Claim(p, {e})), p, e);
    more := [Claim(p, {e})] + rest;
    Run1(s, Claim(p, {e}), rest);
  }

  lemma HandleActive(s: State, e: EventId) returns (more: seq<Action>)
    requires e in s.events && !Idle(s, e)
    ensures Handled(Run(s, more), e) > Handled(s, e)
  {
    if s.events[e].status == PENDING {
      more := HandlePending(s, e);
    } else if Queued(s, e) {
      more := HandleQueued(s, e);
    } else {
      var p :| p in s.holds && HeldBy(s, p, e);
      if e in s.holds[p].todo {
        more := HandleHeld(s, p, e);
      } else {
        var rest := HandlePending(Apply(s, Return(p)), e);
        more := [Return(p)] + rest;
        Run1(s, Return(p), rest);
      }
    }
  }

  /** An event is never handled again, whatever happens, exactly when it is idle. */
  lemma NeverHandledExactlyWhenIdle(s: State, e: EventId)
    requires e in s.events
    ensures Idle(s, e) <==> forall more :: Handled(Run(s, more), e) == Handled(s, e)
  {
    if Idle(s, e) {
      forall more ensures Handled(Run(s, more), e) == Handled(s, e) {
        IdleIsForGood(s, more, e);
      }
    } else {
      var more := HandleActive(s, e);
    }
  }

  /** A publisher that dies, or fails to return a row, loses each event that only it holds: the row stays in
      process and no later scan claims it. */
  lemma CrashLoses(s: State, p: PublisherId, e: EventId, more: seq<Action>)
    requires e in s.events && s.events[e].status == PROCESSING && !Queued(s, e)
    requires forall q | q in s.holds && HeldBy(s, q, e) :: q == p
    ensures var s' := Run(Apply(s, Crash(p)), more);
      e in s'.events && s'.events[e].status == PROCESSING && Handled(s', e) == Handled(s, e)
  {
    var s1 := Apply(s, Crash(p));
    forall q | q in s1.holds ensures !HeldBy(s1, q, e) {
      assert HeldBy(s1, q, e) ==> HeldBy(s, q, e);
    }
    IdleIsForGood(s1, more, e);
  }

  /** So the first event ever is lost when its publisher dies right after claiming it. */
  lemma ClaimAndCrashLoses(e: EventId, p: PublisherId, more: seq<Action>)
    ensures var s := Run(Run(EMPTY, [Emit(e), Claim(p, {e}), Crash(p)]), more);
      e in s.events && s.events[e] == Event(PROCESSING, 0, false) && Lost(s, e)
  {
    var acts := [Emit(e), Claim(p, {e}), Crash(p)];
    var emitted := Apply(EMPTY, Emit(e));
    var claimed := Apply(emitted, Claim(p, {e}));
    Run1(EMPTY, Emit(e), [Claim(p, {e}), Crash(p)]);
    Run1(emitted, Claim(p, {e}), [Crash(p)]);
    Run1(claimed, Crash(p), []);
    assert acts == [Emit(e)] + ([Claim(p, {e})] + ([Crash(p)] + []));
    assert claimed.events[e] == Event(PROCESSING, 0, false);
    IdleIsForGood(Apply(claimed, Crash(p)), more, e);
  }

  // ---------------------------------------------------------------------------------------------
  // When an event is lost
  // ---------------------------------------------------------------------------------------------

  /** Idle, never handled and never reported. */
  predicate Lost(s: State, e: EventId) {
    Idle(s, e) && s.events[e].handled == 0 && !s.events[e].dead
  }

  /** An event that still counts on a publisher, a job or a scan. */
  predicate Waits(s: State, e: EventId) {
    e in s.events && (s.events[e].status == PENDING || Held(s, e) || Queued(s, e))
  }

  predicate OnlyHolder(s: State, p: PublisherId, e: EventId) {
    HeldBy(s, p, e) && forall q | q in s.holds && HeldBy(s, q, e) :: q == p
  }

  /** The event is in process, unhandled and unreported, and the step takes away the last that would see to it:
      its only holder dies while no job is queued, or hands it to a queue that still keeps a job of the event that
      is over; or its job, while nobody holds it, is given up or fails for the last time unrecorded. */
  predicate Loses(s: State, a: Action, e: EventId) {
    && e in s.events && s.events[e].status != PENDING && s.events[e].handled == 0 && !s.events[e].dead
    && match a
       case Crash(p) => OnlyHolder(s, p, e) && !Queued(s, e)
       case Enqueue(p, f, answer) =>
         && f == e && answer.Added? && p in s.holds && s.holds[p].returning == None && e in s.holds[p].todo
         && OnlyHolder(s, p, e) && e in s.jobs && s.jobs[e].Over?
       case Drop(f) => f == e && Queued(s, e) && !Held(s, e)
       case Attempt(f, handled, _, recorded) =>
         && f == e && !handled && !recorded
         && Queued(s, e) && s.jobs[e].attempts + 1 >= MAX_ATTEMPTS && !Held(s, e)
       case _ => false
  }

  /** How a publisher stops holding an event that is neither due nor queued after the step. */
  lemma HolderLetsGo(s: State, a: Action, p: PublisherId, e: EventId)
    requires e in s.events && HeldBy(s, p, e)
    ensures var s' := Apply(s, a);
      || HeldBy(s', p, e) || Waits(s', e) || a == Crash(p)
      || (a == Enqueue(p, e, Added) && s.holds[p].returning == None && e in s.holds[p].todo
          && e in s.jobs && s.jobs[e].Over?)
  {
  }

  lemma NoNewHolder(s: State, a: Action, p: PublisherId, e: EventId)
    requires p in Apply(s, a).holds && HeldBy(Apply(s, a), p, e) && !a.Claim?
    ensures HeldBy(s, p, e)
  {
  }

  lemma LosingStepLoses(s: State, a: Action, e: EventId)
    requires Loses(s, a, e)
    ensures Lost(Apply(s, a), e)
  {
    var s' := Apply(s, a);
    forall q | q in s'.holds ensures !HeldBy(s', q, e) {
      if HeldBy(s', q, e) {
        NoNewHolder(s, a, q, e);
      }
    }
  }

  /** An event that a publisher holds is lost by no other step. */
  lemma HeldIsLostByLosingStep(s: State, a: Action, p: PublisherId, e: EventId)
    requires e in s.events && HeldBy(s, p, e) && Lost(Apply(s, a), e)
    ensures Loses(s, a, e)
  {
    HolderLetsGo(s, a, p, e);
    forall q | q in s.holds && HeldBy(s, q, e) ensures q == p {
      HolderLetsGo(s, a, q, e);
    }
  }

  lemma ClaimedIsHeld(s: State, p: PublisherId, batch: set<EventId>, e: EventId)
    requires e in s.events
    ensures var s' := Apply(s, Claim(p, batch)); Held(s', e) || s'.events[e] == s.events[e]
  {
    var s' := Apply(s, Claim(p, batch));
    assert e in batch && s' != s ==> HeldBy(s', p, e);
  }

  lemma UnheldIsLostByLosingStep(s: State, a: Action, e: EventId)
    requires e in s.events && !Held(s, e) && !Lost(s, e) && Lost(Apply(s, a), e)
    ensures Loses(s, a, e)
  {
    if a.Claim? {
      ClaimedIsHeld(s, a.publisher, a.batch, e);
    }
  }

  /** A step loses an event that was not lost exactly when it is one of these. */
  lemma StepLosesExactlyWhen(s: State, a: Action, e: EventId)
    requires !Lost(s, e)
    ensures Lost(Apply(s, a), e) <==> Loses(s, a, e)
  {
    if Loses(s, a, e) {
      LosingStepLoses(s, a, e);
    } else if Lost(Apply(s, a), e) && e in s.events {
      if p :| p in s.holds && HeldBy(s, p, e) {
        HeldIsLostByLosingStep(s, a, p, e);
      } else {
        UnheldIsLostByLosingStep(s, a, e);
      }
    }
  }

  lemma RunPrefix(s: State, acts: seq<Action>, k: nat)
    requires k < |acts|
    ensures Run(s, acts[..k + 1]) == Apply(Run(s, acts[..k]), acts[k])
  {
    RunOneMore(s, acts[..k], acts[k]);
    assert acts[..k + 1] == acts[..k] + [acts[k]];
  }

  lemma {:induction false} RunSplits(s: State, xs: seq<Action>, ys: seq<Action>)
    ensures Run(s, xs + ys) == Run(Run(s, xs), ys)
    decreases |xs|
  {
    if xs == [] {
      assert xs + ys == ys;
    } else {
      RunSplits(Apply(s, xs[0]), xs[1..], ys);
      assert (xs + ys)[1..] == xs[1..] + ys;
    }
  }

  /** Some step of the run loses the event. */
  ghost predicate LosingStep(acts: seq<Action>, e: EventId) {
    exists k | 0 <= k < |acts| :: Loses(Run(EMPTY, acts[..k]), acts[k], e)
  }

  lemma {:induction false} LostByAStep(acts: seq<Action>, e: EventId, n: nat)
    requires n <= |acts| && Lost(Run(EMPTY, acts[..n]), e)
    ensures LosingStep(acts, e)
    decreases n
  {
    if n > 0 {
      var k := n - 1;
      RunPrefix(EMPTY, acts, k);
      if Lost(Run(EMPTY, acts[..k]), e) {
        LostByAStep(acts, e, k);
      } else {
        StepLosesExactlyWhen(Run(EMPTY, acts[..k]), acts[k], e);
      }
    }
  }

  /** After any run an event is lost exactly when some step of the run has lost it. */
  lemma {:induction false} LostExactlyWhen(acts: seq<Action>, e: EventId)
    ensures Lost(Run(EMPTY, acts), e) <==> LosingStep(acts, e)
  {
    assert acts[..|acts|] == acts;
    if Lost(Run(EMPTY, acts), e) {
      LostByAStep(acts, e, |acts|);
    }
    if k :| 0 <= k < |acts| && Loses(Run(EMPTY, acts[..k]), acts[k], e) {
      LosingStepLoses(Run(EMPTY, acts[..k]), acts[k], e);
      RunPrefix(EMPTY, acts, k);
      RunSplits(EMPTY, acts[..k + 1], acts[k + 1..]);
      assert acts == acts[..k + 1] + acts[k + 1..];
      IdleIsForGood(Run(EMPTY, acts[..k + 1]), acts[k + 1..], e);
    }
  }

  // ---------------------------------------------------------------------------------------------
  // Runs that lose nothing
  // ---------------------------------------------------------------------------------------------

  /** No publisher stops with rows in hand, no job is given up without its worker, and the last failure of a
      job that was never handled is recorded. */
  ghost predicate Careful(s: State, a: Action) {
    match a
    case Crash(p) => p in s.holds ==> s.holds[p] == Hold({}, None)
    case Drop(e) => !Queued(s, e)
    case Attempt(e, handled, _, recorded) =>
      Queued(s, e) && s.jobs[e].attempts + 1 >= MAX_ATTEMPTS ==> handled || recorded
    case _ => true
  }

  ghost predicate CarefulRun(acts: seq<Action>) {
    forall k | 0 <= k < |acts| :: Careful(Run(EMPTY, acts[..k]), acts[k])
  }

  /** A job that is over has been handled or reported. */
  ghost predicate JobsOk(s: State) {
    forall e | e in s.jobs && s.jobs[e].Over? :: e in s.events && (s.events[e].handled > 0 || s.events[e].dead)
  }

  lemma StepKeepsJobs(s: State, a: Action)
    requires JobsOk(s) && Careful(s, a)
    ensures JobsOk(Apply(s, a))
  {
  }

  lemma CarefulStepLosesNothing(s: State, a: Action, e: EventId)
    requires JobsOk(s) && Careful(s, a)
    ensures !Loses(s, a, e)
  {
  }

  lemma {:induction false} RunKeepsJobs(acts: seq<Action>, n: nat)
    requires n <= |acts| && CarefulRun(acts)
    ensures JobsOk(Run(EMPTY, acts[..n]))
    decreases n
  {
    if n > 0 {
      var k := n - 1;
      RunKeepsJobs(acts, k);
      RunPrefix(EMPTY, acts, k);
      StepKeepsJobs(Run(EMPTY, acts[..k]), acts[k]);
    }
  }

  /** So over any run in which publishers do not stop with rows in hand, no job is given up without its worker,
      and last failures are recorded, every event is still due, handled, or reported dead. */
  lemma NothingIsLost(acts: seq<Action>, e: EventId)
    requires CarefulRun(acts) && e in Run(EMPTY, acts).events
    ensures var s := Run(EMPTY, acts); Waits(s, e) || s.events[e].handled > 0 || s.events[e].dead
  {
    LostExactlyWhen(acts, e);
    forall k | 0 <= k < |acts| ensures !Loses(Run(EMPTY, acts[..k]), acts[k], e) {
      RunKeepsJobs(acts, k);
      CarefulStepLosesNothing(Run(EMPTY, acts[..k]), acts[k], e);
    }
  }
}
