/** publishBatch and process as they run, with any other publishers and workers in between. Both are
    schedules of the machine in module Outbox. */
module OutboxService {
  import opened Prelude
  import opened Outbox

  predicate ByPublisher(a: Action, p: PublisherId) {
    match a
    case Claim(q, _) => q == p
    case Enqueue(q, _, _) => q == p
    case Return(q) => q == p
    case Finish(q) => q == p
    case Crash(q) => q == p
    case _ => false
  }

  /** after is before plus steps, none of them by the publisher p. */
  ghost predicate OthersRan(before: seq<Action>, after: seq<Action>, p: PublisherId) {
    before <= after && forall k | |before| <= k < |after| :: !ByPublisher(after[k], p)
  }

  /** Between two statements the others may take any steps that are theirs. */
  lemma OthersMayRun(before: seq<Action>, more: seq<Action>, p: PublisherId)
    requires forall a | a in more :: a.Emit? || a.Attempt? || a.Drop? || a.Forget? || a.publisher != p
    ensures OthersRan(before, before + more, p)
  {
    forall k | |before| <= k < |before + more| ensures !ByPublisher((before + more)[k], p) {
      assert (before + more)[k] in more;
    }
  }

  lemma OtherStepKeepsHold(s: State, a: Action, p: PublisherId)
    requires !ByPublisher(a, p)
    ensures p in Apply(s, a).holds <==> p in s.holds
    ensures p in s.holds ==> Apply(s, a).holds[p] == s.holds[p]
    ensures s.events.Keys <= Apply(s, a).events.Keys
  {
  }

  lemma {:induction false} OthersKeepHold(before: seq<Action>, after: seq<Action>, p: PublisherId)
    requires OthersRan(before, after, p)
    ensures var s, s' := Run(EMPTY, before), Run(EMPTY, after);
      && (p in s'.holds <==> p in s.holds) && (p in s.holds ==> s'.holds[p] == s.holds[p])
      && s.events.Keys <= s'.events.Keys
    decreases |after|
  {
    if |after| == |before| {
      assert after == before;
    } else {
      var front, last := after[..|after| - 1], after[|after| - 1];
      OthersKeepHold(before, front, p);
      OtherStepKeepsHold(Run(EMPTY, front), last, p);
      RunOneMore(EMPTY, front, last);
      assert after == front + [last];
    }
  }

  function Batch(rows: seq<EventId>): set<EventId> {
    set e | e in rows
  }

  /** At step k the row was enqueued: the queue has a job under its id from then on. */
  ghost predicate Enqueued(acts: seq<Action>, k: nat, p: PublisherId, e: EventId) {
    k < |acts| && acts[k] == Enqueue(p, e, Added) && e in Run(EMPTY, acts[..k + 1]).jobs
  }

  /** At step k the row was returned: it was pending again. */
  ghost predicate Returned(acts: seq<Action>, k: nat, p: PublisherId, e: EventId) {
    && k < |acts| && acts[k] == Return(p)
    && e in Run(EMPTY, acts[..k + 1]).events && Run(EMPTY, acts[..k + 1]).events[e].status == PENDING
  }

  /** Since step from the row was enqueued, or returned when the queue did not answer that it was. */
  ghost predicate Dealt(acts: seq<Action>, from: nat, p: PublisherId, e: EventId, answer: Answer) {
    if answer.Added? then exists k: nat :: from <= k && Enqueued(acts, k, p, e)
    else exists k: nat :: from <= k && Returned(acts, k, p, e)
  }

  lemma DealtSince(acts: seq<Action>, from: nat, later: nat, p: PublisherId, e: EventId, answer: Answer)
    requires from <= later && Dealt(acts, later, p, e, answer)
    ensures Dealt(acts, from, p, e, answer)
  {
  }

  lemma DealtStays(acts: seq<Action>, acts': seq<Action>, from: nat, p: PublisherId, e: EventId, answer: Answer)
    requires acts <= acts' && Dealt(acts, from, p, e, answer)
    ensures Dealt(acts', from, p, e, answer)
  {
    if answer.Added? {
      var k: nat :| from <= k && Enqueued(acts, k, p, e);
      assert acts'[..k + 1] == acts[..k + 1];
      assert Enqueued(acts', k, p, e);
    } else {
      var k: nat :| from <= k && Returned(acts, k, p, e);
      assert acts'[..k + 1] == acts[..k + 1];
      assert Returned(acts', k, p, e);
    }
  }

  lemma DealtAll(acts: seq<Action>, acts': seq<Action>, from: nat, p: PublisherId, rows: seq<EventId>, n: nat,
                 answers: EventId -> Answer)
    requires acts <= acts' && n <= |rows| && forall k | 0 <= k < n :: Dealt(acts, from, p, rows[k], answers(rows[k]))
    ensures forall k | 0 <= k < n :: Dealt(acts', from, p, rows[k], answers(rows[k]))
  {
    forall k | 0 <= k < n ensures Dealt(acts', from, p, rows[k], answers(rows[k])) {
      DealtStays(acts, acts', from, p, rows[k], answers(rows[k]));
    }
  }

  class Dispatcher {
    var events: map<EventId, Event>
    var jobs: map<EventId, Job>
    var holds: map<PublisherId, Hold>
    ghost var schedule: seq<Action>

    ghost function View(): State
      reads this
    {
      State(events, jobs, holds)
    }

    ghost predicate Valid()
      reads this
    {
      View() == Run(EMPTY, schedule)
    }

    constructor ()
      ensures Valid() && schedule == []
    {
      events, jobs, holds, schedule := map[], map[], map[], [];
    }

    ghost method Record(a: Action)
      requires View() == Apply(Run(EMPTY, schedule), a)
      modifies this`schedule
      ensures Valid() && schedule == old(schedule) + [a]
    {
      RunOneMore(EMPTY, schedule, a);
      schedule := schedule + [a];
    }

    /** Any number of steps of other publishers and of workers. */
    method Yield(p: PublisherId)
      requires Valid()
      modifies this
      ensures Valid() && OthersRan(old(schedule), schedule, p)
    {
    }

    method Interlude(p: PublisherId)
      requires Valid() && p in holds
      modifies this
      ensures Valid() && p in holds && holds[p] == old(holds[p]) && old(events.Keys) <= events.Keys
      ensures old(schedule) <= schedule
    {
      Yield(p);
      OthersKeepHold(old(schedule), schedule, p);
    }

    /** claim_outbox_batch: up to limit pending rows, all of them due. */
    method ClaimBatch(p: PublisherId, limit: nat) returns (rows: seq<EventId>)
      requires Valid() && p !in holds
      modifies this
      ensures Valid() && schedule == old(schedule) + [Claim(p, Batch(rows))]
      ensures |rows| <= limit && jobs == old(jobs) && events.Keys == old(events.Keys)
      ensures (forall j, k | 0 <= j < k < |rows| :: rows[j] != rows[k])
      ensures forall e | e in rows :: e in old(events) && old(events)[e].status == PENDING
      ensures |rows| < limit ==> forall e | e in old(events) && old(events)[e].status == PENDING :: e in rows
      ensures forall e | e in events ::
          events[e] == if e in rows then old(events)[e].(status := PROCESSING) else old(events)[e]
      ensures holds == old(holds)[p := Hold(Batch(rows), None)]
    {
      rows := [];
      var pending := set e | e in events && events[e].status == PENDING;
      var left := pending;
      while left != {} && |rows| < limit
        invariant |rows| <= limit && left <= pending
        invariant forall e | e in rows :: e in pending && e !in left
        invariant forall e | e in pending :: e in rows || e in left
        invariant forall j, k | 0 <= j < k < |rows| :: rows[j] != rows[k]
        decreases left
      {
        var e :| e in left;
        rows := rows + [e];
        left := left - {e};
      }
      var batch := Batch(rows);
      events := map e | e in events :: if e in batch then events[e].(status := PROCESSING) else events[e];
      holds := holds[p := Hold(batch, None)];
      Record(Claim(p, batch));
    }

    method Add(p: PublisherId, e: EventId, answer: Answer)
      requires Valid() && p in holds && holds[p].returning == None && e in holds[p].todo
      modifies this
      ensures Valid() && schedule == old(schedule) + [Enqueue(p, e, answer)] && events == old(events)
      ensures jobs == if answer.Refused? || e in old(jobs) then old(jobs) else old(jobs)[e := Waiting(0)]
      ensures holds == old(holds)[p := Hold(old(holds[p].todo) - {e}, if answer.Added? then None else Some(e))]
    {
      if !answer.Refused? {
        jobs := AddJob(jobs, e);
      }
      holds := holds[p := Hold(holds[p].todo - {e}, if answer.Added? then None else Some(e))];
      Record(Enqueue(p, e, answer));
    }

    /** settle_outbox_event back to PENDING, after a failed enqueue. */
    method Settle(p: PublisherId, e: EventId)
      requires Valid() && p in holds && holds[p].returning == Some(e) && e in events
      modifies this
      ensures Valid() && schedule == old(schedule) + [Return(p)]
      ensures events == old(events)[e := old(events)[e].(status := PENDING)] && jobs == old(jobs)
      ensures holds == old(holds)[p := Hold(old(holds[p].todo), None)]
    {
      events := events[e := events[e].(status := PENDING)];
      holds := holds[p := Hold(holds[p].todo, None)];
      Record(Return(p));
    }

    ghost predicate Rest(p: PublisherId, rows: seq<EventId>, i: nat)
      reads this
    {
      && p in holds && i <= |rows| && holds[p] == Hold((set k | i <= k < |rows| :: rows[k]), None)
      && (forall j, k | 0 <= j < k < |rows| :: rows[j] != rows[k])
      && forall e | e in rows :: e in events
    }

    method PublishRow(p: PublisherId, rows: seq<EventId>, i: nat, answer: Answer)
      requires Valid() && i < |rows| && Rest(p, rows, i)
      modifies this
      ensures Valid() && Rest(p, rows, i + 1)
      ensures old(schedule) <= schedule && Dealt(schedule, |old(schedule)|, p, rows[i], answer)
    {
      var e := rows[i];
      ghost var acts := schedule;
      Add(p, e, answer);
      assert schedule[..|acts| + 1] == schedule;
      assert (set k | i <= k < |rows| :: rows[k]) - {e} == (set k | i + 1 <= k < |rows| :: rows[k]);
      if !answer.Added? {
        Interlude(p);
        ghost var k := |schedule|;
        Settle(p, e);
        assert schedule[..k + 1] == schedule;
        assert Returned(schedule, k, p, e);
      } else {
        assert Enqueued(schedule, |acts|, p, e);
      }
    }

    /** The loop over the claimed rows. */
    method PublishRows(p: PublisherId, rows: seq<EventId>, answers: EventId -> Answer)
      requires Valid() && Rest(p, rows, 0)
      modifies this
      ensures Valid() && Rest(p, rows, |rows|) && old(schedule) <= schedule
      ensures forall k | 0 <= k < |rows| :: Dealt(schedule, |old(schedule)|, p, rows[k], answers(rows[k]))
    {
      for i := 0 to |rows|
        invariant Valid() && Rest(p, rows, i) && old(schedule) <= schedule
        invariant forall k | 0 <= k < i :: Dealt(schedule, |old(schedule)|, p, rows[k], answers(rows[k]))
      {
        ghost var acts := schedule;
        Interlude(p);
        ghost var from := |schedule|;
        PublishRow(p, rows, i, answers(rows[i]));
        DealtAll(acts, schedule, |old(schedule)|, p, rows, i, answers);
        DealtSince(schedule, |old(schedule)|, from, p, rows[i], answers(rows[i]));
      }
    }

    /** Every claimed row is enqueued or, when the queue did not say so, returned: at the end the publisher holds
        nothing. */
    method PublishBatch(p: PublisherId, limit: nat, answers: EventId -> Answer) returns (rows: seq<EventId>)
      requires Valid() && p !in holds
      modifies this
      ensures Valid() && p !in holds && |rows| <= limit && old(schedule) <= schedule
      ensures forall e | e in rows :: e in old(events) && old(events)[e].status == PENDING
      ensures |rows| < limit ==> forall e | e in old(events) && old(events)[e].status == PENDING :: e in rows
      ensures forall j, k | 0 <= j < k < |rows| :: rows[j] != rows[k]
      ensures forall k | 0 <= k < |rows| :: Dealt(schedule, |old(schedule)|, p, rows[k], answers(rows[k]))
    {
      rows := ClaimBatch(p, limit);
      assert Batch(rows) == (set k | 0 <= k < |rows| :: rows[k]);
      ghost var from := |schedule|;
      PublishRows(p, rows, answers);
      ghost var acts := schedule;
      holds := holds - {p};
      Record(Finish(p));
      DealtAll(acts, schedule, from, p, rows, |rows|, answers);
      forall k | 0 <= k < |rows| ensures Dealt(schedule, |old(schedule)|, p, rows[k], answers(rows[k])) {
        DealtSince(schedule, |old(schedule)|, from, p, rows[k], answers(rows[k]));
      }
    }

    /** One attempt of a worker: handled says whether every handler succeeded, marked and recorded whether the
        row could then be settled. It reports whether the job is to be retried. */
    method Process(e: EventId, handled: bool, marked: bool, recorded: bool) returns (again: bool)
      requires Valid() && e in events && e in jobs && jobs[e].Waiting?
      modifies this
      ensures Valid() && holds == old(holds) && e in events && e in jobs
      ensures events == old(events)[e := events[e]]
      ensures again <==> jobs[e].Waiting?
      ensures again <==> !(handled && marked) && old(jobs[e].attempts) + 1 < 5
      ensures again ==> jobs == old(jobs)[e := Waiting(old(jobs[e].attempts) + 1)]
      ensures !again ==> jobs == old(jobs)[e := Over]
      ensures events[e].handled == old(events[e].handled) + if handled then 1 else 0
      ensures events[e].status ==
        if handled && marked then DONE
        else if !recorded then old(events[e].status)
        else if again then PROCESSING else DEAD
    {
      ghost var before := View();
      var attempts := jobs[e].attempts;
      if handled {
        events := events[e := events[e].(handled := events[e].handled + 1)];
      }
      if handled && marked {
        MarkDone(e);
      } else {
        RecordFailure(e, attempts, recorded);
      }
      again := jobs[e].Waiting?;
      assert View() == AfterAttempt(before, e, attempts, handled, marked, recorded);
      Record(Attempt(e, handled, marked, recorded));
    }

    method MarkDone(e: EventId)
      requires e in events
      modifies this`events, this`jobs
      ensures events == old(events)[e := old(events[e]).(status := DONE)] && jobs == old(jobs)[e := Over]
    {
      events := events[e := events[e].(status := DONE)];
      jobs := jobs[e := Over];
    }

    /** The record of a failed attempt, which may fail as well, and the retry or the end of the job. */
    method RecordFailure(e: EventId, attempts: nat, recorded: bool)
      requires e in events
      modifies this`events, this`jobs
      ensures jobs == old(jobs)[e := if attempts + 1 >= MAX_ATTEMPTS then Over else Waiting(attempts + 1)]
      ensures !recorded ==> events == old(events)
      ensures recorded ==>
        events == old(events)[e := if attempts + 1 >= MAX_ATTEMPTS then Event(DEAD, old(events[e]).handled, true)
                                   else old(events[e]).(status := PROCESSING)]
    {
      var exhausted := attempts + 1 >= MAX_ATTEMPTS;
      if recorded {
        var event := events[e];
        events := events[e := if exhausted then Event(DEAD, event.handled, true) else event.(status := PROCESSING)];
      }
      jobs := jobs[e := if exhausted then Over else Waiting(attempts + 1)];
    }
  }
}
