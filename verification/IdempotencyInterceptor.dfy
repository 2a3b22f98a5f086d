/** One intercepted request as it runs: its statements in source order, with any other requests in
    between. It is one schedule of the machine in module Idempotency. */
module IdempotencyInterceptor {
  import opened Prelude
  import opened Idempotency

  /** What the wrapped handler does. */
  datatype Outcome = Answer(response: Response) | Error

  datatype ClaimResult = Claimed | Prior(copy: Response) | Conflict | Unprocessable

  datatype Result =
    | Unguarded(outcome: Outcome)   // no key, not a mutating request, or no tenant
    | BadKey
    | Ran(outcome: Outcome)
    | Replay(copy: Response)
    | Refused(why: ClaimResult)

  datatype Header = Header(key: Option<string>, mutating: bool, tenant: Option<nat>, endpoint: string)

  predicate By(a: Action, r: nat) {
    !a.Arrive? && a.r == r
  }

  ghost predicate OthersRan(before: seq<Action>, after: seq<Action>, r: nat) {
    before <= after && forall k | |before| <= k < |after| :: !By(after[k], r)
  }

  /** Between two statements the others may take any steps that are theirs. */
  lemma OthersMayRun(before: seq<Action>, more: seq<Action>, r: nat)
    requires forall a | a in more :: a.Arrive? || a.r != r
    ensures OthersRan(before, before + more, r)
  {
    forall k | |before| <= k < |before + more| ensures !By((before + more)[k], r) {
      assert (before + more)[k] in more;
    }
  }

  lemma {:induction false} OthersKeepRequest(before: seq<Action>, after: seq<Action>, r: nat)
    requires OthersRan(before, after, r) && r < |Run(before).requests|
    ensures r < |Run(after).requests| && Run(after).requests[r] == Run(before).requests[r]
    decreases |after|
  {
    if |after| == |before| {
      assert after == before;
    } else {
      OthersKeepRequest(before, after[..|after| - 1], r);
    }
  }

  /** r's success, if it has one, is the only one of its slot; by SuccessIsForGood that lasts. */
  ghost predicate Excludes(requests: seq<Request>, r: nat)
    requires r < |requests|
  {
    Won(requests[r].phase).Some? ==>
      forall q | 0 <= q < |requests| && q != r && requests[q].slot == requests[r].slot :: Won(requests[q].phase) == None
  }

  lemma RunExcludes(acts: seq<Action>, r: nat)
    requires r < |Run(acts).requests|
    ensures Excludes(Run(acts).requests, r)
  {
    var requests := Run(acts).requests;
    forall q | Won(requests[r].phase).Some? && 0 <= q < |requests| && q != r && requests[q].slot == requests[r].slot
      ensures Won(requests[q].phase) == None
    {
      OneExecutionWins(acts, r, q);
    }
  }

  /** copy is the answer of a request that succeeded on r's slot with r's body. */
  ghost predicate Copies(requests: seq<Request>, r: nat, copy: Response)
    requires r < |requests|
  {
    exists q | 0 <= q < |requests| ::
      && Won(requests[q].phase) == Some(copy)
      && requests[q].slot == requests[r].slot && requests[q].hash == requests[r].hash
  }

  /** The claim by the row it read: 422 for another body, the answer for this one, and 409 while there is none
      or the row has gone again. */
  ghost predicate Reads(rows: map<Slot, Row>, slot: Slot, hash: string, claim: ClaimResult) {
    && (claim == Unprocessable <==> slot in rows && rows[slot].hash != hash)
    && (claim == Conflict <==> slot !in rows || (rows[slot].hash == hash && rows[slot].response == None))
    && (forall copy :: claim == Prior(copy) <==>
          slot in rows && rows[slot].hash == hash && rows[slot].response == Some(copy))
  }

  class KeyTable {
    var rows: map<Slot, Row>
    /** The local state of the requests in flight and of those that are over. */
    var requests: seq<Request>
    ghost var schedule: seq<Action>

    ghost function View(): State
      reads this
    {
      State(rows, requests)
    }

    ghost predicate Valid()
      reads this
    {
      View() == Run(schedule)
    }

    constructor ()
      ensures Valid() && schedule == []
    {
      rows, requests, schedule := map[], [], [];
    }

    /** Any number of statements of requests other than r. */
    method Yield(r: nat)
      requires Valid() && r < |requests|
      modifies this
      ensures Valid() && OthersRan(old(schedule), schedule, r)
    {
    }

    method Interlude(r: nat)
      requires Valid() && r < |requests|
      modifies this
      ensures Valid() && r < |requests| && requests[r] == old(requests[r])
    {
      Yield(r);
      OthersKeepRequest(old(schedule), schedule, r);
    }

    ghost method Record(a: Action)
      requires View() == Apply(Run(schedule), a)
      modifies this`schedule
      ensures Valid() && schedule == old(schedule) + [a]
    {
      RunOneMore(schedule, a);
      schedule := schedule + [a];
    }

    method Enter(slot: Slot, hash: string) returns (r: nat)
      requires Valid()
      modifies this`requests, this`schedule
      ensures Valid() && r == |old(requests)| && requests == old(requests) + [Request(slot, hash, Arrived)]
    {
      r := |requests|;
      requests := requests + [Request(slot, hash, Arrived)];
      Record(Arrive(slot, hash));
    }

    /** Inserts the row; on a collision reads the row that is there by then. */
    method Claim(slot: Slot, hash: string, r: nat) returns (res: ClaimResult)
      requires Valid() && r < |requests| && requests[r] == Request(slot, hash, Arrived)
      modifies this
      ensures Valid() && r < |requests| && requests[r].slot == slot && requests[r].hash == hash
      ensures res.Claimed? <==> requests[r].phase.Executing?
      ensures res.Claimed? <==> slot !in old(rows)
      ensures res.Claimed? ==> slot in rows && rows[slot].owner == r && rows[slot].response == None
      ensures !res.Claimed? ==> Reads(rows, slot, hash, res)
      ensures res.Prior? ==> requests[r].phase == Replayed(res.copy)
      ensures res.Conflict? <==> requests[r].phase.InProgress?
      ensures res.Unprocessable? <==> requests[r].phase.BodyDiffers?
    {
      if slot !in rows {
        rows := rows[slot := Row(hash, None, r)];
        requests := requests[r := Request(slot, hash, Executing)];
        Record(Insert(r));
        return Claimed;
      }
      requests := requests[r := Request(slot, hash, Occupied)];
      Record(Insert(r));
      Interlude(r);
      if slot !in rows {
        res := Conflict;
      } else if rows[slot].hash != hash {
        res := Unprocessable;
      } else {
        match rows[slot].response
        case None => res := Conflict;
        case Some(response) => res := Prior(response);
      }
      requests := requests[r := Request(slot, hash, Verdict(rows, slot, hash))];
      Record(Read(r));
    }

    /** Overwrites the answer of the slot's row. */
    method Store(slot: Slot, response: Response, r: nat)
      requires Valid() && r < |requests| && requests[r].slot == slot && requests[r].phase == Answered(response)
      modifies this
      ensures Valid() && r < |requests| && requests[r] == Request(slot, old(requests[r].hash), Ended(Some(response)))
      ensures rows == old(rows)[slot := Row(old(requests[r].hash), Some(response), r)]
    {
      RunKeeps(schedule);
      assert RequestOk(rows, r, requests[r]);
      if slot in rows {
        rows := rows[slot := rows[slot].(response := Some(response))];
      }
      requests := requests[r := requests[r].(phase := Ended(Some(response)))];
      Record(Idempotency.Store(r));
    }

    /** Deletes the slot's row when it is unanswered. */
    method Release(slot: Slot, r: nat)
      requires Valid() && r < |requests| && requests[r].slot == slot && requests[r].phase.Errored?
      modifies this
      ensures Valid() && r < |requests| && requests[r] == Request(slot, old(requests[r].hash), Ended(None))
      ensures rows == old(rows) - {slot}
    {
      RunKeeps(schedule);
      assert RequestOk(rows, r, requests[r]);
      if slot in rows && rows[slot].response == None {
        rows := rows - {slot};
      }
      requests := requests[r := requests[r].(phase := Ended(None))];
      Record(Idempotency.Release(r));
    }

    method Finish(r: nat, outcome: Outcome)
      requires Valid() && r < |requests| && requests[r].phase.Executing?
      modifies this`requests, this`schedule
      ensures Valid() && |requests| == |old(requests)|
      ensures requests[r] == old(requests[r]).(phase := if outcome.Answer? then Answered(outcome.response) else Errored)
    {
      match outcome
      case Answer(response) =>
        requests := requests[r := requests[r].(phase := Answered(response))];
        Record(Succeed(r, response));
      case Error =>
        requests := requests[r := requests[r].(phase := Errored)];
        Record(Fail(r));
    }

    /** A store or release that is lost. */
    method Lose(r: nat)
      requires Valid() && r < |requests| && Holds(requests[r].phase)
      modifies this`requests, this`schedule
      ensures Valid() && |requests| == |old(requests)|
      ensures requests[r] == old(requests[r]).(phase := Ended(Won(old(requests[r].phase))))
    {
      requests := requests[r := requests[r].(phase := Ended(Won(requests[r].phase)))];
      Record(Drop(r));
    }

    /** The handler of a claimed request. settles says whether the final store or release reaches the database. */
    method Execute(slot: Slot, handler: Outcome, settles: bool, r: nat)
      requires Valid() && r < |requests| && requests[r].slot == slot && requests[r].phase.Executing?
      modifies this
      ensures Valid() && r < |requests| && requests[r].slot == slot && requests[r].hash == old(requests[r].hash)
      ensures requests[r].phase == Ended(if handler.Answer? then Some(handler.response) else None)
      ensures Won(requests[r].phase).Some? && settles ==> slot in rows && rows[slot].response == Won(requests[r].phase)
      ensures handler.Error? && settles ==> slot !in rows
    {
      Interlude(r);
      Finish(r, handler);
      Interlude(r);
      if !settles {
        Lose(r);
      } else {
        match handler
        case Answer(response) => Store(slot, response, r);
        case Error => Release(slot, r);
      }
    }

    method Intercept(header: Header, hash: string, handler: Outcome, settles: bool) returns (res: Result, r: nat)
      requires Valid()
      modifies this
      ensures Valid()
      ensures res.Unguarded? || res.BadKey? ==> rows == old(rows) && requests == old(requests)
      ensures res.Unguarded? <==> header.key.None? || |header.key.value| == 0 || !header.mutating || header.tenant.None?
      ensures res.BadKey? <==> !res.Unguarded? && !(8 <= |header.key.value| <= 200)
      ensures !res.Unguarded? && !res.BadKey? ==>
        && r < |requests| && requests[r].hash == hash
        && requests[r].slot == Slot(header.tenant.value, header.key.value, header.endpoint)
      ensures res.Ran? ==> res.outcome == handler && r < |requests| && Excludes(requests, r)
      ensures res.Ran? ==> requests[r].phase == Ended(if handler.Answer? then Some(handler.response) else None)
      ensures res.Replay? ==> r < |requests| && Copies(requests, r, res.copy)
      ensures res.Replay? ==> requests[r].phase == Replayed(res.copy)
      ensures res.Refused? ==> requests[r].phase == if res.why.Conflict? then InProgress else BodyDiffers
      ensures res.Replay? ==> Reads(rows, requests[r].slot, hash, Prior(res.copy))
      ensures res.Ran? && settles ==>
        if handler.Answer? then requests[r].slot in rows && rows[requests[r].slot].response == Some(handler.response)
        else requests[r].slot !in rows
      ensures res.Refused? ==> !res.why.Claimed? && !res.why.Prior? && Reads(rows, requests[r].slot, hash, res.why)
    {
      r := 0;
      if header.key.None? || |header.key.value| == 0 || !header.mutating || header.tenant.None? {
        return Unguarded(handler), r;
      }
      var key := header.key.value;
      if |key| < 8 || |key| > 200 {
        return BadKey, r;
      }
      var slot := Slot(header.tenant.value, key, header.endpoint);
      r := Enter(slot, hash);
      Interlude(r);
      var claim := Claim(slot, hash, r);
      match claim
      case Claimed =>
        Execute(slot, handler, settles, r);
        RunExcludes(schedule, r);
        res := Ran(handler);
      case Prior(copy) =>
        ReplaysTheWinner(schedule, r);
        res := Replay(copy);
      case Conflict => res := Refused(Conflict);
      case Unprocessable => res := Refused(Unprocessable);
    }
  }
}
