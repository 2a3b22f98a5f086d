/** The idempotency-key interceptor: a request claims its slot by inserting a row, runs the handler, and
    then stores the answer in the row or deletes the unanswered row. Each of these is its own statement;
    storing and releasing are not awaited, so they may come late, fail or never happen. */
module Idempotency {
  import opened Prelude

  /** The unique key of a row. */
  datatype Slot = Slot(tenant: nat, key: string, endpoint: string)

  datatype Response = Response(statusCode: nat, body: string)

  /** owner is the request whose insert made the row; the program does not record it. */
  datatype Row = Row(hash: string, response: Option<Response>, owner: nat)

  datatype Phase =
    | Arrived
    | Occupied                       // the insert hit the unique key; the row is still to be read
    | Executing
    | Answered(response: Response)   // the handler succeeded; the store is pending
    | Errored                        // the handler failed; the release is pending
    | Ended(won: Option<Response>)   // nothing left to do; won when its handler succeeded
    | Replayed(copy: Response)
    | InProgress                     // 409
    | BodyDiffers                    // 422

  datatype Request = Request(slot: Slot, hash: string, phase: Phase)

  datatype State = State(rows: map<Slot, Row>, requests: seq<Request>)

  datatype Action =
    | Arrive(slot: Slot, hash: string)
    | Insert(r: nat)
    | Read(r: nat)
    | Succeed(r: nat, response: Response)
    | Fail(r: nat)
    | Store(r: nat)
    | Release(r: nat)
    | Drop(r: nat)   // the statement fails or the process dies

  function Won(phase: Phase): Option<Response> {
    match phase
    case Answered(response) => Some(response)
    case Ended(won) => won
    case _ => None
  }

  predicate Holds(phase: Phase) {
    phase.Executing? || phase.Answered? || phase.Errored?
  }

  function Move(s: State, r: nat, phase: Phase): State
    requires r < |s.requests|
  {
    s.(requests := s.requests[r := s.requests[r].(phase := phase)])
  }

  /** What the row found after a failed insert means for the request. */
  function Verdict(rows: map<Slot, Row>, slot: Slot, hash: string): Phase {
    if slot !in rows then InProgress
    else if rows[slot].hash != hash then BodyDiffers
    else match rows[slot].response
      case None => InProgress
      case Some(response) => Replayed(response)
  }

  function Apply(s: State, a: Action): State {
    match a
    case Arrive(slot, hash) => s.(requests := s.requests + [Request(slot, hash, Arrived)])
    case Insert(r) =>
      if r < |s.requests| && s.requests[r].phase.Arrived?
      then
        var Request(slot, hash, _) := s.requests[r];
        if slot in s.rows then Move(s, r, Occupied)
        else Move(s, r, Executing).(rows := s.rows[slot := Row(hash, None, r)])
      else s
    case Read(r) =>
      if r < |s.requests| && s.requests[r].phase.Occupied?
      then Move(s, r, Verdict(s.rows, s.requests[r].slot, s.requests[r].hash))
      else s
    case Succeed(r, response) =>
      if r < |s.requests| && s.requests[r].phase.Executing? then Move(s, r, Answered(response)) else s
    case Fail(r) =>
      if r < |s.requests| && s.requests[r].phase.Executing? then Move(s, r, Errored) else s
    case Store(r) =>
      if r < |s.requests| && s.requests[r].phase.Answered?
      then
        var Request(slot, _, Answered(response)) := s.requests[r];
        var s' := Move(s, r, Ended(Some(response)));
        // the update names the slot, not the claim
        if slot in s.rows then s'.(rows := s.rows[slot := s.rows[slot].(response := Some(response))]) else s'
      else s
    case Release(r) =>
      if r < |s.requests| && s.requests[r].phase.Errored?
      then
        var slot, s' := s.requests[r].slot, Move(s, r, Ended(None));
        if slot in s.rows && s.rows[slot].response.None? then s'.(rows := s.rows - {slot}) else s'
      else s
    case Drop(r) =>
      if r < |s.requests|
         && (Holds(s.requests[r].phase) || s.requests[r].phase.Arrived? || s.requests[r].phase.Occupied?)
      then Move(s, r, Ended(Won(s.requests[r].phase)))
      else s
  }

  function Run(acts: seq<Action>): State {
    if acts == [] then State(map[], []) else Apply(Run(acts[..|acts| - 1]), acts[|acts| - 1])
  }

  lemma RunOneMore(acts: seq<Action>, a: Action)
    ensures Run(acts + [a]) == Apply(Run(acts), a)
  {
    assert (acts + [a])[..|acts|] == acts;
  }

  // ---------------------------------------------------------------------------------------------
  // The invariant
  // ---------------------------------------------------------------------------------------------

  ghost predicate RequestOk(rows: map<Slot, Row>, r: nat, q: Request) {
    && (Holds(q.phase) || Won(q.phase).Some? ==>
          q.slot in rows && rows[q.slot].owner == r && rows[q.slot].hash == q.hash)
    && (Holds(q.phase) ==> rows[q.slot].response == None)
    && (q.phase.Replayed? ==>
          q.slot in rows && rows[q.slot].hash == q.hash && rows[q.slot].response == Some(q.phase.copy))
  }

  ghost predicate RowOk(requests: seq<Request>, slot: Slot, row: Row) {
    && row.owner < |requests| && requests[row.owner].slot == slot && requests[row.owner].hash == row.hash
    && (row.response.Some? ==> Won(requests[row.owner].phase) == row.response)
  }

  ghost predicate Inv(s: State) {
    && (forall r | 0 <= r < |s.requests| :: RequestOk(s.rows, r, s.requests[r]))
    && forall slot | slot in s.rows :: RowOk(s.requests, slot, s.rows[slot])
  }

  /** The acting request keeps the conditions on itself. */
  lemma StepKeepsItself(s: State, a: Action)
    requires Inv(s) && !a.Arrive? && a.r < |s.requests|
    ensures a.r < |Apply(s, a).requests| && RequestOk(Apply(s, a).rows, a.r, Apply(s, a).requests[a.r])
  {
    assert RequestOk(s.rows, a.r, s.requests[a.r]);
  }

  lemma StepKeepsOther(s: State, a: Action, r: nat)
    requires Inv(s) && r < |s.requests| && (a.Arrive? || a.r != r)
    ensures r < |Apply(s, a).requests| && RequestOk(Apply(s, a).rows, r, Apply(s, a).requests[r])
  {
    assert RequestOk(s.rows, r, s.requests[r]);
    assert !a.Arrive? && a.r < |s.requests| ==> RequestOk(s.rows, a.r, s.requests[a.r]);
  }

  lemma StepKeepsRow(s: State, a: Action, slot: Slot)
    requires Inv(s) && slot in Apply(s, a).rows
    ensures RowOk(Apply(s, a).requests, slot, Apply(s, a).rows[slot])
  {
    assert slot in s.rows ==> RowOk(s.requests, slot, s.rows[slot]);
    assert !a.Arrive? && a.r < |s.requests| ==> RequestOk(s.rows, a.r, s.requests[a.r]);
  }

  lemma StepKeeps(s: State, a: Action)
    requires Inv(s)
    ensures Inv(Apply(s, a))
  {
    var s' := Apply(s, a);
    forall r | 0 <= r < |s'.requests| ensures RequestOk(s'.rows, r, s'.requests[r]) {
      if !a.Arrive? && a.r == r {
        StepKeepsItself(s, a);
      } else if r < |s.requests| {
        StepKeepsOther(s, a, r);
      }
    }
    forall slot | slot in s'.rows ensures RowOk(s'.requests, slot, s'.rows[slot]) {
      StepKeepsRow(s, a, slot);
    }
  }

  lemma {:induction false} RunKeeps(acts: seq<Action>)
    ensures Inv(Run(acts))
  {
    if acts != [] {
      RunKeeps(acts[..|acts| - 1]);
      StepKeeps(Run(acts[..|acts| - 1]), acts[|acts| - 1]);
    }
  }

  // ---------------------------------------------------------------------------------------------
  // What holds over whole runs
  // ---------------------------------------------------------------------------------------------

  /** Of two requests for one slot at most one holds the claim or has succeeded. */
  lemma OneExecutionWins(acts: seq<Action>, q: nat, r: nat)
    requires q < |Run(acts).requests| && r < |Run(acts).requests| && q != r
    requires Run(acts).requests[q].slot == Run(acts).requests[r].slot
    ensures var mine, theirs := Run(acts).requests[q].phase, Run(acts).requests[r].phase;
      Holds(mine) || Won(mine).Some? ==> !Holds(theirs) && Won(theirs) == None
  {
    RunKeeps(acts);
    var s := Run(acts);
    assert RequestOk(s.rows, q, s.requests[q]) && RequestOk(s.rows, r, s.requests[r]);
  }

  /** A replayed answer is that of the one execution that succeeded, for the same body. */
  lemma ReplaysTheWinner(acts: seq<Action>, r: nat)
    requires r < |Run(acts).requests| && Run(acts).requests[r].phase.Replayed?
    ensures exists q | 0 <= q < |Run(acts).requests| ::
      && Won(Run(acts).requests[q].phase) == Some(Run(acts).requests[r].phase.copy)
      && Run(acts).requests[q].slot == Run(acts).requests[r].slot
      && Run(acts).requests[q].hash == Run(acts).requests[r].hash
  {
    RunKeeps(acts);
    var s := Run(acts);
    var slot := s.requests[r].slot;
    assert RequestOk(s.rows, r, s.requests[r]);
    assert RowOk(s.requests, slot, s.rows[slot]);
    assert Won(s.requests[s.rows[slot].owner].phase) == Some(s.requests[r].phase.copy);
  }

  ghost predicate Winner(s: State, r: nat, slot: Slot, response: Response) {
    r < |s.requests| && s.requests[r].slot == slot && Won(s.requests[r].phase) == Some(response)
  }

  lemma StepKeepsWinner(s: State, a: Action, r: nat, slot: Slot, response: Response)
    requires Inv(s) && Winner(s, r, slot, response)
    ensures Winner(Apply(s, a), r, slot, response)
  {
    assert RequestOk(s.rows, r, s.requests[r]);
  }

  lemma {:induction false} WinnerStays(acts: seq<Action>, more: seq<Action>, r: nat, slot: Slot, response: Response)
    requires Winner(Run(acts), r, slot, response)
    ensures Winner(Run(acts + more), r, slot, response)
  {
    if more == [] {
      assert acts + more == acts;
    } else {
      var front, last := more[..|more| - 1], more[|more| - 1];
      WinnerStays(acts, front, r, slot, response);
      RunKeeps(acts + front);
      StepKeepsWinner(Run(acts + front), last, r, slot, response);
      RunOneMore(acts + front, last);
      assert acts + more == acts + front + [last];
    }
  }

  /** Once a request has succeeded, no other request for its slot ever executes again. */
  lemma {:induction false} SuccessIsForGood(acts: seq<Action>, more: seq<Action>, r: nat, q: nat)
    requires r < |Run(acts).requests| && Won(Run(acts).requests[r].phase).Some?
    requires q < |Run(acts + more).requests| && q != r
    requires Run(acts + more).requests[q].slot == Run(acts).requests[r].slot
    ensures !Holds(Run(acts + more).requests[q].phase) && Won(Run(acts + more).requests[q].phase) == None
  {
    var mine := Run(acts).requests[r];
    WinnerStays(acts, more, r, mine.slot, Won(mine.phase).value);
    OneExecutionWins(acts + more, r, q);
  }

  /** A slot without a holder and without a pending store or release: its row, if any, is final. */
  ghost predicate Settled(s: State, slot: Slot) {
    forall r | 0 <= r < |s.requests| && s.requests[r].slot == slot :: !Holds(s.requests[r].phase)
  }

  lemma StepKeepsSettledRow(s: State, a: Action, slot: Slot)
    requires Settled(s, slot) && slot in s.rows
    ensures Settled(Apply(s, a), slot) && slot in Apply(s, a).rows && Apply(s, a).rows[slot] == s.rows[slot]
  {
  }

  lemma {:induction false} SettledRowStays(acts: seq<Action>, more: seq<Action>, slot: Slot)
    requires Settled(Run(acts), slot) && slot in Run(acts).rows
    ensures Settled(Run(acts + more), slot)
    ensures slot in Run(acts + more).rows && Run(acts + more).rows[slot] == Run(acts).rows[slot]
  {
    if more == [] {
      assert acts + more == acts;
    } else {
      var front, last := more[..|more| - 1], more[|more| - 1];
      SettledRowStays(acts, front, slot);
      StepKeepsSettledRow(Run(acts + front), last, slot);
      RunOneMore(acts + front, last);
      assert acts + more == acts + front + [last];
    }
  }

  function PhaseAt(s: State, r: nat): Option<Phase> {
    if r < |s.requests| then Some(s.requests[r].phase) else None
  }

  /** Where a fresh request stands after its insert and, if that failed, its read. */
  function Attempt(s: State, slot: Slot, hash: string): Option<Phase> {
    var r := |s.requests|;
    PhaseAt(Apply(Apply(Apply(s, Arrive(slot, hash)), Insert(r)), Read(r)), r)
  }

  lemma AttemptReads(s: State, slot: Slot, hash: string)
    ensures Attempt(s, slot, hash) == Some(if slot in s.rows then Verdict(s.rows, slot, hash) else Executing)
  {
    var r := |s.requests|;
    var s1 := Apply(s, Arrive(slot, hash));
    assert s1.requests[r] == Request(slot, hash, Arrived);
    var s2 := Apply(s1, Insert(r));
    assert s2.requests[r].phase == if slot in s.rows then Occupied else Executing;
  }

  /** The answers by the row: 422 for another body, 409 for this body unanswered, and its answer. */
  ghost predicate ToldByRow(row: Row, hash: string, told: Phase) {
    && (told == BodyDiffers <==> row.hash != hash)
    && (told == InProgress <==> row.hash == hash && row.response == None)
    && (forall r :: told == Replayed(r) <==> row.hash == hash && row.response == Some(r))
  }

  lemma VerdictIsByRow(rows: map<Slot, Row>, slot: Slot, hash: string)
    ensures slot in rows ==> ToldByRow(rows[slot], hash, Verdict(rows, slot, hash))
    ensures slot !in rows ==> Verdict(rows, slot, hash) == InProgress
  {
  }

  /** What a retry gets on a settled slot: a fresh execution exactly when the row is gone, and otherwise,
      whatever happens in between, the stored answer, the 422 of another body, or the 409 of an execution
      whose store or release was lost. */
  lemma {:induction false} RetryGets(acts: seq<Action>, more: seq<Action>, slot: Slot, hash: string)
    requires Settled(Run(acts), slot)
    ensures slot !in Run(acts).rows <==> Attempt(Run(acts), slot, hash) == Some(Executing)
    ensures slot in Run(acts).rows ==>
      var told := Attempt(Run(acts + more), slot, hash);
      told.Some? && ToldByRow(Run(acts).rows[slot], hash, told.value)
  {
    VerdictIsByRow(Run(acts).rows, slot, hash);
    AttemptReads(Run(acts), slot, hash);
    if slot in Run(acts).rows {
      SettledRowStays(acts, more, slot);
      AttemptReads(Run(acts + more), slot, hash);
    }
  }

  /** A store that happens fixes the answer; a release that happens frees the slot. */
  lemma SettlingStep(acts: seq<Action>, r: nat)
    requires r < |Run(acts).requests| && (Run(acts).requests[r].phase.Answered? || Run(acts).requests[r].phase.Errored?)
    ensures var Request(slot, hash, phase) := Run(acts).requests[r];
      var s' := Run(acts + [if phase.Answered? then Store(r) else Release(r)]);
      && Settled(s', slot)
      && (phase.Errored? ==> slot !in s'.rows)
      && (phase.Answered? ==> slot in s'.rows && s'.rows[slot] == Row(hash, Some(phase.response), r))
  {
    RunKeeps(acts);
    var s := Run(acts);
    var Request(slot, hash, phase) := s.requests[r];
    var a := if phase.Answered? then Store(r) else Release(r);
    RunOneMore(acts, a);
    assert RequestOk(s.rows, r, s.requests[r]);
    forall q | 0 <= q < |s.requests| && s.requests[q].slot == slot && q != r ensures !Holds(s.requests[q].phase) {
      OneExecutionWins(acts, r, q);
    }
    assert forall q | 0 <= q < |s.requests| && q != r :: Apply(s, a).requests[q] == s.requests[q];
  }

  /** A successful request whose store was lost does not execute again: its retry is told it is in progress,
      then and ever after. */
  lemma LostStoreLocksTheKey(acts: seq<Action>, r: nat, more: seq<Action>)
    requires r < |Run(acts).requests| && Run(acts).requests[r].phase.Answered?
    ensures var Request(slot, hash, _) := Run(acts).requests[r];
      Attempt(Run(acts + [Drop(r)] + more), slot, hash) == Some(InProgress)
  {
    RunKeeps(acts);
    var s := Run(acts);
    var Request(slot, hash, _) := s.requests[r];
    RunOneMore(acts, Drop(r));
    var s' := Run(acts + [Drop(r)]);
    assert RequestOk(s.rows, r, s.requests[r]);
    forall q | 0 <= q < |s'.requests| && s'.requests[q].slot == slot ensures !Holds(s'.requests[q].phase) {
      if q != r {
        OneExecutionWins(acts, r, q);
        assert s'.requests[q] == s.requests[q];
      }
    }
    RetryGets(acts + [Drop(r)], more, slot, hash);
  }
}
