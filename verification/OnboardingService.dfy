/** sendMessage as it runs: its updates and model calls in source order, with any other requests and
    uploads in between. It is one schedule of the machine in module Onboarding. */
module OnboardingService {
  import opened Onboarding

  /** What the model answers: an error, or text with or without tool calls. */
  datatype Reply = Failure | Answer(text: string, tools: bool)

  datatype Result = Replied(reply: string) | NotInProgress | LimitReached | Conflict | Unavailable

  const DEFAULT_REPLY := "continue"
  const RECORDED_REPLY := "recorded"

  predicate By(a: Action, t: nat) {
    match a
    case Reserve(k) => k == t
    case Call(k, _) => k == t
    case Write(k, _, _, _) => k == t
    case Release(k) => k == t
    case Crash(k) => k == t
    case _ => false
  }

  /** The same talking turn with its calls counted. */
  function Counted(turn: Turn, used: nat): Turn
    requires turn.Talking?
  {
    Talking(turn.reserved, turn.budget, used, turn.history)
  }

  /** A turn that has ended: it leaves its calls charged if it could give the rest back, else its budget. */
  function Over(turn: Turn, current: bool): Turn
    requires turn.Talking? || turn.Failing?
  {
    Done(if current then turn.used else turn.budget, turn.used)
  }

  ghost predicate OthersRan(before: seq<Action>, after: seq<Action>, t: nat) {
    before <= after && forall k | |before| <= k < |after| :: !By(after[k], t)
  }

  /** Between two statements the others may take any steps that are theirs. */
  lemma OthersMayRun(before: seq<Action>, more: seq<Action>, t: nat)
    requires forall a | a in more :: a.Load? || a.Upload? || a.Finalize? || a.turn != t
    ensures OthersRan(before, before + more, t)
  {
    forall k | |before| <= k < |before + more| ensures !By((before + more)[k], t) {
      assert (before + more)[k] in more;
    }
  }

  lemma {:induction false} OthersKeepTurn(cap: nat, before: seq<Action>, after: seq<Action>, t: nat)
    requires OthersRan(before, after, t) && t < |Run(cap, before).turns|
    ensures t < |Run(cap, after).turns| && Run(cap, after).turns[t] == Run(cap, before).turns[t]
    ensures Run(cap, before).session.history <= Run(cap, after).session.history
    ensures Run(cap, before).session.version <= Run(cap, after).session.version
    decreases |after|
  {
    if |after| == |before| {
      assert after == before;
    } else {
      var front := after[..|after| - 1];
      OthersKeepTurn(cap, before, front, t);
      RunKeeps(cap, front);
      StepKeepsConversation(Run(cap, front), after[|after| - 1]);
    }
  }

  /** text is what the user is shown when the talk ends at this answer. */
  predicate FinalText(last: Reply, text: string)
    requires last.Answer?
  {
    && (last.text != "" ==> text == last.text)
    && (last.text == "" && !last.tools ==> text == "continue")
    && (last.text == "" && last.tools ==> text == "recorded")
  }

  /** The talk of at most budget calls ends at the k-th answer. */
  ghost predicate EndsAt(model: nat -> Reply, budget: int, k: nat) {
    && k < budget && model(k).Answer? && (k < budget - 1 ==> !model(k).tools)
    && forall j | 0 <= j < k :: model(j).Answer? && model(j).tools
  }

  /** The talk of at most budget calls ends at the k-th call, which fails. */
  ghost predicate FailsAt(model: nat -> Reply, budget: int, k: nat) {
    k < budget && model(k).Failure? && forall j | 0 <= j < k :: model(j).Answer? && model(j).tools
  }

  /** The turn is over with reply as its text, and is charged the calls it made. */
  ghost predicate Answered(model: nat -> Reply, budget: int, turn: Turn, reply: string) {
    exists k: nat | EndsAt(model, budget, k) :: FinalText(model(k), reply) && turn == Done(k + 1, k + 1)
  }

  /** The turn is over after a failed call, with the calls before it made. */
  ghost predicate Broken(model: nat -> Reply, budget: int, turn: Turn) {
    exists k: nat | FailsAt(model, budget, k) :: turn.Done? && turn.used == k
  }

  class SessionRow {
    const cap: nat
    var version: nat
    var callCount: int
    var conversation: seq<Message>
    var status: Status
    /** The requests in flight; a request's own entry mirrors its local variables. */
    ghost var turns: seq<Turn>
    ghost var uploads: nat
    ghost var commits: nat
    ghost var schedule: seq<Action>

    ghost function View(): State
      reads this
    {
      State(cap, Session(version, callCount, conversation, status), turns, uploads, commits)
    }

    ghost predicate Valid()
      reads this
    {
      View() == Run(cap, schedule)
    }

    constructor (cap: nat)
      ensures Valid() && schedule == [] && this.cap == cap
    {
      this.cap := cap;
      version, callCount, conversation, status := 0, 0, [GREETING], IN_PROGRESS;
      turns, uploads, commits, schedule := [], 0, 0, [];
    }

    /** Any number of steps of other requests and uploads. */
    method Yield(ghost t: nat)
      requires Valid() && t < |turns|
      modifies this
      ensures Valid() && OthersRan(old(schedule), schedule, t)
    {
    }

    method Interlude(ghost t: nat)
      requires Valid() && t < |turns|
      modifies this
      ensures Valid() && t < |turns| && turns[t] == old(turns[t])
      ensures old(conversation) <= conversation && old(version) <= version
    {
      Yield(t);
      OthersKeepTurn(cap, old(schedule), schedule, t);
    }

    ghost method Record(a: Action)
      requires View() == Apply(Run(cap, schedule), a)
      modifies this`schedule
      ensures Valid() && schedule == old(schedule) + [a]
    {
      RunOneMore(cap, schedule, a);
      schedule := schedule + [a];
    }

    /** The conditional update that takes the budget. */
    method ReserveBudget(loaded: nat, budget: nat, ghost t: nat) returns (count: nat)
      requires Valid() && t < |turns| && turns[t].Loaded? && turns[t].version == loaded
      requires budget == Min(MAX_TOOL_ITERATIONS, cap - turns[t].callCount) && budget > 0
      modifies this
      ensures Valid() && schedule == old(schedule) + [Reserve(t)] && conversation == old(conversation) && t < |turns|
      ensures count > 0 <==> old(version) == loaded && old(status) == IN_PROGRESS
      ensures version == old(version) + if count > 0 then 1 else 0
      ensures callCount == old(callCount) + if count > 0 then budget else 0
      ensures turns[t] ==
        if count > 0 then Talking(loaded + 1, budget, 0, WellFormed(old(turns[t].history))) else Done(0, 0)
    {
      ghost var mine := turns[t];
      if version == loaded && status == IN_PROGRESS {
        version, callCount := version + 1, callCount + budget;
        turns := turns[t := Talking(loaded + 1, budget, 0, WellFormed(mine.history))];
        count := 1;
      } else {
        turns := turns[t := Done(0, 0)];
        count := 0;
      }
      Record(Reserve(t));
    }

    /** One model call. */
    method CallModel(answer: Reply, ghost t: nat) returns (ok: bool)
      requires Valid() && t < |turns| && turns[t].Talking? && turns[t].used < turns[t].budget
      modifies this
      ensures Valid() && t < |turns| && old(conversation) <= conversation
      ensures old(version) <= version && (ok <==> !answer.Failure?)
      ensures ok ==> turns[t] == Counted(old(turns[t]), old(turns[t].used) + 1)
      ensures !ok ==> turns[t] == Failing(old(turns[t].reserved), old(turns[t].budget), old(turns[t].used))
    {
      Interlude(t);
      ghost var mine := turns[t];
      ok := !answer.Failure?;
      turns := turns[t := if ok then Counted(mine, mine.used + 1) else Failing(mine.reserved, mine.budget, mine.used)];
      Record(Call(t, ok));
    }

    method ReleaseReservation(reserved: nat, unused: nat, ghost t: nat)
      requires Valid() && t < |turns| && turns[t].Failing? && turns[t].reserved == reserved
      requires unused == turns[t].budget - turns[t].used
      modifies this
      ensures Valid() && schedule == old(schedule) + [Release(t)] && conversation == old(conversation)
      ensures callCount == old(callCount) - if old(version) == reserved then unused else 0
      ensures version == old(version) + if old(version) == reserved then 1 else 0
      ensures t < |turns| && turns[t] == Over(old(turns[t]), old(version) == reserved)
    {
      ghost var mine := turns[t];
      if version == reserved {
        version, callCount := version + 1, callCount - unused;
        turns := turns[t := Done(mine.used, mine.used)];
      } else {
        turns := turns[t := Done(mine.budget, mine.used)];
      }
      Record(Release(t));
    }

    /** The final conditional update. */
    method WriteBack(reserved: nat, unused: int, messages: seq<Message>, ready: bool, ghost t: nat,
                     ghost user: string, ghost reply: string)
      returns (count: nat)
      requires Valid() && t < |turns| && turns[t].Talking? && turns[t].reserved == reserved && turns[t].used > 0
      requires unused == turns[t].budget - turns[t].used
      requires messages == turns[t].history + [User(user), Assistant(reply)]
      modifies this
      ensures Valid() && schedule == old(schedule) + [Write(t, user, reply, ready)]
      ensures count > 0 <==> old(version) == reserved
      ensures conversation == old(conversation) + if count > 0 then [User(user), Assistant(reply)] else []
      ensures callCount == old(callCount) - if count > 0 then unused else 0
      ensures status == if count > 0 && ready then READY_TO_FINALIZE else old(status)
      ensures version == old(version) + if count > 0 then 1 else 0
      ensures t < |turns| && turns[t] == Over(old(turns[t]), count > 0)
    {
      RunKeeps(cap, schedule);
      assert TurnOk(View(), turns[t]);
      ghost var mine := turns[t];
      if version == reserved {
        conversation, status := messages, if ready then READY_TO_FINALIZE else status;
        version, callCount := version + 1, callCount - unused;
        turns, commits := turns[t := Done(mine.used, mine.used)], commits + 1;
        count := 1;
      } else {
        turns := turns[t := Done(mine.budget, mine.used)];
        count := 0;
      }
      Record(Write(t, user, reply, ready));
    }

    /** The tool loop: at most budget calls, the first one included. */
    method Converse(budget: nat, model: nat -> Reply, ghost t: nat)
      returns (ok: bool, callsUsed: nat, finalText: string)
      requires Valid() && t < |turns| && turns[t].Talking? && turns[t].budget == budget > 0 && turns[t].used == 0
      modifies this
      ensures Valid() && t < |turns| && callsUsed <= budget
      ensures old(conversation) <= conversation && old(version) <= version
      ensures ok ==> callsUsed > 0 && turns[t] == Counted(old(turns[t]), callsUsed)
      ensures !ok ==> turns[t] == Failing(old(turns[t].reserved), budget, callsUsed)
      ensures !ok ==> FailsAt(model, budget, callsUsed)
      // the calls before the last one asked for tools, and talking stops at the first answer that does not
      ensures ok ==> EndsAt(model, budget, callsUsed - 1)
      // the final text is that of the last answer, or says that it had none
      ensures ok ==> FinalText(model(callsUsed - 1), finalText)
    {
      finalText := DEFAULT_REPLY;
      callsUsed := 0;
      var response := model(0);
      ok := CallModel(response, t);
      if !ok {
        return;
      }
      callsUsed := 1;
      for iteration := 0 to budget
        invariant Valid() && t < |turns| && old(conversation) <= conversation && old(version) <= version
        invariant callsUsed == iteration + 1 <= budget + 1
        invariant iteration < budget ==> ok && callsUsed <= budget && turns[t] == Counted(old(turns[t]), callsUsed)
        invariant iteration < budget ==> response == model(callsUsed - 1) && response.Answer?
        invariant iteration < budget ==> forall k | 0 <= k < callsUsed - 1 :: model(k).Answer? && model(k).tools
        invariant iteration < budget
      {
        if !response.tools {
          if response.text != "" {
            finalText := response.text;
          }
          return;
        }
        if iteration == budget - 1 || callsUsed >= budget {
          finalText := if response.text != "" then response.text else RECORDED_REPLY;
          return;
        }
        response := model(callsUsed);
        ok := CallModel(response, t);
        if !ok {
          return;
        }
        callsUsed := callsUsed + 1;
      }
    }

    /** What sendMessage does with the budget it has reserved. */
    method TalkReserved(userMessage: string, history: seq<Message>, budget: nat, reserved: nat,
                        model: nat -> Reply, ready: bool, ghost t: nat)
      returns (res: Result)
      requires Valid() && t < |turns| && turns[t] == Talking(reserved, budget, 0, history)
      requires 0 < budget && reserved <= version
      modifies this
      ensures Valid() && old(conversation) <= conversation && old(version) <= version
      ensures t < |turns| && turns[t].Done? && !res.NotInProgress? && !res.LimitReached?
      ensures res.Replied? ==>
        |conversation| >= 2 && conversation[|conversation| - 2..] == [User(userMessage), Assistant(res.reply)]
      ensures res.Replied? ==> Answered(model, budget, turns[t], res.reply)
      ensures res.Replied? && ready ==> status == READY_TO_FINALIZE
      ensures res.Conflict? ==> reserved < version
      ensures res.Unavailable? ==> Broken(model, budget, turns[t])
    {
      var ok, callsUsed, finalText := Converse(budget, model, t);
      Interlude(t);
      if !ok {
        ReleaseReservation(reserved, budget - callsUsed, t);
        return Unavailable;
      }
      var messages := history + [User(userMessage), Assistant(finalText)];
      var written := WriteBack(reserved, budget - callsUsed, messages, ready, t, userMessage, finalText);
      if written == 0 {
        return Conflict;
      }
      res := Replied(finalText);
    }

    method SendMessage(userMessage: string, model: nat -> Reply, ready: bool) returns (res: Result)
      requires Valid()
      modifies this
      ensures Valid() && old(conversation) <= conversation
      ensures res.Replied? ==>
        |conversation| >= 2 && conversation[|conversation| - 2..] == [User(userMessage), Assistant(res.reply)]
      ensures res.Replied? ==>
        |turns| > |old(turns)| &&
        Answered(model, Min(MAX_TOOL_ITERATIONS, cap - old(callCount)), turns[|old(turns)|], res.reply)
      ensures res.Replied? && ready ==> status == READY_TO_FINALIZE
      ensures res.NotInProgress? <==> old(status) != IN_PROGRESS
      ensures res.LimitReached? <==> old(status) == IN_PROGRESS && old(callCount) >= cap
      // a conflict means that another request, or the end of the talk, came before the reservation or after it
      ensures res.Conflict? ==>
        || old(version) + 1 < version
        || (|turns| > |old(turns)| && turns[|old(turns)|] == Done(0, 0)
            && (old(version) < version || status != IN_PROGRESS))
      // an outage means that a call failed
      ensures res.Unavailable? ==>
        |turns| > |old(turns)| &&
        Broken(model, Min(MAX_TOOL_ITERATIONS, cap - old(callCount)), turns[|old(turns)|])
      // and every request that got as far as loading is over
      ensures !res.NotInProgress? && !res.LimitReached? ==> |turns| > |old(turns)| && turns[|old(turns)|].Done?
    {
      if status != IN_PROGRESS {
        return NotInProgress;
      }
      var remaining := cap - callCount;
      if remaining <= 0 {
        return LimitReached;
      }
      var budget := Min(MAX_TOOL_ITERATIONS, remaining);
      var loaded, stored := version, conversation;
      ghost var t := |turns|;
      turns := turns + [Loaded(version, callCount, conversation)];
      Record(Load);

      Interlude(t);
      var reserved := ReserveBudget(loaded, budget, t);
      if reserved == 0 {
        return Conflict;
      }
      res := TalkReserved(userMessage, WellFormed(stored), budget, loaded + 1, model, ready, t);
    }
  }
}
