/** One onboarding session shared by concurrent chat requests and document uploads.

    A chat request loads the session, reserves a call budget by a conditional update that bumps the
    version, talks to the model, and writes the conversation back by an update conditional on the
    version it reserved. A request that loads after another has reserved is not refused: it reserves
    on top and fences the earlier one out of its final write. Uploads raise the call count without
    touching the version. */
module Onboarding {

  const MAX_TOOL_ITERATIONS := 5

  datatype Message = User(text: string) | Assistant(text: string) | Malformed

  datatype Status = IN_PROGRESS | READY_TO_FINALIZE | FINALIZED

  datatype Session = Session(version: nat, callCount: int, history: seq<Message>, status: Status)

  /** Where a chat request stands. Done keeps what it left charged and the model calls it made. */
  datatype Turn =
    | Loaded(version: nat, callCount: int, history: seq<Message>)
    | Talking(reserved: nat, budget: nat, used: nat, history: seq<Message>)
    | Failing(reserved: nat, budget: nat, used: nat)
    | Done(charge: nat, used: nat)

  /** uploads counts the reservations made by document uploads, commits the turns written back. */
  datatype State = State(cap: nat, session: Session, turns: seq<Turn>, uploads: nat, commits: nat)

  datatype Action =
    | Load
    | Reserve(turn: nat)
    | Call(turn: nat, ok: bool)
    | Write(turn: nat, user: string, reply: string, ready: bool)
    | Release(turn: nat)
    | Crash(turn: nat)
    | Upload
    | Finalize

  function Min(a: int, b: int): int {
    if a <= b then a else b
  }

  /** Stored rows that are not messages are skipped. */
  function WellFormed(history: seq<Message>): seq<Message> {
    if history == [] then [] else
      WellFormed(history[..|history| - 1])
      + if history[|history| - 1].Malformed? then [] else [history[|history| - 1]]
  }

  function Set(s: State, t: nat, turn: Turn): State
    requires t < |s.turns|
  {
    s.(turns := s.turns[t := turn])
  }

  function Apply(s: State, a: Action): State {
    var row := s.session;
    match a
    case Load =>
      if row.status != IN_PROGRESS || s.cap - row.callCount <= 0 then s
      else s.(turns := s.turns + [Loaded(row.version, row.callCount, row.history)])
    case Reserve(t) =>
      if t < |s.turns| && s.turns[t].Loaded?
      then
        var Loaded(version, count, history) := s.turns[t];
        var budget := Min(MAX_TOOL_ITERATIONS, s.cap - count);
        if row.version == version && row.status == IN_PROGRESS && budget > 0
        then Set(s, t, Talking(version + 1, budget, 0, WellFormed(history)))
             .(session := row.(version := row.version + 1, callCount := row.callCount + budget))
        else Set(s, t, Done(0, 0))
      else s
    case Call(t, ok) =>
      if t < |s.turns| && s.turns[t].Talking? && s.turns[t].used < s.turns[t].budget
      then
        var Talking(reserved, budget, used, history) := s.turns[t];
        if ok then Set(s, t, Talking(reserved, budget, used + 1, history))
        else Set(s, t, Failing(reserved, budget, used))
      else s
    case Write(t, user, reply, ready) =>
      if t < |s.turns| && s.turns[t].Talking? && s.turns[t].used > 0
      then
        var Talking(reserved, budget, used, history) := s.turns[t];
        if row.version == reserved
        then Set(s, t, Done(used, used))
             .(session := Session(row.version + 1, row.callCount - (budget - used),
                                  history + [User(user), Assistant(reply)],
                                  if ready then READY_TO_FINALIZE else row.status),
               commits := s.commits + 1)
        else Set(s, t, Done(budget, used))
      else s
    case Release(t) =>
      if t < |s.turns| && s.turns[t].Failing?
      then
        var Failing(reserved, budget, used) := s.turns[t];
        if row.version == reserved
        then Set(s, t, Done(used, used))
             .(session := row.(version := row.version + 1, callCount := row.callCount - (budget - used)))
        else Set(s, t, Done(budget, used))
      else s
    case Crash(t) =>
      if t < |s.turns| then Set(s, t, Done(Charge(s.turns[t]), Used(s.turns[t]))) else s
    case Upload =>
      if row.callCount < s.cap
      then s.(session := row.(callCount := row.callCount + 1), uploads := s.uploads + 1)
      else s
    case Finalize =>
      if row.status == READY_TO_FINALIZE
      then s.(session := row.(status := FINALIZED, version := row.version + 1))
      else s
  }

  const GREETING: Message := Assistant("greeting")

  function Start(cap: nat): State {
    State(cap, Session(0, 0, [GREETING], IN_PROGRESS), [], 0, 0)
  }

  /** Any interleaving of requests, uploads and the finalising step. */
  function Run(cap: nat, acts: seq<Action>): State {
    if acts == [] then Start(cap) else Apply(Run(cap, acts[..|acts| - 1]), acts[|acts| - 1])
  }

  // ---------------------------------------------------------------------------------------------
  // Accounting
  // ---------------------------------------------------------------------------------------------

  /** What a turn has put on the session's count and not taken back. */
  function Charge(turn: Turn): nat {
    match turn
    case Loaded(_, _, _) => 0
    case Talking(_, budget, _, _) => budget
    case Failing(_, budget, _) => budget
    case Done(charge, _) => charge
  }

  /** The model calls a turn made successfully. */
  function Used(turn: Turn): nat {
    match turn
    case Loaded(_, _, _) => 0
    case Talking(_, _, used, _) => used
    case Failing(_, _, used) => used
    case Done(_, used) => used
  }

  function Charges(turns: seq<Turn>): nat {
    if turns == [] then 0 else Charges(turns[..|turns| - 1]) + Charge(turns[|turns| - 1])
  }

  function CallsMade(turns: seq<Turn>): nat {
    if turns == [] then 0 else CallsMade(turns[..|turns| - 1]) + Used(turns[|turns| - 1])
  }

  lemma {:induction false} SumsAfterSet(turns: seq<Turn>, t: nat, turn: Turn)
    requires t < |turns|
    ensures Charges(turns[t := turn]) == Charges(turns) - Charge(turns[t]) + Charge(turn)
  {
    var front := turns[..|turns| - 1];
    if t < |front| {
      SumsAfterSet(front, t, turn);
      assert turns[t := turn][..|turns| - 1] == front[t := turn];
    } else {
      assert turns[t := turn][..|turns| - 1] == front;
    }
  }

  lemma {:induction false} CallsWithinCharges(turns: seq<Turn>)
    requires forall t | t in turns :: Used(t) <= Charge(t)
    ensures CallsMade(turns) <= Charges(turns)
  {
    if turns != [] {
      var front := turns[..|turns| - 1];
      assert turns[|turns| - 1] in turns && forall t | t in front :: t in turns;
      CallsWithinCharges(front);
    }
  }

  // ---------------------------------------------------------------------------------------------
  // The invariant
  // ---------------------------------------------------------------------------------------------

  ghost predicate Clean(history: seq<Message>) {
    forall m | m in history :: !m.Malformed?
  }

  lemma {:induction false} CleanIsKept(history: seq<Message>)
    requires Clean(history)
    ensures WellFormed(history) == history
  {
    if history != [] {
      var front := history[..|history| - 1];
      assert history[|history| - 1] in history && forall m | m in front :: m in history;
      CleanIsKept(front);
    }
  }

  lemma {:induction false} WellFormedOfConcat(xs: seq<Message>, ys: seq<Message>)
    ensures WellFormed(xs + ys) == WellFormed(xs) + WellFormed(ys)
  {
    if ys == [] {
      assert xs + ys == xs;
    } else {
      WellFormedOfConcat(xs, ys[..|ys| - 1]);
      assert (xs + ys)[..|xs + ys| - 1] == xs + ys[..|ys| - 1];
    }
  }

  lemma WellFormedOfOne(m: Message)
    ensures WellFormed([m]) == if m == Malformed then [] else [m]
  {
    assert [m][..0] == [];
  }

  /** A turn whose version is still current has seen every change but uploads. */
  ghost predicate TurnOk(s: State, turn: Turn) {
    match turn
    case Loaded(version, count, history) =>
      && version <= s.session.version && count < s.cap
      && (version == s.session.version ==>
            history == s.session.history && count <= s.session.callCount <= Min(s.cap, count + s.uploads))
    case Talking(reserved, budget, used, history) =>
      && reserved <= s.session.version && used <= budget <= MAX_TOOL_ITERATIONS
      && (reserved == s.session.version ==> history == s.session.history)
    case Failing(reserved, budget, used) =>
      reserved <= s.session.version && used <= budget <= MAX_TOOL_ITERATIONS
    case Done(charge, used) => used <= charge
  }

  ghost predicate Inv(s: State) {
    && Clean(s.session.history) && |s.session.history| == 1 + 2 * s.commits
    && s.session.callCount == Charges(s.turns) + s.uploads
    && s.session.callCount <= s.cap + Min(MAX_TOOL_ITERATIONS, s.uploads)
    && forall t | 0 <= t < |s.turns| :: TurnOk(s, s.turns[t])
  }

  lemma LoadKeeps(s: State)
    requires Inv(s)
    ensures Inv(Apply(s, Load))
  {
    var s' := Apply(s, Load);
    if s' != s {
      assert s'.turns[..|s.turns|] == s.turns;
    }
  }

  lemma ReserveKeeps(s: State, t: nat)
    requires Inv(s)
    ensures Inv(Apply(s, Reserve(t)))
  {
    var s' := Apply(s, Reserve(t));
    if s' != s {
      SumsAfterSet(s.turns, t, s'.turns[t]);
      assert TurnOk(s, s.turns[t]);
      CleanIsKept(s.session.history);
      forall k | 0 <= k < |s'.turns| ensures TurnOk(s', s'.turns[k]) {
        assert TurnOk(s, s.turns[k]);
      }
    }
  }

  lemma TurnStepKeeps(s: State, a: Action)
    requires Inv(s) && (a.Call? || a.Write? || a.Release? || a.Crash?)
    ensures Inv(Apply(s, a))
  {
    var s' := Apply(s, a);
    if s' != s {
      SumsAfterSet(s.turns, a.turn, s'.turns[a.turn]);
      assert TurnOk(s, s.turns[a.turn]);
      forall k | 0 <= k < |s'.turns| ensures TurnOk(s', s'.turns[k]) {
        assert TurnOk(s, s.turns[k]);
      }
    }
  }

  lemma RowStepKeeps(s: State, a: Action)
    requires Inv(s) && (a.Upload? || a.Finalize?)
    ensures Inv(Apply(s, a))
  {
    var s' := Apply(s, a);
    forall k | 0 <= k < |s'.turns| ensures TurnOk(s', s'.turns[k]) {
      assert TurnOk(s, s.turns[k]);
    }
  }

  lemma {:induction false} RunKeeps(cap: nat, acts: seq<Action>)
    ensures Inv(Run(cap, acts)) && Run(cap, acts).cap == cap
  {
    if acts != [] {
      var s, a := Run(cap, acts[..|acts| - 1]), acts[|acts| - 1];
      RunKeeps(cap, acts[..|acts| - 1]);
      match a
      case Load => LoadKeeps(s);
      case Reserve(t) => ReserveKeeps(s, t);
      case Upload => RowStepKeeps(s, a);
      case Finalize => RowStepKeeps(s, a);
      case _ => TurnStepKeeps(s, a);
    }
  }

  // ---------------------------------------------------------------------------------------------
  // What holds over whole runs
  // ---------------------------------------------------------------------------------------------

  /** Successful model calls never exceed the count, and the count exceeds the cap by at most one request's
      budget, and only by as many calls as uploads reserved. */
  lemma CallsStayWithinBudget(cap: nat, acts: seq<Action>)
    ensures var s := Run(cap, acts);
      && CallsMade(s.turns) + s.uploads <= s.session.callCount
      && s.session.callCount <= cap + Min(MAX_TOOL_ITERATIONS, s.uploads)
  {
    RunKeeps(cap, acts);
    var s := Run(cap, acts);
    forall t | t in s.turns ensures Used(t) <= Charge(t) {
      var k :| 0 <= k < |s.turns| && s.turns[k] == t;
      assert TurnOk(s, s.turns[k]);
    }
    CallsWithinCharges(s.turns);
  }

  lemma {:induction false} CallsAfterSet(turns: seq<Turn>, t: nat, turn: Turn)
    requires t < |turns|
    ensures CallsMade(turns[t := turn]) == CallsMade(turns) - Used(turns[t]) + Used(turn)
  {
    var front := turns[..|turns| - 1];
    if t < |front| {
      CallsAfterSet(front, t, turn);
      assert turns[t := turn][..|turns| - 1] == front[t := turn];
    } else {
      assert turns[t := turn][..|turns| - 1] == front;
    }
  }

  /** The calls made are the successful calls of the run: no other step adds one or takes one back. */
  lemma CallsAreCounted(s: State, a: Action)
    ensures CallsMade(Apply(s, a).turns) == CallsMade(s.turns) +
      if a.Call? && a.ok && a.turn < |s.turns| && s.turns[a.turn].Talking?
         && s.turns[a.turn].used < s.turns[a.turn].budget
      then 1 else 0
  {
    var s' := Apply(s, a);
    if a.Load? && s' != s {
      assert s'.turns[..|s.turns|] == s.turns;
    } else if |s'.turns| == |s.turns| && !a.Load? && !a.Upload? && !a.Finalize? && a.turn < |s.turns| {
      CallsAfterSet(s.turns, a.turn, s'.turns[a.turn]);
      assert s'.turns == s.turns[a.turn := s'.turns[a.turn]];
    }
  }

  lemma {:induction false} ChatAloneNoUploads(cap: nat, acts: seq<Action>)
    requires Upload !in acts
    ensures Run(cap, acts).uploads == 0
  {
    if acts != [] {
      assert acts[|acts| - 1] in acts && forall a | a in acts[..|acts| - 1] :: a in acts;
      ChatAloneNoUploads(cap, acts[..|acts| - 1]);
    }
  }

  /** With chat requests alone the cap is never exceeded. */
  lemma ChatAloneRespectsCap(cap: nat, acts: seq<Action>)
    requires Upload !in acts
    ensures Run(cap, acts).session.callCount <= cap
  {
    ChatAloneNoUploads(cap, acts);
    RunKeeps(cap, acts);
  }

  lemma RunOneMore(cap: nat, acts: seq<Action>, a: Action)
    ensures Run(cap, acts + [a]) == Apply(Run(cap, acts), a)
  {
    assert (acts + [a])[..|acts|] == acts;
  }

  lemma RunLast(cap: nat, acts: seq<Action>, more: seq<Action>)
    requires more != []
    ensures Run(cap, acts + more) == Apply(Run(cap, acts + more[..|more| - 1]), more[|more| - 1])
  {
    RunOneMore(cap, acts + more[..|more| - 1], more[|more| - 1]);
    assert acts + more == acts + more[..|more| - 1] + [more[|more| - 1]];
  }

  /** A reservation that leaves the count above the cap: uploads have used up the slack since the request
      loaded. */
  predicate Overcharges(s: State, a: Action) {
    a.Reserve? && a.turn < |s.turns| && s.turns[a.turn].Loaded? && s.session.status == IN_PROGRESS
    && s.session.version == s.turns[a.turn].version && s.turns[a.turn].callCount < s.cap
    && s.session.callCount + Min(MAX_TOOL_ITERATIONS, s.cap - s.turns[a.turn].callCount) > s.cap
  }

  lemma StepExceedsExactlyWhen(s: State, a: Action)
    requires Inv(s) && s.session.callCount <= s.cap
    ensures Apply(s, a).session.callCount > s.cap <==> Overcharges(s, a)
  {
    if (a.Write? || a.Release?) && a.turn < |s.turns| {
      assert TurnOk(s, s.turns[a.turn]);
    }
  }

  ghost predicate EverExceeds(cap: nat, acts: seq<Action>) {
    exists k | 0 <= k <= |acts| :: Run(cap, acts[..k]).session.callCount > cap
  }

  ghost predicate EverOvercharges(cap: nat, acts: seq<Action>) {
    exists k | 0 <= k < |acts| :: Overcharges(Run(cap, acts[..k]), acts[k])
  }

  lemma OverchargeExceeds(cap: nat, acts: seq<Action>, k: nat)
    requires k < |acts| && Overcharges(Run(cap, acts[..k]), acts[k])
    ensures Run(cap, acts[..k + 1]).session.callCount > cap
  {
    RunKeeps(cap, acts[..k]);
    RunOneMore(cap, acts[..k], acts[k]);
    assert acts[..k + 1] == acts[..k] + [acts[k]];
  }

  lemma {:induction false} ExceedsByOvercharge(cap: nat, acts: seq<Action>, n: nat)
    requires n <= |acts| && Run(cap, acts[..n]).session.callCount > cap
    ensures EverOvercharges(cap, acts)
    decreases n
  {
    if n > 0 {
      var k := n - 1;
      RunKeeps(cap, acts[..k]);
      RunOneMore(cap, acts[..k], acts[k]);
      assert acts[..n] == acts[..k] + [acts[k]];
      if Run(cap, acts[..k]).session.callCount > cap {
        ExceedsByOvercharge(cap, acts, k);
      } else {
        StepExceedsExactlyWhen(Run(cap, acts[..k]), acts[k]);
        assert Overcharges(Run(cap, acts[..k]), acts[k]);
      }
    }
  }

  /** Over a run the count exceeds the cap exactly when some reservation takes more than is left by then. */
  lemma CapIsExceededExactlyWhen(cap: nat, acts: seq<Action>)
    ensures EverExceeds(cap, acts) <==> EverOvercharges(cap, acts)
  {
    if k :| 0 <= k < |acts| && Overcharges(Run(cap, acts[..k]), acts[k]) {
      OverchargeExceeds(cap, acts, k);
      var n := k + 1;
      assert Run(cap, acts[..n]).session.callCount > cap;
    }
    if n :| 0 <= n <= |acts| && Run(cap, acts[..n]).session.callCount > cap {
      ExceedsByOvercharge(cap, acts, n);
    }
  }

  /** The excess of a whole budget does happen: five uploads between loading and reserving. */
  lemma CapExcessIsReached()
    ensures var acts := [Load, Upload, Upload, Upload, Upload, Upload, Reserve(0)];
      Run(5, acts).session.callCount == 10
  {
    var acts := [Load, Upload, Upload, Upload, Upload, Upload, Reserve(0)];
    assert acts[..1] == [Load] && Run(5, acts[..1]) == Apply(Run(5, []), Load);
    for k := 1 to 6
      invariant var s := Run(5, acts[..k]);
        s.cap == 5 && s.session == Session(0, k - 1, [GREETING], IN_PROGRESS) && s.turns == [Loaded(0, 0, [GREETING])]
    {
      assert acts[..k + 1] == acts[..k] + [Upload];
      RunOneMore(5, acts[..k], Upload);
    }
    assert acts == acts[..6] + [Reserve(0)];
    RunOneMore(5, acts[..6], Reserve(0));
  }

  /** Every committed conversation is the one before it plus exactly the user's and the assistant's message. */
  lemma CommitAppendsOneExchange(cap: nat, acts: seq<Action>, t: nat, user: string, reply: string, ready: bool)
    ensures var s := Run(cap, acts);
      var s' := Apply(s, Write(t, user, reply, ready));
      if s'.commits == s.commits then s'.session == s.session
      else s'.session.history == s.session.history + [User(user), Assistant(reply)] && s'.commits == s.commits + 1
           && t < |s.turns| && Used(s.turns[t]) > 0
  {
    RunKeeps(cap, acts);
    var s := Run(cap, acts);
    if t < |s.turns| {
      assert TurnOk(s, s.turns[t]);
    }
  }

  lemma StepKeepsConversation(s: State, a: Action)
    requires Inv(s)
    ensures s.session.history <= Apply(s, a).session.history && s.session.version <= Apply(s, a).session.version
    ensures a.Write? || Apply(s, a).session.history == s.session.history
  {
    if a.Write? && a.turn < |s.turns| {
      assert TurnOk(s, s.turns[a.turn]);
    }
  }

  lemma LastStepKeepsConversation(cap: nat, acts: seq<Action>, more: seq<Action>)
    requires more != []
    ensures var s, s' := Run(cap, acts + more[..|more| - 1]), Run(cap, acts + more);
      s.session.history <= s'.session.history && s.session.version <= s'.session.version
  {
    var front, last := more[..|more| - 1], more[|more| - 1];
    RunKeeps(cap, acts + front);
    StepKeepsConversation(Run(cap, acts + front), last);
    RunLast(cap, acts, more);
  }

  /** No committed exchange is ever lost or altered, whoever fences whom. */
  lemma {:induction false} ConversationOnlyGrows(cap: nat, acts: seq<Action>, more: seq<Action>)
    ensures Run(cap, acts).session.history <= Run(cap, acts + more).session.history
    ensures Run(cap, acts).session.version <= Run(cap, acts + more).session.version
  {
    if more == [] {
      assert acts + more == acts;
    } else {
      ConversationOnlyGrows(cap, acts, more[..|more| - 1]);
      LastStepKeepsConversation(cap, acts, more);
    }
  }

  /** One exchange per commit: the conversation is the greeting plus two messages for each. */
  lemma TwoMessagesPerCommit(cap: nat, acts: seq<Action>)
    ensures |Run(cap, acts).session.history| == 1 + 2 * Run(cap, acts).commits
    ensures [GREETING] <= Run(cap, acts).session.history
  {
    RunKeeps(cap, acts);
    ConversationOnlyGrows(cap, [], acts);
    assert [] + acts == acts;
  }

  ghost predicate SameVersion(before: State, after: State, t: nat)
    requires t < |before.turns|
  {
    && t < |after.turns| && !after.turns[t].Loaded?
    && (after.turns[t].Talking? ==> before.turns[t].Talking? && after.turns[t].reserved == before.turns[t].reserved)
  }

  lemma StepFixesTurnVersion(s: State, a: Action, t: nat)
    requires t < |s.turns| && !s.turns[t].Loaded?
    ensures SameVersion(s, Apply(s, a), t)
  {
  }

  lemma {:induction false} TurnVersionIsFixed(cap: nat, acts: seq<Action>, more: seq<Action>, t: nat)
    requires t < |Run(cap, acts).turns| && !Run(cap, acts).turns[t].Loaded?
    ensures SameVersion(Run(cap, acts), Run(cap, acts + more), t)
  {
    if more == [] {
      assert acts + more == acts;
    } else {
      var front, last := more[..|more| - 1], more[|more| - 1];
      TurnVersionIsFixed(cap, acts, front, t);
      StepFixesTurnVersion(Run(cap, acts + front), last, t);
      RunLast(cap, acts, more);
    }
  }

  /** Once a later request has moved the version on, the earlier one can never write. */
  lemma FencedForGood(cap: nat, acts: seq<Action>, more: seq<Action>, t: nat, user: string, reply: string, ready: bool)
    requires t < |Run(cap, acts).turns| && Run(cap, acts).turns[t].Talking?
    requires Run(cap, acts).turns[t].reserved < Run(cap, acts).session.version
    ensures var s := Run(cap, acts + more); Apply(s, Write(t, user, reply, ready)).session == s.session
  {
    TurnVersionIsFixed(cap, acts, more, t);
    ConversationOnlyGrows(cap, acts, more);
  }

  /** Whoever is talking, a request that loads a session in progress below its cap is not refused: undisturbed
      it reserves as well, and fences out every request that was talking. */
  lemma LaterRequestIsNotRefused(cap: nat, acts: seq<Action>)
    requires Run(cap, acts).session.status == IN_PROGRESS && Run(cap, acts).session.callCount < cap
    ensures var s, r := Run(cap, acts + [Load] + [Reserve(|Run(cap, acts).turns|)]), |Run(cap, acts).turns|;
      && |s.turns| == r + 1 && s.turns[r].Talking? && s.turns[r].reserved == s.session.version
      && (forall t | 0 <= t < r :: s.turns[t] == Run(cap, acts).turns[t])
      && (forall t | 0 <= t < r && s.turns[t].Talking? :: s.turns[t].reserved < s.session.version)
  {
    var s := Run(cap, acts);
    var r := |s.turns|;
    RunKeeps(cap, acts);
    RunOneMore(cap, acts, Load);
    var loaded := Run(cap, acts + [Load]);
    assert loaded.turns == s.turns + [Loaded(s.session.version, s.session.callCount, s.session.history)];
    RunOneMore(cap, acts + [Load], Reserve(r));
    forall t | 0 <= t < r && s.turns[t].Talking? ensures s.turns[t].reserved <= s.session.version {
      assert TurnOk(s, s.turns[t]);
    }
  }

  predicate Unfenced(s: State, t: nat)
    requires t < |s.turns|
  {
    match s.turns[t]
    case Talking(reserved, _, _, _) => reserved == s.session.version
    case Failing(reserved, _, _) => reserved == s.session.version
    case _ => false
  }

  ghost predicate OneUnfenced(s: State) {
    forall j, k | 0 <= j < |s.turns| && 0 <= k < |s.turns| && Unfenced(s, j) && Unfenced(s, k) :: j == k
  }

  lemma StepKeepsOneUnfenced(s: State, a: Action)
    requires Inv(s) && OneUnfenced(s)
    ensures OneUnfenced(Apply(s, a))
  {
    var s' := Apply(s, a);
    forall j | 0 <= j < |s'.turns| && Unfenced(s', j)
      ensures (j < |s.turns| && Unfenced(s, j) && s'.session.version == s.session.version) || a == Reserve(j)
    {
      assert j < |s.turns| ==> TurnOk(s, s.turns[j]);
    }
  }

  /** At most one request can still write or give back: the one that reserved last. */
  lemma {:induction false} OneRequestCanWrite(cap: nat, acts: seq<Action>)
    ensures OneUnfenced(Run(cap, acts))
  {
    if acts != [] {
      OneRequestCanWrite(cap, acts[..|acts| - 1]);
      RunKeeps(cap, acts[..|acts| - 1]);
      StepKeepsOneUnfenced(Run(cap, acts[..|acts| - 1]), acts[|acts| - 1]);
    }
  }

  /** A finalised session that no request in flight can touch. */
  ghost predicate Closed(s: State) {
    s.session.status == FINALIZED && forall t | 0 <= t < |s.turns| :: !Unfenced(s, t)
  }

  lemma StepKeepsClosed(s: State, a: Action)
    requires Closed(s)
    ensures Closed(Apply(s, a))
    ensures Apply(s, a).session == s.session.(callCount := Apply(s, a).session.callCount)
  {
    var s' := Apply(s, a);
    assert !a.Load? && !a.Upload? && !a.Finalize? && a.turn < |s.turns| ==> !Unfenced(s, a.turn);
    forall t | 0 <= t < |s'.turns| ensures !Unfenced(s', t) {
      assert t < |s.turns| ==> !Unfenced(s, t);
    }
  }

  lemma StepCloses(s: State, a: Action)
    requires Inv(s) && s.session.status != FINALIZED && Apply(s, a).session.status == FINALIZED
    ensures Closed(Apply(s, a)) && s.session.status == READY_TO_FINALIZE
  {
    forall t | 0 <= t < |s.turns| ensures !Unfenced(Apply(s, a), t) {
      assert TurnOk(s, s.turns[t]);
    }
  }

  lemma {:induction false} FinalizedIsClosed(cap: nat, acts: seq<Action>)
    requires Run(cap, acts).session.status == FINALIZED
    ensures Closed(Run(cap, acts))
  {
    if acts != [] {
      var front, a := acts[..|acts| - 1], acts[|acts| - 1];
      RunKeeps(cap, front);
      if Run(cap, front).session.status == FINALIZED {
        FinalizedIsClosed(cap, front);
        StepKeepsClosed(Run(cap, front), a);
      } else {
        StepCloses(Run(cap, front), a);
      }
    }
  }

  /** Finalising ends the talk: whatever is still in flight, conversation, version and status stay for good. */
  lemma {:induction false} FinalizedForGood(cap: nat, acts: seq<Action>, more: seq<Action>)
    requires Run(cap, acts).session.status == FINALIZED
    ensures var before, after := Run(cap, acts).session, Run(cap, acts + more).session;
      after == before.(callCount := after.callCount)
  {
    if more == [] {
      assert acts + more == acts;
    } else {
      var front, last := more[..|more| - 1], more[|more| - 1];
      FinalizedForGood(cap, acts, front);
      FinalizedIsClosed(cap, acts + front);
      StepKeepsClosed(Run(cap, acts + front), last);
      RunLast(cap, acts, more);
    }
  }
}
