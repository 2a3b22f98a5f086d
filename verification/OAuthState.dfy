/** One-shot OAuth states: a signed, expiring token is accepted once, by remembering its id until a minute
    after its expiry and sweeping older ids. Clock readings are milliseconds and never go back. A call runs
    to its end before the next one starts, but time passes between its four readings of the clock. */
module OAuthState {
  import opened Prelude

  const STATE_TTL_SECONDS := 600
  const GRACE_MS := 60_000

  /** What a token signed with the right secret, audience and issuer claims; expiry is in seconds. */
  datatype Claims = Claims(purposeOk: bool, nonceHash: string, exp: Option<nat>)

  /** The readings of one call: in the verification, for the time to live, in the sweep, for the entry. */
  datatype Clock = Clock(verify: nat, ttl: nat, sweep: nat, store: nat)

  /** signed holds the tokens signed so far by id, accepted the ids accepted so far in order. */
  datatype State = State(signed: map<string, Claims>, consumed: map<string, int>, accepted: seq<string>, now: nat)

  datatype Action =
    | Issue(jti: string, nonceHash: string, at: nat)
    | Sign(jti: string, claims: Claims)   // signed elsewhere with the same secret
    | Present(jti: string, cookieHash: Option<string>, clock: Clock)

  function Max(a: int, b: int): int {
    if a >= b then a else b
  }

  predicate Ticks(s: State, c: Clock) {
    s.now <= c.verify && Ordered(c)
  }

  /** The signature checks, and the clock in whole seconds is still before the expiry. */
  predicate Verifies(s: State, jti: string, at: nat) {
    jti in s.signed && (s.signed[jti].exp.Some? ==> at / 1000 < s.signed[jti].exp.value)
  }

  function TtlMs(claims: Claims, at: nat): nat {
    if claims.exp.Some? && claims.exp.value != 0 then Max(claims.exp.value * 1000 - at, 0) else STATE_TTL_SECONDS * 1000
  }

  function Swept(consumed: map<string, int>, now: int): map<string, int> {
    map j | j in consumed && consumed[j] > now :: consumed[j]
  }

  /** The checks before the id is consumed. */
  predicate Admits(s: State, jti: string, cookieHash: Option<string>, at: nat) {
    cookieHash.Some? && Verifies(s, jti, at) && s.signed[jti].purposeOk && jti != ""
    && s.signed[jti].nonceHash == cookieHash.value
  }

  function Apply(s: State, a: Action): State {
    match a
    case Issue(jti, nonceHash, at) =>
      if jti in s.signed || at < s.now then s
      else s.(signed := s.signed[jti := Claims(true, nonceHash, Some(at / 1000 + STATE_TTL_SECONDS))], now := at)
    case Sign(jti, claims) =>
      if jti in s.signed then s else s.(signed := s.signed[jti := claims])
    case Present(jti, cookieHash, c) =>
      if !Ticks(s, c) then s
      else if !Admits(s, jti, cookieHash, c.verify) then s.(now := c.store)
      else
        var left := Swept(s.consumed, c.sweep);
        if jti in left then s.(consumed := left, now := c.store)
        else s.(consumed := left[jti := c.store + TtlMs(s.signed[jti], c.ttl) + GRACE_MS],
                accepted := s.accepted + [jti], now := c.store)
  }

  function Run(acts: seq<Action>): State {
    if acts == [] then State(map[], map[], [], 0) else Apply(Run(acts[..|acts| - 1]), acts[|acts| - 1])
  }

  lemma RunOneMore(acts: seq<Action>, a: Action)
    ensures Run(acts + [a]) == Apply(Run(acts), a)
  {
    assert (acts + [a])[..|acts|] == acts;
  }

  // ---------------------------------------------------------------------------------------------
  // Accepted once
  // ---------------------------------------------------------------------------------------------

  /** An accepted id that expires is remembered, or the clock is a minute past its expiry. */
  ghost predicate Remembered(s: State, jti: string) {
    jti in s.signed && (s.signed[jti].exp.Some? ==>
      if jti in s.consumed then s.consumed[jti] >= s.signed[jti].exp.value * 1000 + GRACE_MS
      else s.now >= s.signed[jti].exp.value * 1000 + GRACE_MS)
  }

  ghost predicate Inv(s: State) {
    && (forall j | j in s.accepted :: Remembered(s, j))
    && forall j | j in s.consumed :: j in s.accepted
  }

  lemma StepKeeps(s: State, a: Action)
    requires Inv(s)
    ensures Inv(Apply(s, a))
  {
    var s' := Apply(s, a);
    forall j | j in s'.accepted ensures Remembered(s', j) {
      assert j in s.accepted ==> Remembered(s, j);
    }
  }

  lemma {:induction false} RunKeeps(acts: seq<Action>)
    ensures Inv(Run(acts))
  {
    if acts != [] {
      RunKeeps(acts[..|acts| - 1]);
      StepKeeps(Run(acts[..|acts| - 1]), acts[|acts| - 1]);
    }
  }

  predicate Ordered(c: Clock) {
    c.verify <= c.ttl <= c.sweep <= c.store
  }

  /** The sweep comes before the grace period after the end of the second of the verification: a token that
      still verifies expires no earlier than at the end of that second. */
  predicate Prompt(c: Clock) {
    c.sweep < (c.verify / 1000 + 1) * 1000 + GRACE_MS
  }

  /** In a prompt call, a token that expires is accepted exactly when it passes the checks and has not been
      accepted before, however many sweeps have run since. */
  lemma AcceptedExactlyWhenFresh(acts: seq<Action>, jti: string, cookieHash: Option<string>, c: Clock)
    requires jti in Run(acts).signed && Run(acts).signed[jti].exp.Some?
    requires Ticks(Run(acts), c) && Prompt(c)
    ensures var s := Run(acts); var s' := Apply(s, Present(jti, cookieHash, c));
      s'.accepted ==
      s.accepted + if Admits(s, jti, cookieHash, c.verify) && jti !in s.accepted then [jti] else []
  {
    RunKeeps(acts);
    var s := Run(acts);
    assert jti in s.accepted ==> Remembered(s, jti);
  }

  /** At a reading of the clock: a token of this id is signed, and its second of expiry has not come. */
  predicate Alive(signed: map<string, Claims>, jti: string, at: nat) {
    jti in signed && (signed[jti].exp == None || at < signed[jti].exp.value * 1000)
  }

  /** What passes the checks: a live token with an id and the right purpose, shown by the browser whose cookie
      it was issued with. */
  lemma AdmitsIs(s: State, jti: string, cookieHash: Option<string>, at: nat)
    ensures Admits(s, jti, cookieHash, at) <==>
      Alive(s.signed, jti, at) && s.signed[jti].purposeOk && jti != "" && cookieHash == Some(s.signed[jti].nonceHash)
  {
  }

  ghost predicate PromptAction(a: Action) {
    a.Present? ==> Prompt(a.clock)
  }

  lemma SignedStays(s: State, a: Action, jti: string)
    requires jti in s.signed
    ensures jti in Apply(s, a).signed && Apply(s, a).signed[jti] == s.signed[jti]
  {
  }

  /** Over any run of prompt calls no id that expires is accepted twice. */
  lemma {:induction false} AcceptedAtMostOnce(acts: seq<Action>, j: nat, k: nat)
    requires forall a | a in acts :: PromptAction(a)
    requires j < k < |Run(acts).accepted| && Run(acts).accepted[j] == Run(acts).accepted[k]
    ensures Run(acts).accepted[j] in Run(acts).signed
    ensures Run(acts).signed[Run(acts).accepted[j]].exp == None
  {
    RunKeeps(acts);
    assert Remembered(Run(acts), Run(acts).accepted[j]);
    if acts != [] {
      var front, a := acts[..|acts| - 1], acts[|acts| - 1];
      var s := Run(front);
      assert a in acts && forall b | b in front :: b in acts;
      if k < |s.accepted| {
        AcceptedAtMostOnce(front, j, k);
        SignedStays(s, a, s.accepted[j]);
      } else {
        assert a.Present? && k == |s.accepted| && a.jti == s.accepted[j];
        if s.signed[a.jti].exp.Some? {
          AcceptedExactlyWhenFresh(front, a.jti, a.cookieHash, a.clock);
        }
      }
    }
  }

  /** Without an expiry the memory of the id runs out after eleven minutes, and the same state is accepted
      again. Issue signs no such token; it takes another holder of the secret to sign one. */
  lemma UnexpiringIsAcceptedTwice(jti: string, nonceHash: string, c: Clock)
    requires jti != "" && Ordered(c)
    ensures var acts := [Sign(jti, Claims(true, nonceHash, None)),
                         Present(jti, Some(nonceHash), Clock(0, 0, 0, 0)),
                         Present(jti, Some(nonceHash), c)];
      Run(acts).accepted == if c.sweep >= 660_000 then [jti, jti] else [jti]
  {
    var sign := Sign(jti, Claims(true, nonceHash, None));
    var first := Present(jti, Some(nonceHash), Clock(0, 0, 0, 0));
    var second := Present(jti, Some(nonceHash), c);
    RunOneMore([], sign);
    RunOneMore([sign], first);
    RunOneMore([sign, first], second);
    assert [] + [sign] == [sign] && [sign] + [first] == [sign, first];
    assert [sign, first] + [second] == [sign, first, second];
  }

  /** Whatever has happened before, a call at this clock accepts no id that expires a second time. */
  ghost predicate RefusesUsed(c: Clock) {
    forall acts, jti, cookieHash |
      Ticks(Run(acts), c) && jti in Run(acts).accepted && jti in Run(acts).signed && Run(acts).signed[jti].exp.Some? ::
      Apply(Run(acts), Present(jti, cookieHash, c)).accepted == Run(acts).accepted
  }

  /** At a late clock a token that expires at the end of the second of the verification, accepted long before,
      is accepted again. */
  lemma LateCallAcceptsTwice(jti: string, nonceHash: string, c: Clock)
    requires jti != "" && Ordered(c) && !Prompt(c)
    ensures var acts := [Sign(jti, Claims(true, nonceHash, Some(c.verify / 1000 + 1))),
                         Present(jti, Some(nonceHash), Clock(0, 0, 0, 0))];
      && Run(acts).accepted == [jti] && Ticks(Run(acts), c)
      && jti in Run(acts).signed && Run(acts).signed[jti].exp.Some?
      && Run(acts + [Present(jti, Some(nonceHash), c)]).accepted == [jti, jti]
  {
    var sign := Sign(jti, Claims(true, nonceHash, Some(c.verify / 1000 + 1)));
    var first := Present(jti, Some(nonceHash), Clock(0, 0, 0, 0));
    RunOneMore([], sign);
    RunOneMore([sign], first);
    RunOneMore([sign, first], Present(jti, Some(nonceHash), c));
    assert [] + [sign] == [sign] && [sign] + [first] == [sign, first];
  }

  /** A call refuses every used id that expires exactly when it is prompt. */
  lemma RefusesUsedExactlyWhenPrompt(c: Clock)
    requires Ordered(c)
    ensures RefusesUsed(c) <==> Prompt(c)
  {
    if Prompt(c) {
      forall acts, jti, cookieHash |
        Ticks(Run(acts), c) && jti in Run(acts).accepted && jti in Run(acts).signed && Run(acts).signed[jti].exp.Some?
        ensures Apply(Run(acts), Present(jti, cookieHash, c)).accepted == Run(acts).accepted
      {
        AcceptedExactlyWhenFresh(acts, jti, cookieHash, c);
      }
    } else {
      LateCallAcceptsTwice("id", "", c);
      var acts := [Sign("id", Claims(true, "", Some(c.verify / 1000 + 1))), Present("id", Some(""), Clock(0, 0, 0, 0))];
      RunOneMore(acts, Present("id", Some(""), c));
    }
  }

  /** A late call accepts a used state of this service's own making as well. */
  lemma StalledCallAcceptsTwice(jti: string, nonceHash: string, c: Clock)
    requires jti != "" && Ordered(c) && !Prompt(c) && c.verify / 1000 + 1 >= STATE_TTL_SECONDS
    ensures var at := (c.verify / 1000 + 1 - STATE_TTL_SECONDS) * 1000;
      var acts := [Issue(jti, nonceHash, at),
                   Present(jti, Some(nonceHash), Clock(at, at, at, at)),
                   Present(jti, Some(nonceHash), c)];
      Run(acts).accepted == [jti, jti]
  {
    var at := (c.verify / 1000 + 1 - STATE_TTL_SECONDS) * 1000;
    var issue := Issue(jti, nonceHash, at);
    var first := Present(jti, Some(nonceHash), Clock(at, at, at, at));
    var second := Present(jti, Some(nonceHash), c);
    RunOneMore([], issue);
    RunOneMore([issue], first);
    RunOneMore([issue, first], second);
    assert [] + [issue] == [issue] && [issue] + [first] == [issue, first];
    assert [issue, first] + [second] == [issue, first, second];
  }

  // ---------------------------------------------------------------------------------------------
  // The store
  // ---------------------------------------------------------------------------------------------

  datatype Outcome =
    | Accepted(claims: Claims)
    | MissingCookie
    | Unverified
    | WrongPurpose
    | NoId
    | WrongBrowser
    | AlreadyUsed

  class StateService {
    var consumed: map<string, int>
    var signed: map<string, Claims>
    ghost var accepted: seq<string>
    ghost var now: nat
    ghost var schedule: seq<Action>

    ghost function View(): State
      reads this
    {
      State(signed, consumed, accepted, now)
    }

    ghost predicate Valid()
      reads this
    {
      View() == Run(schedule)
    }

    constructor ()
      ensures Valid() && schedule == []
    {
      consumed, signed, accepted, now, schedule := map[], map[], [], 0, [];
    }

    ghost method Record(a: Action)
      requires View() == Apply(Run(schedule), a)
      modifies this`schedule
      ensures Valid() && schedule == old(schedule) + [a]
    {
      RunOneMore(schedule, a);
      schedule := schedule + [a];
    }

    method Sweep(at: nat)
      modifies this`consumed
      ensures consumed == Swept(old(consumed), at)
    {
      var left := consumed.Keys;
      while left != {}
        invariant left <= old(consumed).Keys && consumed.Keys <= old(consumed).Keys
        invariant forall j | j in left :: j in consumed
        invariant forall j | j in consumed :: consumed[j] == old(consumed)[j]
        invariant forall j | j in old(consumed).Keys - left :: j in consumed <==> old(consumed)[j] > at
        decreases left
      {
        var j :| j in left;
        if consumed[j] <= at {
          consumed := consumed - {j};
        }
        left := left - {j};
      }
    }

    method Consume(jti: string, ttlMs: nat, sweepAt: nat, storeAt: nat) returns (isNew: bool)
      modifies this`consumed
      ensures isNew <==> jti !in Swept(old(consumed), sweepAt)
      ensures !isNew ==> consumed == Swept(old(consumed), sweepAt)
      ensures isNew ==> consumed == Swept(old(consumed), sweepAt)[jti := storeAt + ttlMs]
    {
      Sweep(sweepAt);
      if jti in consumed {
        return false;
      }
      consumed := consumed[jti := storeAt + ttlMs];
      return true;
    }

    /** A fresh random id. */
    method Issue(jti: string, nonceHash: string, at: nat)
      requires Valid() && jti !in signed && now <= at
      modifies this
      ensures Valid() && now == at && accepted == old(accepted) && consumed == old(consumed)
      ensures signed == old(signed)[jti := Claims(true, nonceHash, Some(at / 1000 + 600))]
    {
      signed := signed[jti := Claims(true, nonceHash, Some(at / 1000 + STATE_TTL_SECONDS))];
      now := at;
      Record(Action.Issue(jti, nonceHash, at));
    }

    method VerifyAndConsume(jti: string, cookieHash: Option<string>, c: Clock) returns (res: Outcome)
      requires Valid() && Ticks(View(), c)
      modifies this
      ensures Valid() && signed == old(signed) && now == c.store
      ensures accepted == if res.Accepted? then old(accepted) + [jti] else old(accepted)
      ensures res.Accepted? ==> Admits(old(View()), jti, cookieHash, c.verify) && res.claims == signed[jti]
      ensures res.AlreadyUsed? ==> Admits(old(View()), jti, cookieHash, c.verify) && jti in old(accepted)
      ensures Admits(old(View()), jti, cookieHash, c.verify) <==> res.Accepted? || res.AlreadyUsed?
      // each refusal says why, the first check that fails deciding
      ensures res == MissingCookie <==> cookieHash == None
      ensures res == Unverified <==> cookieHash != None && !Alive(signed, jti, c.verify)
      ensures res == WrongPurpose <==> cookieHash != None && Alive(signed, jti, c.verify) && !signed[jti].purposeOk
      ensures res == NoId <==> cookieHash != None && Alive(signed, jti, c.verify) && signed[jti].purposeOk && jti == ""
      ensures res == WrongBrowser <==>
        && cookieHash != None && Alive(signed, jti, c.verify) && signed[jti].purposeOk && jti != ""
        && cookieHash != Some(signed[jti].nonceHash)
      // once only, for a state that expires and a prompt call
      ensures res.Accepted? && signed[jti].exp.Some? && Prompt(c) ==> jti !in old(accepted)
    {
      ghost var before := View();
      ghost var acts := schedule;
      RunKeeps(acts);
      AdmitsIs(before, jti, cookieHash, c.verify);
      if jti in signed && signed[jti].exp.Some? && Prompt(c) {
        AcceptedExactlyWhenFresh(acts, jti, cookieHash, c);
      }
      if cookieHash.None? {
        res := MissingCookie;
      } else if jti !in signed || (signed[jti].exp.Some? && c.verify / 1000 >= signed[jti].exp.value) {
        res := Unverified;
      } else if !signed[jti].purposeOk {
        res := WrongPurpose;
      } else if jti == "" {
        res := NoId;
      } else if signed[jti].nonceHash != cookieHash.value {
        res := WrongBrowser;
      } else {
        var ttlMs := TtlMs(signed[jti], c.ttl);
        var isNew := Consume(jti, ttlMs + GRACE_MS, c.sweep, c.store);
        if isNew {
          accepted := accepted + [jti];
          res := Accepted(signed[jti]);
        } else {
          res := AlreadyUsed;
        }
      }
      now := c.store;
      assert View() == Apply(before, Present(jti, cookieHash, c));
      Record(Present(jti, cookieHash, c));
    }
  }
}
