/** The `request_access` handler as it is written, tied to the steps of the protocol. */
module Handler {
  import opened Common
  import opened Sessions
  import opened Policy
  import opened Access

  // The clock reads of one request, and the identifier its token would get.
  datatype Moment = Moment(sessionAt: Instant, evaluatedAt: Instant, timestamp: Instant, countedAt: Instant,
                           jti: string)

  // The request's own steps from each point on, with nothing in between. A step that is not enabled is skipped.
  function FromSession(st: State, id: nat, principal: Option<Uuid>, m: Moment): State {
    FromAgent(Step(st, ReadSession(id, principal, m.sessionAt)), id, m)
  }

  function FromAgent(st: State, id: nat, m: Moment): State {
    FromRule(Step(st, CheckAgent(id)), id, m)
  }

  function FromRule(st: State, id: nat, m: Moment): State {
    FromWrite(Step(Step(st, CheckRule(id)), CheckLimit(id, m.evaluatedAt)), id, m)
  }

  function FromWrite(st: State, id: nat, m: Moment): State {
    FromCount(Step(st, Write(id, m.jti)), id, m)
  }

  function FromCount(st: State, id: nat, m: Moment): State {
    Step(Step(st, Count(id, m.timestamp, m.countedAt)), WriteAudit(id))
  }

  lemma ReturnedStays(st: State, id: nat, principal: Option<Uuid>, m: Moment)
    requires At(st, id) && st.requests[id].phase.Returned?
    ensures FromSession(st, id, principal, m) == FromAgent(st, id, m) == FromRule(st, id, m) == st
  {
  }

  // One request, at a phase.
  function One(ctx: PolicyContext, phase: Phase): map<nat, Request>
    requires ctx.sessionId.Some?
  {
    map[0 := Request(ctx, ctx.sessionId.value, phase)]
  }

  // Where an evaluation leaves its request.
  function Decided(eval: PolicyEvaluation): Phase {
    if eval.decision == Deny then Written(eval, None) else Writing(eval)
  }

  // ── Each step of a lone request, by what it changes ───────────────

  lemma SessionStep(st: State, ctx: PolicyContext, principal: Option<Uuid>, now: Instant)
    requires ctx.sessionId.Some? && st.requests == One(ctx, Arrived)
    ensures var store := WithSession(st.store, ctx.sessionId.value, ctx.agentId, principal, now);
            ctx.sessionId.value in store.sessions
            && Step(st, ReadSession(0, principal, now))
               == st.(store := store,
                      requests := One(ctx, if store.sessions[ctx.sessionId.value].killed then REFUSED else SessionSeen))
  {
  }

  lemma AgentStep(st: State, ctx: PolicyContext)
    requires ctx.sessionId.Some? && st.requests == One(ctx, SessionSeen)
    ensures Step(st, CheckAgent(0))
         == st.(requests := One(ctx, if ctx.agentId in st.store.killedAgents then REFUSED else AgentSeen))
  {
  }

  lemma RuleStep(st: State, ctx: PolicyContext)
    requires ctx.sessionId.Some? && st.requests == One(ctx, AgentSeen)
    ensures Step(st, CheckRule(0))
         == st.(requests := One(ctx, RuleOutcome(st.rules, ctx, Lookup(st.store, ctx.sessionId.value))))
  {
  }

  lemma LimitStep(st: State, ctx: PolicyContext, rule: Rule, now: Instant)
    requires ctx.sessionId.Some? && st.requests == One(ctx, RuleSeen(rule))
    ensures var (view, limited) := CheckRate(rule, ctx, Some(st.store), now);
            Step(st, CheckLimit(0, now))
            == st.(store := view.value, requests := One(ctx, LimitOutcome(rule, ctx, limited)))
  {
  }

  lemma SkippedLimitStep(st: State, now: Instant)
    requires At(st, 0) && !st.requests[0].phase.RuleSeen?
    ensures Step(st, CheckLimit(0, now)) == st
  {
  }

  // The two steps of an evaluation, taken together, are the engine.
  lemma EvaluationSteps(st: State, ctx: PolicyContext, now: Instant)
    requires ctx.sessionId.Some? && st.requests == One(ctx, AgentSeen)
    ensures var (eval, view) := Evaluated(st.rules, ctx, Some(st.store), now);
            Step(Step(st, CheckRule(0)), CheckLimit(0, now))
            == st.(store := view.value, requests := One(ctx, Decided(eval)))
  {
    RuleStep(st, ctx);
    var mid := RuleOutcome(st.rules, ctx, Lookup(st.store, ctx.sessionId.value));
    var st1 := st.(requests := One(ctx, mid));
    if mid.RuleSeen? {
      LimitStep(st1, ctx, mid.rule, now);
    } else {
      SkippedLimitStep(st1, now);
    }
  }

  lemma WriteStep(st: State, ctx: PolicyContext, eval: PolicyEvaluation, jti: string)
    requires ctx.sessionId.Some? && jti !in st.tokens
    requires st.requests == One(ctx, Decided(eval))
    ensures Step(st, Write(0, jti))
         == if eval.decision == Allow
            then st.(tokens := st.tokens[jti := TokenRow(ctx.agentId, false)],
                     requests := One(ctx, Written(eval, Some(jti))))
            else st.(requests := One(ctx, Written(eval, None)))
  {
  }

  lemma CountStep(st: State, ctx: PolicyContext, eval: PolicyEvaluation, token: Option<string>, timestamp: Instant,
                  now: Instant)
    requires ctx.sessionId.Some? && st.requests == One(ctx, Written(eval, token))
    ensures var event := TrajectoryEvent(ctx.action, ctx.resource, eval.decision, timestamp);
            Step(st, Count(0, timestamp, now))
            == st.(store := ActionRecorded(st.store, ctx.sessionId.value, event, now),
                   requests := One(ctx, Counted(eval, token)))
  {
  }

  lemma AuditStep(st: State, ctx: PolicyContext, eval: PolicyEvaluation, token: Option<string>)
    requires ctx.sessionId.Some? && st.requests == One(ctx, Counted(eval, token))
    ensures Step(st, WriteAudit(0)) == st.(requests := One(ctx, Returned(eval.decision, token)))
  {
  }

  // Neither kill check refuses.
  predicate Admitted(view: StoreView, ctx: PolicyContext)
    requires ctx.sessionId.Some? && ctx.sessionId.value in view.sessions
  {
    !view.sessions[ctx.sessionId.value].killed && ctx.agentId !in view.killedAgents
  }

  // The session step and the agent step of a lone request, taken together.
  lemma AdmissionSteps(st: State, ctx: PolicyContext, principal: Option<Uuid>, m: Moment)
    requires ctx.sessionId.Some? && st.requests == One(ctx, Arrived)
    ensures var held := WithSession(st.store, ctx.sessionId.value, ctx.agentId, principal, m.sessionAt);
            FromSession(st, 0, principal, m)
            == if Admitted(held, ctx) then FromRule(st.(store := held, requests := One(ctx, AgentSeen)), 0, m)
               else st.(store := held, requests := One(ctx, REFUSED))
  {
    var held := WithSession(st.store, ctx.sessionId.value, ctx.agentId, principal, m.sessionAt);
    SessionStep(st, ctx, principal, m.sessionAt);
    if held.sessions[ctx.sessionId.value].killed {
      ReturnedStays(st.(store := held, requests := One(ctx, REFUSED)), 0, principal, m);
    } else {
      AgentStep(st.(store := held, requests := One(ctx, SessionSeen)), ctx);
      if ctx.agentId in held.killedAgents {
        ReturnedStays(st.(store := held, requests := One(ctx, REFUSED)), 0, principal, m);
      }
    }
  }

  lemma KillStep(st: State, agent: Uuid)
    ensures Step(st, Kill(agent)) == st.(store := AgentKilled(st.store, agent), sweeps := st.sweeps + multiset{agent})
  {
  }

  lemma SweepStep(st: State, agent: Uuid)
    requires agent in st.sweeps
    ensures Step(st, Sweep(agent)) == st.(tokens := RevokeAll(st.tokens, agent), sweeps := st.sweeps - multiset{agent})
  {
  }

  lemma KillSteps(st: State, agent: Uuid)
    ensures Step(Step(st, Kill(agent)), Sweep(agent))
         == st.(store := AgentKilled(st.store, agent), tokens := RevokeAll(st.tokens, agent))
  {
    KillStep(st, agent);
    SweepStep(st.(store := AgentKilled(st.store, agent), sweeps := st.sweeps + multiset{agent}), agent);
    assert st.sweeps + multiset{agent} - multiset{agent} == st.sweeps;
  }

  lemma RemoveStep(st: State, agent: Uuid)
    ensures Step(st, RemoveKill(agent))
         == st.(store := KillRemoved(st.store, agent), clears := st.clears + multiset{agent})
  {
  }

  lemma ClearStep(st: State, agent: Uuid)
    requires agent in st.clears
    ensures Step(st, ClearFlags(agent))
         == st.(store := FlagsCleared(st.store, agent), clears := st.clears - multiset{agent})
  {
  }

  lemma RestoreSteps(st: State, agent: Uuid)
    ensures Step(Step(st, RemoveKill(agent)), ClearFlags(agent))
         == st.(store := FlagsCleared(KillRemoved(st.store, agent), agent))
  {
    RemoveStep(st, agent);
    ClearStep(st.(store := KillRemoved(st.store, agent), clears := st.clears + multiset{agent}), agent);
    assert st.clears + multiset{agent} - multiset{agent} == st.clears;
  }

  // ── The handler ───────────────────────────────────────────────────

  datatype AccessResponse = AccessResponse(decision: Decision, token: Option<string>, approvedScopes: seq<string>)

  // The decision and the scopes a lone request is answered with, from the rules and the store it finds.
  function Answer(rules: seq<Rule>, view: StoreView, ctx: PolicyContext, principal: Option<Uuid>,
                  m: Moment): (Decision, seq<string>)
    requires ctx.sessionId.Some?
  {
    var held := WithSession(view, ctx.sessionId.value, ctx.agentId, principal, m.sessionAt);
    if !Admitted(held, ctx) then (Deny, []) else
      var eval := Evaluated(rules, ctx, Some(held), m.evaluatedAt).0;
      (eval.decision, eval.approvedScopes)
  }

  /** A request is answered with allow exactly when neither its session nor its agent is killed, the first matching
      rule allows, the session meets that rule's conditions and the limiter lets it through; and never with a scope
      it did not ask for. */
  lemma AnsweredAllowExactly(rules: seq<Rule>, view: StoreView, ctx: PolicyContext, principal: Option<Uuid>, m: Moment)
    requires ctx.sessionId.Some?
    ensures Answer(rules, view, ctx, principal, m).0 == Allow <==>
            && (ctx.sessionId.value in view.sessions ==> !view.sessions[ctx.sessionId.value].killed)
            && ctx.agentId !in view.killedAgents && FirstMatch(rules, ctx).Some?
            && var rule := FirstMatch(rules, ctx).value;
               var held := WithSession(view, ctx.sessionId.value, ctx.agentId, principal, m.sessionAt);
               && rule.decision == "allow" && CheckTemporal(rule, SessionOf(Some(held), ctx)).None?
               && CheckRate(rule, ctx, Some(view), m.evaluatedAt).1.None?
    ensures Subsequence(Answer(rules, view, ctx, principal, m).1, ctx.requestedScopes)
  {
    var held := WithSession(view, ctx.sessionId.value, ctx.agentId, principal, m.sessionAt);
    AllowedExactly(rules, ctx, Some(held), m.evaluatedAt);
    ApprovesOnlyRequested(rules, ctx, Some(held), m.evaluatedAt);
  }

  /** What a lone request is answered, and with which scopes. Stopped by a kill check, by every rule rejecting it, by a
      condition of the first rule that does not, or by its limit: deny, with nothing. Otherwise: what that rule says,
      with exactly those requested scopes that the rule accepts, in order. */
  lemma AnsweredExactly(rules: seq<Rule>, view: StoreView, ctx: PolicyContext, principal: Option<Uuid>, m: Moment)
    requires ctx.sessionId.Some?
    ensures var (decision, scopes) := Answer(rules, view, ctx, principal, m);
            var held := WithSession(view, ctx.sessionId.value, ctx.agentId, principal, m.sessionAt);
            && ((ctx.sessionId.value in view.sessions && view.sessions[ctx.sessionId.value].killed)
                || ctx.agentId in view.killedAgents
                || (forall i :: 0 <= i < |rules| ==> Rejects(rules[i], ctx)) ==>
                  decision == Deny && scopes == [])
            && forall i: nat :: DecidesAt(rules, ctx, i) && Admitted(held, ctx) ==>
                 if Concludes(rules[i], ctx, Some(held), m.evaluatedAt) then
                   RightDecision(decision, rules[i]) && RightScopes(scopes, rules[i], ctx.requestedScopes)
                 else decision == Deny && scopes == []
  {
    var held := WithSession(view, ctx.sessionId.value, ctx.agentId, principal, m.sessionAt);
    DefaultDenyExactly(rules, ctx, Some(held), m.evaluatedAt);
    forall i: nat | DecidesAt(rules, ctx, i) {
      DecidedExactly(rules, ctx, Some(held), m.evaluatedAt, i);
    }
  }

  // ── What the handlers leave behind ────────────────────────────────

  // The request is stopped by a kill check.
  predicate Stopped(st: State, ctx: PolicyContext)
    requires ctx.sessionId.Some?
  {
    || (ctx.sessionId.value in st.store.sessions && st.store.sessions[ctx.sessionId.value].killed)
    || ctx.agentId in st.store.killedAgents
  }

  // The request's session before it, fresh if there was none.
  function SessionBefore(st: State, ctx: PolicyContext, principal: Option<Uuid>, m: Moment): Session
    requires ctx.sessionId.Some?
  {
    var sid := ctx.sessionId.value;
    if sid in st.store.sessions then st.store.sessions[sid] else NewSession(sid, ctx.agentId, principal, m.sessionAt)
  }

  lemma EvaluationLeaves(rules: seq<Rule>, ctx: PolicyContext, view: StoreView, now: Instant)
    ensures var after := Evaluated(rules, ctx, Some(view), now).1;
            after.Some? && after.value.sessions == view.sessions && after.value.killedAgents == view.killedAgents
  {
    ChargesAtMostOnce(rules, ctx, view, now);
  }

  // A session with one more action.
  function Acted(s: Session, ctx: PolicyContext, decision: Decision, m: Moment): Session {
    s.(lastActivity := m.countedAt, actionsCount := s.actionsCount + 1,
       trajectory := Newest(s.trajectory + [TrajectoryEvent(ctx.action, ctx.resource, decision, m.timestamp)]))
  }

  // A session in place of the request's own, and a row exactly for an allowed request.
  predicate LeavesOnly(end: State, st: State, ctx: PolicyContext, s: Session, decision: Decision, m: Moment)
    requires ctx.sessionId.Some?
  {
    && end.store.killedAgents == st.store.killedAgents
    && end.store.sessions == st.store.sessions[ctx.sessionId.value := s]
    && end.tokens == if decision == Allow then st.tokens[m.jti := TokenRow(ctx.agentId, false)] else st.tokens
  }

  lemma AdmittedLeaves(st: State, ctx: PolicyContext, m: Moment)
    requires ctx.sessionId.Some? && st.requests == One(ctx, AgentSeen) && m.jti !in st.tokens
    requires ctx.sessionId.value in st.store.sessions
    ensures var decision := Evaluated(st.rules, ctx, Some(st.store), m.evaluatedAt).0.decision;
            LeavesOnly(FromRule(st, 0, m), st, ctx, Acted(st.store.sessions[ctx.sessionId.value], ctx, decision, m),
                       decision, m)
  {
    var (eval, view) := Evaluated(st.rules, ctx, Some(st.store), m.evaluatedAt);
    EvaluationLeaves(st.rules, ctx, st.store, m.evaluatedAt);
    EvaluationSteps(st, ctx, m.evaluatedAt);
    var st2 := st.(store := view.value, requests := One(ctx, Decided(eval)));
    WriteStep(st2, ctx, eval, m.jti);
    var token := if eval.decision == Allow then Some(m.jti) else None;
    var st3 := Step(st2, Write(0, m.jti));
    CountStep(st3, ctx, eval, token, m.timestamp, m.countedAt);
    AuditStep(Step(st3, Count(0, m.timestamp, m.countedAt)), ctx, eval, token);
  }

  lemma AnswerOf(rules: seq<Rule>, st: State, ctx: PolicyContext, principal: Option<Uuid>, m: Moment)
    requires ctx.sessionId.Some?
    ensures var held := WithSession(st.store, ctx.sessionId.value, ctx.agentId, principal, m.sessionAt);
            Answer(rules, st.store, ctx, principal, m).0
            == if Stopped(st, ctx) then Deny else Evaluated(rules, ctx, Some(held), m.evaluatedAt).0.decision
  {
    HeldSessions(st, ctx, principal, m);
  }

  lemma StoppedLeaves(st: State, ctx: PolicyContext, principal: Option<Uuid>, m: Moment)
    requires ctx.sessionId.Some? && st.requests == One(ctx, Arrived) && Stopped(st, ctx)
    ensures var end := FromSession(st, 0, principal, m);
            && end.store.limits == st.store.limits
            && LeavesOnly(end, st, ctx, SessionBefore(st, ctx, principal, m), Deny, m)
  {
    AdmissionSteps(st, ctx, principal, m);
    HeldSessions(st, ctx, principal, m);
  }

  // The state in which an admitted request goes on.
  function Held(st: State, ctx: PolicyContext, principal: Option<Uuid>, m: Moment): State
    requires ctx.sessionId.Some?
  {
    st.(store := WithSession(st.store, ctx.sessionId.value, ctx.agentId, principal, m.sessionAt),
        requests := One(ctx, AgentSeen))
  }

  lemma PassedGoesOn(st: State, ctx: PolicyContext, principal: Option<Uuid>, m: Moment)
    requires ctx.sessionId.Some? && st.requests == One(ctx, Arrived) && !Stopped(st, ctx)
    ensures FromSession(st, 0, principal, m) == FromRule(Held(st, ctx, principal, m), 0, m)
  {
    AdmissionSteps(st, ctx, principal, m);
    HeldSessions(st, ctx, principal, m);
  }

  lemma LeavesFromHeld(end: State, st: State, ctx: PolicyContext, principal: Option<Uuid>, m: Moment, s: Session,
                       decision: Decision)
    requires ctx.sessionId.Some? && LeavesOnly(end, Held(st, ctx, principal, m), ctx, s, decision, m)
    ensures LeavesOnly(end, st, ctx, s, decision, m)
  {
    HeldSessions(st, ctx, principal, m);
  }

  lemma PassedLeaves(st: State, ctx: PolicyContext, principal: Option<Uuid>, m: Moment, decision: Decision)
    requires ctx.sessionId.Some? && st.requests == One(ctx, Arrived) && m.jti !in st.tokens && !Stopped(st, ctx)
    requires decision == Evaluated(st.rules, ctx, Some(Held(st, ctx, principal, m).store), m.evaluatedAt).0.decision
    ensures LeavesOnly(FromSession(st, 0, principal, m), st, ctx,
                       Acted(SessionBefore(st, ctx, principal, m), ctx, decision, m), decision, m)
  {
    var held := Held(st, ctx, principal, m);
    PassedGoesOn(st, ctx, principal, m);
    HeldSessions(st, ctx, principal, m);
    AdmittedLeaves(held, ctx, m);
    LeavesFromHeld(FromRule(held, 0, m), st, ctx, principal, m,
                   Acted(SessionBefore(st, ctx, principal, m), ctx, decision, m), decision);
  }

  /** A request stopped by a kill check leaves nothing but its session. Any other adds one action, with the decision it
      is answered, to its own session, and one unrevoked token row of its agent exactly when it is allowed; it changes
      no other session, no other row and no kill. */
  lemma RequestLeaves(st: State, ctx: PolicyContext, principal: Option<Uuid>, m: Moment)
    requires ctx.sessionId.Some? && st.requests == One(ctx, Arrived) && m.jti !in st.tokens
    ensures var end, s := FromSession(st, 0, principal, m), SessionBefore(st, ctx, principal, m);
            var decision := Answer(st.rules, st.store, ctx, principal, m).0;
            && LeavesOnly(end, st, ctx, if Stopped(st, ctx) then s else Acted(s, ctx, decision, m), decision, m)
            && (Stopped(st, ctx) ==> decision == Deny && end.store.limits == st.store.limits)
  {
    AnswerOf(st.rules, st, ctx, principal, m);
    if Stopped(st, ctx) {
      StoppedLeaves(st, ctx, principal, m);
    } else {
      PassedLeaves(st, ctx, principal, m, Answer(st.rules, st.store, ctx, principal, m).0);
    }
  }

  lemma HeldSessions(st: State, ctx: PolicyContext, principal: Option<Uuid>, m: Moment)
    requires ctx.sessionId.Some?
    ensures var held := WithSession(st.store, ctx.sessionId.value, ctx.agentId, principal, m.sessionAt);
            && held.sessions == st.store.sessions[ctx.sessionId.value := SessionBefore(st, ctx, principal, m)]
            && held.limits == st.store.limits && held.killedAgents == st.store.killedAgents
            && (Stopped(st, ctx) <==> !Admitted(held, ctx))
  {
  }

  /** The kill handler leaves the agent in the kill set, its sessions flagged and its token rows revoked, and the rest
      as it was. */
  lemma KillLeaves(st: State, agent: Uuid)
    ensures var end := Step(Step(st, Kill(agent)), Sweep(agent));
            && agent in end.store.killedAgents && end.tokens.Keys == st.tokens.Keys
            && (forall k :: k in end.store.sessions && end.store.sessions[k].agentId == agent ==>
                  end.store.sessions[k].killed)
            && (forall j :: j in st.tokens ==>
                  && end.tokens[j].agentId == st.tokens[j].agentId
                  && (end.tokens[j].revoked <==> st.tokens[j].revoked || st.tokens[j].agentId == agent))
  {
    KillSteps(st, agent);
    KilledExactly(st.store, agent);
  }

  /** The restore handler leaves the agent out of the kill set and none of its sessions flagged, and no token row
      changed: what a kill revoked stays revoked. */
  lemma RestoreLeaves(st: State, agent: Uuid)
    ensures var end := Step(Step(st, RemoveKill(agent)), ClearFlags(agent));
            && agent !in end.store.killedAgents && end.tokens == st.tokens
            && (forall k :: k in end.store.sessions && end.store.sessions[k].agentId == agent ==>
                  !end.store.sessions[k].killed)
  {
    RestoreSteps(st, agent);
    RestoredExactly(st.store, agent);
  }
  class AppState {
    const store: SessionStore
    const engine: YamlEngine
    var tokens: map<string, TokenRow>

    ghost predicate Valid()
      reads this, store
    {
      store.Valid() && engine.store == store
    }

    // The shared state, with the given requests under way.
    function Shared(requests: map<nat, Request>): State
      reads this, engine, store, store.sessions.Values
    {
      State(engine.rules, store.View(), requests, tokens, multiset{}, multiset{})
    }

    constructor ()
      ensures Valid() && fresh(store) && fresh(engine) && Shared(map[]) == Start([])
    {
      var s := new SessionStore();
      store := s;
      engine := new YamlEngine(s);
      tokens := map[];
    }

    // The two kill checks.
    method Admit(ctx: PolicyContext, principal: Option<Uuid>, m: Moment) returns (admitted: bool)
      requires Valid() && ctx.sessionId.Some?
      modifies store
      ensures Valid()
      ensures FromSession(old(Shared(One(ctx, Arrived))), 0, principal, m)
           == if admitted then FromRule(Shared(One(ctx, AgentSeen)), 0, m) else Shared(One(ctx, REFUSED))
      ensures store.View() == WithSession(old(store.View()), ctx.sessionId.value, ctx.agentId, principal, m.sessionAt)
      ensures admitted <==> Admitted(store.View(), ctx)
      ensures forall o :: o in store.sessions.Values && o !in old(store.sessions.Values) ==> fresh(o)
    {
      AdmissionSteps(Shared(One(ctx, Arrived)), ctx, principal, m);
      var session := store.GetOrCreateSession(ctx.sessionId.value, ctx.agentId, principal, m.sessionAt);
      assert Shared(One(ctx, REFUSED))
          == old(Shared(One(ctx, Arrived))).(store := store.View(), requests := One(ctx, REFUSED));
      if session.killed {
        return false;
      }
      var killed := store.IsAgentKilled(ctx.agentId);
      if killed {
        return false;
      }
      admitted := true;
    }

    // The evaluation.
    method Decide(ctx: PolicyContext, m: Moment) returns (eval: PolicyEvaluation)
      requires Valid() && ctx.sessionId.Some?
      modifies store
      ensures Valid() && store.sessions == old(store.sessions)
      ensures FromRule(old(Shared(One(ctx, AgentSeen))), 0, m)
           == FromWrite(Shared(One(ctx, Decided(eval))), 0, m)
      ensures eval == Evaluated(engine.rules, ctx, Some(old(store.View())), m.evaluatedAt).0
    {
      EvaluationSteps(Shared(One(ctx, AgentSeen)), ctx, m.evaluatedAt);
      eval := engine.Evaluate(ctx, m.evaluatedAt);
    }

    // The token row of an allowed request.
    method RecordToken(ctx: PolicyContext, eval: PolicyEvaluation, m: Moment) returns (token: Option<string>)
      requires Valid() && ctx.sessionId.Some? && m.jti !in tokens
      modifies this
      ensures Valid() && token.Some? == (eval.decision == Allow)
      ensures FromWrite(old(Shared(One(ctx, Decided(eval)))), 0, m)
           == FromCount(Shared(One(ctx, Written(eval, token))), 0, m)
      ensures token.None? ==> tokens == old(tokens)
    {
      WriteStep(Shared(One(ctx, Decided(eval))), ctx, eval, m.jti);
      token := None;
      if eval.decision == Allow {
        tokens := tokens[m.jti := TokenRow(ctx.agentId, false)];
        token := Some(m.jti);
      }
    }

    // The action counted and the response sent.
    method Finish(ctx: PolicyContext, eval: PolicyEvaluation, token: Option<string>, m: Moment)
      requires Valid() && ctx.sessionId.Some?
      modifies store.sessions.Values
      ensures Valid()
      ensures FromCount(old(Shared(One(ctx, Written(eval, token)))), 0, m)
              == Shared(One(ctx, Returned(eval.decision, token)))
    {
      CountStep(Shared(One(ctx, Written(eval, token))), ctx, eval, token, m.timestamp, m.countedAt);
      store.RecordAction(ctx.sessionId.value, TrajectoryEvent(ctx.action, ctx.resource, eval.decision, m.timestamp),
                         m.countedAt);
      AuditStep(Shared(One(ctx, Counted(eval, token))), ctx, eval, token);
    }

    /** Run alone, the handler does exactly the steps of one request, and responds as the last of them says. */
    method RequestAccess(ctx: PolicyContext, principal: Option<Uuid>, m: Moment) returns (response: AccessResponse)
      requires Valid() && ctx.sessionId.Some? && m.jti !in tokens
      modifies this, store, store.sessions.Values
      ensures Valid()
      ensures FromSession(old(Shared(One(ctx, Arrived))), 0, principal, m)
           == Shared(One(ctx, Returned(response.decision, response.token)))
      ensures response.token.Some? <==> response.decision == Allow
      ensures (response.decision, response.approvedScopes)
              == Answer(old(engine.rules), old(store.View()), ctx, principal, m)
    {
      var admitted := Admit(ctx, principal, m);
      if !admitted {
        return AccessResponse(Deny, None, []);
      }
      var eval := Decide(ctx, m);
      var token := RecordToken(ctx, eval, m);
      Finish(ctx, eval, token, m);
      response := AccessResponse(eval.decision, token, eval.approvedScopes);
    }

    /** The kill handler: the emergency stop, then the sweep of the token table. */
    method KillAgent(agent: Uuid)
      requires Valid()
      modifies this, store, store.sessions.Values
      ensures Valid()
      ensures Shared(map[]) == Step(Step(old(Shared(map[])), Kill(agent)), Sweep(agent))
    {
      KillSteps(Shared(map[]), agent);
      store.KillAgent(agent);
      tokens := map j | j in tokens :: if tokens[j].agentId == agent then tokens[j].(revoked := true) else tokens[j];
    }

    /** The restore handler: the removal of the kill, then the flags. */
    method RestoreAgent(agent: Uuid)
      requires Valid()
      modifies this, store, store.sessions.Values
      ensures Valid()
      ensures Shared(map[]) == Step(Step(old(Shared(map[])), RemoveKill(agent)), ClearFlags(agent))
    {
      RestoreSteps(Shared(map[]), agent);
      store.RestoreAgent(agent);
    }
  }
}
