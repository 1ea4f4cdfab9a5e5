/** `request_access` as the steps it really takes: each lock acquisition and each database call is one
    step, and the steps of any number of requests, kills, restores and reloads interleave. */
module Access {
  import opened Common
  import opened RateLimits
  import opened Sessions
  import opened Policy

  datatype TokenRow = TokenRow(agentId: Uuid, revoked: bool)

  // Where a request stands, named after its last step.
  datatype Phase =
    | Arrived
    | SessionSeen
    | AgentSeen
    | RuleSeen(rule: Rule)
    | Writing(eval: PolicyEvaluation)
    | Written(eval: PolicyEvaluation, token: Option<string>)
    | Counted(eval: PolicyEvaluation, token: Option<string>)
    | Returned(decision: Decision, token: Option<string>)
    | Failed(token: Option<string>)

  datatype Request = Request(ctx: PolicyContext, sessionId: string, phase: Phase)

  datatype State = State(
    rules: seq<Rule>, store: StoreView, requests: map<nat, Request>, tokens: map<string, TokenRow>,
    sweeps: multiset<Uuid>, clears: multiset<Uuid>)

  datatype Event =
    // the steps of one request
    | Arrive(id: nat, ctx: PolicyContext)
    | ReadSession(id: nat, principal: Option<Uuid>, now: Instant)
    | CheckAgent(id: nat)
    | CheckRule(id: nat)
    | CheckLimit(id: nat, now: Instant)
    | Write(id: nat, jti: string)
    | Count(id: nat, timestamp: Instant, now: Instant)
    | WriteAudit(id: nat)
    | Fail(id: nat)
    // the two steps of an agent kill, and the two of a restore
    | Kill(agent: Uuid)
    | Sweep(agent: Uuid)
    | RemoveKill(agent: Uuid)
    | ClearFlags(agent: Uuid)
    // everything else that touches the shared state
    | KillSession(sessionId: string)
    | Spend(sessionId: string, amount: real)
    | Reload(rules: seq<Rule>)
    | DryRun(key: string, max: nat, now: Instant)
    | IssueElsewhere(agent: Uuid, jti: string)
    | RevokeToken(jti: string)

  predicate At(st: State, id: nat) {
    id in st.requests
  }

  // A request can fail, or its client go away, wherever it waits for the database. A write already handed to the
  // database is carried out all the same: then the request's next phase stands for the row committed, not for a
  // response delivered.
  predicate CanFail(p: Phase) {
    p.Arrived? || p.Writing? || (p.Written? && p.eval.decision != Deny) || p.Counted?
  }

  predicate Enabled(st: State, ev: Event) {
    match ev
    case Arrive(id, ctx) => id !in st.requests && ctx.sessionId.Some?
    case ReadSession(id, _, _) => At(st, id) && st.requests[id].phase.Arrived?
    case CheckAgent(id) => At(st, id) && st.requests[id].phase.SessionSeen?
    case CheckRule(id) => At(st, id) && st.requests[id].phase.AgentSeen?
    case CheckLimit(id, _) => At(st, id) && st.requests[id].phase.RuleSeen?
    case Write(id, jti) => At(st, id) && st.requests[id].phase.Writing? && jti !in st.tokens
    case Count(id, _, _) => At(st, id) && st.requests[id].phase.Written?
    case WriteAudit(id) => At(st, id) && st.requests[id].phase.Counted?
    case Fail(id) => At(st, id) && CanFail(st.requests[id].phase)
    case Sweep(agent) => agent in st.sweeps
    case ClearFlags(agent) => agent in st.clears
    case IssueElsewhere(_, jti) => jti !in st.tokens
    case _ => true
  }

  const REFUSED: Phase := Returned(Deny, None)

  // Whether the loaded rules and the session let the request through to the limiter.
  function RuleOutcome(rules: seq<Rule>, ctx: PolicyContext, session: Option<Session>): Phase {
    match FirstMatch(rules, ctx)
    case None => Written(Denied(NoMatchingPolicy), None)
    case Some(rule) =>
      var refusal := CheckTemporal(rule, session);
      if refusal.Some? then Written(Denied(refusal.value), None) else RuleSeen(rule)
  }

  function LimitOutcome(rule: Rule, ctx: PolicyContext, limited: Option<Reason>): Phase {
    if limited.Some? then Written(Denied(limited.value), None)
    else if Concluded(rule, ctx).decision == Deny then Written(Concluded(rule, ctx), None)
    else Writing(Concluded(rule, ctx))
  }

  function RevokeAll(tokens: map<string, TokenRow>, agent: Uuid): map<string, TokenRow> {
    map j | j in tokens :: if tokens[j].agentId == agent then tokens[j].(revoked := true) else tokens[j]
  }

  function TokenIn(p: Phase): Option<string> {
    if p.Written? || p.Counted? || p.Returned? || p.Failed? then p.token else None
  }

  // The steps of one request, but for its arrival.
  predicate OfRequest(ev: Event) {
    || ev.ReadSession? || ev.CheckAgent? || ev.CheckRule? || ev.CheckLimit? || ev.Write? || ev.Count?
    || ev.WriteAudit? || ev.Fail?
  }

  function LimitCheck(st: State, id: nat, now: Instant): (Option<StoreView>, Option<Reason>)
    requires At(st, id) && st.requests[id].phase.RuleSeen?
  {
    CheckRate(st.requests[id].phase.rule, st.requests[id].ctx, Some(st.store), now)
  }

  // Where a step leaves its request.
  function NextPhase(st: State, ev: Event): Phase
    requires OfRequest(ev) && Enabled(st, ev)
  {
    var r := st.requests[ev.id];
    match ev
    case ReadSession(_, _, _) =>
      if r.sessionId in st.store.sessions && st.store.sessions[r.sessionId].killed then REFUSED else SessionSeen
    case CheckAgent(_) => if r.ctx.agentId in st.store.killedAgents then REFUSED else AgentSeen
    case CheckRule(_) => RuleOutcome(st.rules, r.ctx, Lookup(st.store, r.sessionId))
    case CheckLimit(id, now) => LimitOutcome(r.phase.rule, r.ctx, LimitCheck(st, id, now).1)
    case Write(_, jti) => Written(r.phase.eval, if r.phase.eval.decision == Allow then Some(jti) else None)
    case Count(_, _, _) => Counted(r.phase.eval, r.phase.token)
    case WriteAudit(_) => Returned(r.phase.eval.decision, r.phase.token)
    case Fail(_) => Failed(TokenIn(r.phase))
  }

  // What a step does to the store.
  function NextStore(st: State, ev: Event): StoreView
    requires Enabled(st, ev)
  {
    match ev
    case ReadSession(id, principal, now) =>
      WithSession(st.store, st.requests[id].sessionId, st.requests[id].ctx.agentId, principal, now)
    case CheckLimit(id, now) => LimitCheck(st, id, now).0.value
    case Count(id, timestamp, now) =>
      var r := st.requests[id];
      var event := TrajectoryEvent(r.ctx.action, r.ctx.resource, r.phase.eval.decision, timestamp);
      ActionRecorded(st.store, r.sessionId, event, now)
    case Kill(agent) => AgentKilled(st.store, agent)
    case RemoveKill(agent) => KillRemoved(st.store, agent)
    case ClearFlags(agent) => FlagsCleared(st.store, agent)
    case KillSession(sessionId) => SessionKilled(st.store, sessionId)
    case Spend(sessionId, amount) => SpendRecorded(st.store, sessionId, amount)
    case DryRun(key, max, now) => st.store.(limits := Charge(st.store.limits, key, max, now).0)
    case _ => st.store
  }

  // And to the token table.
  function NextTokens(st: State, ev: Event): map<string, TokenRow>
    requires Enabled(st, ev)
  {
    match ev
    case Write(id, jti) =>
      var r := st.requests[id];
      if r.phase.eval.decision == Allow then st.tokens[jti := TokenRow(r.ctx.agentId, false)] else st.tokens
    case Sweep(agent) => RevokeAll(st.tokens, agent)
    case IssueElsewhere(agent, jti) => st.tokens[jti := TokenRow(agent, false)]
    case RevokeToken(jti) =>
      if jti in st.tokens then st.tokens[jti := st.tokens[jti].(revoked := true)] else st.tokens
    case _ => st.tokens
  }

  function NextRequests(st: State, ev: Event): map<nat, Request>
    requires Enabled(st, ev)
  {
    if ev.Arrive? then st.requests[ev.id := Request(ev.ctx, ev.ctx.sessionId.value, Arrived)]
    else if OfRequest(ev) then st.requests[ev.id := st.requests[ev.id].(phase := NextPhase(st, ev))]
    else st.requests
  }

  function Next(st: State, ev: Event): State
    requires Enabled(st, ev)
  {
    State(
      if ev.Reload? then ev.rules else st.rules,
      NextStore(st, ev), NextRequests(st, ev), NextTokens(st, ev),
      if ev.Kill? then st.sweeps + multiset{ev.agent}
      else if ev.Sweep? then st.sweeps - multiset{ev.agent} else st.sweeps,
      if ev.RemoveKill? then st.clears + multiset{ev.agent}
      else if ev.ClearFlags? then st.clears - multiset{ev.agent} else st.clears)
  }

  // ── Runs ──────────────────────────────────────────────────────────

  function Start(rules: seq<Rule>): State {
    State(rules, StoreView(map[], map[], {}), map[], map[], multiset{}, multiset{})
  }

  // An event that is not enabled does not happen, so every sequence of events is a run.
  function Step(st: State, ev: Event): State {
    if Enabled(st, ev) then Next(st, ev) else st
  }

  function After(st: State, evs: seq<Event>): State {
    if evs == [] then st else Step(After(st, evs[..|evs| - 1]), evs[|evs| - 1])
  }

  lemma {:induction false} AfterConcat(st: State, a: seq<Event>, b: seq<Event>)
    ensures After(st, a + b) == After(After(st, a), b)
  {
    if b == [] {
      assert a + b == a;
    } else {
      assert (a + b)[..|a + b| - 1] == a + b[..|b| - 1];
      AfterConcat(st, a, b[..|b| - 1]);
    }
  }

  // ── What every run keeps ──────────────────────────────────────────

  // Past its first step a request's session exists, for good.
  ghost predicate SessionsExist(st: State) {
    forall id :: At(st, id) ==> SessionExists(st, id)
  }

  // A request's token is in the table under the request's own agent, and is nobody else's.
  ghost predicate TokensHeld(st: State) {
    && (forall id :: At(st, id) && TokenIn(st.requests[id].phase).Some? ==>
          var j := TokenIn(st.requests[id].phase).value;
          j in st.tokens && st.tokens[j].agentId == st.requests[id].ctx.agentId)
    && (forall i, j :: At(st, i) && At(st, j) && i != j && TokenIn(st.requests[i].phase).Some? ==>
          TokenIn(st.requests[i].phase) != TokenIn(st.requests[j].phase))
  }

  // The decision a request carries, once it has one.
  function Verdict(p: Phase): Option<Decision> {
    match p
    case Writing(e) => Some(e.decision)
    case Written(e, _) => Some(e.decision)
    case Counted(e, _) => Some(e.decision)
    case Returned(d, _) => Some(d)
    case _ => None
  }

  // After the write step a request carries a token exactly when it is allowed.
  ghost predicate TokensMatchVerdicts(st: State) {
    forall id :: At(st, id) ==> VerdictMatches(st.requests[id].phase)
  }

  ghost predicate Inv(st: State) {
    SessionsExist(st) && TokensHeld(st) && TokensMatchVerdicts(st)
  }

  // What a step can make of a request: it leaves it alone, it is its arrival, or it moves it on.
  ghost predicate Stepped(st: State, ev: Event, id: nat, after: Request) {
    if OfRequest(ev) && Enabled(st, ev) && ev.id == id then after == st.requests[id].(phase := NextPhase(st, ev))
    else if At(st, id) then after == st.requests[id]
    else ev.Arrive? && ev.id == id && after.phase == Arrived
  }

  lemma RequestMoves(st: State, ev: Event, id: nat)
    requires At(Step(st, ev), id)
    ensures Stepped(st, ev, id, Step(st, ev).requests[id])
  {
  }

  // Sessions and token rows are never removed; a counter never falls, a revocation is never undone.
  lemma SessionKept(st: State, ev: Event, k: string)
    requires k in st.store.sessions
    ensures k in Step(st, ev).store.sessions
  {
  }

  lemma CounterNeverFalls(st: State, ev: Event, k: string)
    requires k in st.store.sessions && k in Step(st, ev).store.sessions
    ensures Step(st, ev).store.sessions[k].actionsCount >= st.store.sessions[k].actionsCount
  {
  }

  lemma RowKept(st: State, ev: Event, j: string)
    requires Enabled(st, ev) && j in st.tokens
    ensures j in NextTokens(st, ev) && NextTokens(st, ev)[j].agentId == st.tokens[j].agentId
    ensures st.tokens[j].revoked ==> NextTokens(st, ev)[j].revoked
  {
  }

  lemma TokenKept(st: State, ev: Event, j: string)
    requires j in st.tokens
    ensures j in Step(st, ev).tokens && Step(st, ev).tokens[j].agentId == st.tokens[j].agentId
    ensures st.tokens[j].revoked ==> Step(st, ev).tokens[j].revoked
  {
    if Enabled(st, ev) {
      RowKept(st, ev, j);
    }
  }

  lemma AskKept(st: State, ev: Event, id: nat)
    requires Enabled(st, ev) && At(st, id)
    ensures id in NextRequests(st, ev)
    ensures NextRequests(st, ev)[id].ctx == st.requests[id].ctx
    ensures NextRequests(st, ev)[id].sessionId == st.requests[id].sessionId
  {
  }

  // What a request asks for never changes.
  lemma RequestKept(st: State, ev: Event, id: nat)
    requires At(st, id)
    ensures At(Step(st, ev), id)
    ensures Step(st, ev).requests[id].ctx == st.requests[id].ctx
    ensures Step(st, ev).requests[id].sessionId == st.requests[id].sessionId
  {
    if Enabled(st, ev) {
      AskKept(st, ev, id);
    }
  }

  predicate SessionExists(st: State, id: nat)
    requires At(st, id)
  {
    var r := st.requests[id];
    r.phase.Arrived? || r.phase.Failed? || r.sessionId in st.store.sessions
  }

  lemma ReadingCreates(st: State, ev: Event)
    requires ev.ReadSession? && Enabled(st, ev)
    ensures st.requests[ev.id].sessionId in Step(st, ev).store.sessions
  {
  }

  lemma ArrivedStepped(st: State, ev: Event, id: nat, after: Request)
    requires Stepped(st, ev, id, after)
    requires At(st, id) ==> st.requests[id].phase.Arrived? || st.requests[id].phase.Failed?
    ensures after.phase.Arrived? || after.phase.Failed? || (ev.ReadSession? && ev.id == id && Enabled(st, ev))
  {
  }

  // A request leaves its first phase only by reading its session, or by failing.
  lemma LeavesArrived(st: State, ev: Event, id: nat)
    requires At(Step(st, ev), id) && (At(st, id) ==> st.requests[id].phase.Arrived? || st.requests[id].phase.Failed?)
    ensures Step(st, ev).requests[id].phase.Arrived? || Step(st, ev).requests[id].phase.Failed?
            || (ev.ReadSession? && ev.id == id && Enabled(st, ev))
  {
    RequestMoves(st, ev, id);
    ArrivedStepped(st, ev, id, Step(st, ev).requests[id]);
  }

  lemma StepKeepsSession(st: State, ev: Event, id: nat)
    requires At(Step(st, ev), id) && (At(st, id) ==> SessionExists(st, id))
    ensures SessionExists(Step(st, ev), id)
  {
    if At(st, id) {
      RequestKept(st, ev, id);
    }
    if At(st, id) && st.requests[id].sessionId in st.store.sessions {
      SessionKept(st, ev, st.requests[id].sessionId);
    } else {
      LeavesArrived(st, ev, id);
      if ev.ReadSession? && Enabled(st, ev) {
        ReadingCreates(st, ev);
      }
    }
  }

  lemma StepKeepsSessions(st: State, ev: Event)
    requires SessionsExist(st)
    ensures SessionsExist(Step(st, ev))
  {
    var next := Step(st, ev);
    forall id | At(next, id) ensures SessionExists(next, id) {
      StepKeepsSession(st, ev, id);
    }
  }

  predicate VerdictMatches(p: Phase) {
    && (p.Writing? ==> p.eval.decision != Deny)
    && (p.Written? || p.Counted? || p.Returned? ==> (TokenIn(p).Some? <==> Verdict(p) == Some(Allow)))
  }

  lemma VerdictStepped(st: State, ev: Event, id: nat, after: Request)
    requires Stepped(st, ev, id, after) && (At(st, id) ==> VerdictMatches(st.requests[id].phase))
    ensures VerdictMatches(after.phase)
  {
  }

  lemma StepKeepsVerdict(st: State, ev: Event, id: nat)
    requires At(Step(st, ev), id) && (At(st, id) ==> VerdictMatches(st.requests[id].phase))
    ensures VerdictMatches(Step(st, ev).requests[id].phase)
  {
    RequestMoves(st, ev, id);
    VerdictStepped(st, ev, id, Step(st, ev).requests[id]);
  }

  lemma StepKeepsVerdicts(st: State, ev: Event)
    requires TokensMatchVerdicts(st)
    ensures TokensMatchVerdicts(Step(st, ev))
  {
    var next := Step(st, ev);
    forall id | At(next, id) ensures VerdictMatches(next.requests[id].phase) {
      StepKeepsVerdict(st, ev, id);
    }
  }

  lemma TokenStepped(st: State, ev: Event, id: nat, after: Request)
    requires Stepped(st, ev, id, after)
    ensures At(st, id) && TokenIn(st.requests[id].phase).Some? ==>
              TokenIn(after.phase) == TokenIn(st.requests[id].phase)
    ensures !(At(st, id) && TokenIn(st.requests[id].phase).Some?) && TokenIn(after.phase).Some? ==>
              && ev.Write? && ev.id == id && Enabled(st, ev) && TokenIn(after.phase) == Some(ev.jti)
              && st.requests[id].phase.eval.decision == Allow
  {
  }

  // A token never leaves a request.
  lemma TokenStays(st: State, ev: Event, id: nat)
    requires At(st, id) && TokenIn(st.requests[id].phase).Some?
    ensures At(Step(st, ev), id) && TokenIn(Step(st, ev).requests[id].phase) == TokenIn(st.requests[id].phase)
  {
    RequestKept(st, ev, id);
    RequestMoves(st, ev, id);
    TokenStepped(st, ev, id, Step(st, ev).requests[id]);
  }

  // Only the write step gives a request a token, and a new one.
  lemma TokenArrives(st: State, ev: Event, id: nat)
    requires At(Step(st, ev), id) && TokenIn(Step(st, ev).requests[id].phase).Some?
    requires !(At(st, id) && TokenIn(st.requests[id].phase).Some?)
    ensures ev.Write? && ev.id == id && Enabled(st, ev) && TokenIn(Step(st, ev).requests[id].phase) == Some(ev.jti)
    ensures Step(st, ev).tokens == st.tokens[ev.jti := TokenRow(st.requests[id].ctx.agentId, false)]
  {
    RequestMoves(st, ev, id);
    TokenStepped(st, ev, id, Step(st, ev).requests[id]);
  }

  lemma TokenMoves(st: State, ev: Event, id: nat)
    requires At(Step(st, ev), id)
    ensures At(st, id) && TokenIn(st.requests[id].phase).Some? ==>
              TokenIn(Step(st, ev).requests[id].phase) == TokenIn(st.requests[id].phase)
    ensures TokenIn(Step(st, ev).requests[id].phase).Some? && !(At(st, id) && TokenIn(st.requests[id].phase).Some?) ==>
              && ev.Write? && ev.id == id && At(st, id) && st.requests[id].phase.Writing?
              && TokenIn(Step(st, ev).requests[id].phase) == Some(ev.jti)
              && ev.jti !in st.tokens
              && Step(st, ev).tokens == st.tokens[ev.jti := TokenRow(st.requests[id].ctx.agentId, false)]
    ensures At(st, id) ==> Step(st, ev).requests[id].ctx == st.requests[id].ctx
  {
    if At(st, id) {
      RequestKept(st, ev, id);
    }
    if At(st, id) && TokenIn(st.requests[id].phase).Some? {
      TokenStays(st, ev, id);
    } else if TokenIn(Step(st, ev).requests[id].phase).Some? {
      TokenArrives(st, ev, id);
    }
  }

  lemma StepKeepsTokens(st: State, ev: Event)
    requires TokensHeld(st)
    ensures TokensHeld(Step(st, ev))
  {
    var next := Step(st, ev);
    forall id | At(next, id) && TokenIn(next.requests[id].phase).Some?
      ensures TokenIn(next.requests[id].phase).value in next.tokens
      ensures next.tokens[TokenIn(next.requests[id].phase).value].agentId == next.requests[id].ctx.agentId
    {
      TokenMoves(st, ev, id);
      var j := TokenIn(next.requests[id].phase).value;
      if j in st.tokens {
        TokenKept(st, ev, j);
      }
    }
    forall i, j | At(next, i) && At(next, j) && i != j && TokenIn(next.requests[i].phase).Some?
      ensures TokenIn(next.requests[i].phase) != TokenIn(next.requests[j].phase)
    {
      TokenMoves(st, ev, i);
      TokenMoves(st, ev, j);
    }
  }

  lemma {:induction false} InvAlways(st: State, evs: seq<Event>)
    requires Inv(st)
    ensures Inv(After(st, evs))
  {
    if evs != [] {
      var before := After(st, evs[..|evs| - 1]);
      InvAlways(st, evs[..|evs| - 1]);
      StepKeepsSessions(before, evs[|evs| - 1]);
      StepKeepsTokens(before, evs[|evs| - 1]);
      StepKeepsVerdicts(before, evs[|evs| - 1]);
    }
  }

  // ── The action cap ────────────────────────────────────────────────

  predicate Active(p: Phase) {
    !p.Returned? && !p.Failed?
  }

  // A request that an allowing rule has let past the session conditions.
  predicate Passing(p: Phase) {
    (p.RuleSeen? && p.rule.decision == "allow") || Verdict(p) == Some(Allow)
  }

  // One whose action is counted as well.
  predicate Accounted(p: Phase) {
    (p.Counted? || p.Returned?) && Verdict(p) == Some(Allow)
  }

  function OnSession(st: State, sid: string): set<nat> {
    set id | id in st.requests && st.requests[id].sessionId == sid
  }

  function InFlight(st: State, sid: string): set<nat> {
    set id | id in OnSession(st, sid) && Active(st.requests[id].phase)
  }

  function PassingOn(st: State, sid: string): set<nat> {
    set id | id in OnSession(st, sid) && Passing(st.requests[id].phase)
  }

  function AccountedOn(st: State, sid: string): set<nat> {
    set id | id in OnSession(st, sid) && Accounted(st.requests[id].phase)
  }

  // The requests on the session that returned an allow.
  function AllowedOn(st: State, sid: string): set<nat> {
    set id | id in OnSession(st, sid) && st.requests[id].phase.Returned? && st.requests[id].phase.decision == Allow
  }

  // Every allowing rule caps the session's actions at n or less.
  predicate CappedAt(rules: seq<Rule>, n: nat) {
    forall i :: 0 <= i < |rules| && rules[i].decision == "allow" ==>
      rules[i].maxActionsInSession.Some? && rules[i].maxActionsInSession.value <= n
  }

  predicate AlwaysCapped(evs: seq<Event>, n: nat) {
    forall i :: 0 <= i < |evs| && evs[i].Reload? ==> CappedAt(evs[i].rules, n)
  }

  function ActionsOn(st: State, sid: string): nat {
    if sid in st.store.sessions then st.store.sessions[sid].actionsCount else 0
  }

  lemma SubsetSize<T>(a: set<T>, b: set<T>)
    requires a <= b
    ensures |a| <= |b|
  {
    assert b == a + (b - a);
  }

  lemma UnionSize<T>(a: set<T>, b: set<T>)
    ensures |a + b| <= |a| + |b|
  {
    assert a + b == a + (b - a);
    SubsetSize(b - a, b);
  }

  lemma PassingStepped(st: State, ev: Event, id: nat, after: Request)
    requires Stepped(st, ev, id, after) && Passing(after.phase)
    requires !(At(st, id) && Passing(st.requests[id].phase))
    ensures ev == CheckRule(id) && Enabled(st, ev)
  {
  }

  // Only the rule check makes a request pass, and only the count step accounts for it.
  lemma PassingMoves(st: State, ev: Event, id: nat)
    requires At(Step(st, ev), id) && Passing(Step(st, ev).requests[id].phase)
    requires !(At(st, id) && Passing(st.requests[id].phase))
    ensures ev == CheckRule(id) && Enabled(st, ev)
  {
    RequestMoves(st, ev, id);
    PassingStepped(st, ev, id, Step(st, ev).requests[id]);
  }

  lemma CheckRuleOutcome(st: State, id: nat)
    requires Enabled(st, CheckRule(id))
    ensures At(Step(st, CheckRule(id)), id)
    ensures Step(st, CheckRule(id)).requests[id].phase
         == RuleOutcome(st.rules, st.requests[id].ctx, Lookup(st.store, st.requests[id].sessionId))
  {
  }

  lemma AccountedStepped(st: State, ev: Event, id: nat, after: Request)
    requires Stepped(st, ev, id, after) && Accounted(after.phase)
    requires !(At(st, id) && Accounted(st.requests[id].phase))
    ensures ev.Count? && ev.id == id && Enabled(st, ev)
  {
  }

  lemma AccountedMoves(st: State, ev: Event, id: nat)
    requires At(Step(st, ev), id) && Accounted(Step(st, ev).requests[id].phase)
    requires !(At(st, id) && Accounted(st.requests[id].phase))
    ensures ev.Count? && ev.id == id && Enabled(st, ev)
  {
    RequestMoves(st, ev, id);
    AccountedStepped(st, ev, id, Step(st, ev).requests[id]);
  }

  // What one step can do to the sets above.
  ghost predicate CapFacts(st: State, next: State, ev: Event, sid: string) {
    && (forall id :: id in PassingOn(next, sid) && id !in PassingOn(st, sid) ==> LetPast(st, ev, id, sid))
    && (forall id :: id in AccountedOn(next, sid) && id !in AccountedOn(st, sid) ==>
          ev.Count? && ev.id == id && ActionsOn(next, sid) == ActionsOn(st, sid) + 1)
    && ActionsOn(next, sid) >= ActionsOn(st, sid)
  }

  predicate LetPast(st: State, ev: Event, id: nat, sid: string) {
    && ev == CheckRule(id) && At(st, id) && sid in st.store.sessions
    && Passing(RuleOutcome(st.rules, st.requests[id].ctx, Some(st.store.sessions[sid])))
  }

  lemma NewlyPassing(st: State, ev: Event, sid: string, id: nat)
    requires SessionsExist(st) && id in PassingOn(Step(st, ev), sid) && id !in PassingOn(st, sid)
    ensures LetPast(st, ev, id, sid)
  {
    if At(st, id) {
      RequestKept(st, ev, id);
    }
    PassingMoves(st, ev, id);
    CheckRuleOutcome(st, id);
    assert SessionExists(st, id);
  }

  lemma NewlyAccounted(st: State, ev: Event, sid: string, id: nat)
    requires SessionsExist(st) && id in AccountedOn(Step(st, ev), sid) && id !in AccountedOn(st, sid)
    ensures ev.Count? && ev.id == id && ActionsOn(Step(st, ev), sid) == ActionsOn(st, sid) + 1
  {
    if At(st, id) {
      RequestKept(st, ev, id);
    }
    AccountedMoves(st, ev, id);
    assert SessionExists(st, id);
    CountAddsOne(st, ev, id);
  }

  lemma CountAddsOne(st: State, ev: Event, id: nat)
    requires ev.Count? && ev.id == id && Enabled(st, ev) && st.requests[id].sessionId in st.store.sessions
    ensures ActionsOn(Step(st, ev), st.requests[id].sessionId) == ActionsOn(st, st.requests[id].sessionId) + 1
  {
  }

  lemma AllNewlyPassing(st: State, ev: Event, sid: string)
    requires SessionsExist(st)
    ensures forall id :: id in PassingOn(Step(st, ev), sid) && id !in PassingOn(st, sid) ==> LetPast(st, ev, id, sid)
  {
    forall id | id in PassingOn(Step(st, ev), sid) && id !in PassingOn(st, sid) ensures LetPast(st, ev, id, sid) {
      NewlyPassing(st, ev, sid, id);
    }
  }

  lemma AllNewlyAccounted(st: State, ev: Event, sid: string)
    requires SessionsExist(st)
    ensures forall id :: id in AccountedOn(Step(st, ev), sid) && id !in AccountedOn(st, sid) ==>
              ev.Count? && ev.id == id && ActionsOn(Step(st, ev), sid) == ActionsOn(st, sid) + 1
  {
    forall id | id in AccountedOn(Step(st, ev), sid) && id !in AccountedOn(st, sid)
      ensures ev.Count? && ev.id == id && ActionsOn(Step(st, ev), sid) == ActionsOn(st, sid) + 1
    {
      NewlyAccounted(st, ev, sid, id);
    }
  }

  lemma ActionsNeverFall(st: State, ev: Event, sid: string)
    ensures ActionsOn(Step(st, ev), sid) >= ActionsOn(st, sid)
  {
    if sid in st.store.sessions {
      SessionKept(st, ev, sid);
      CounterNeverFalls(st, ev, sid);
    }
  }

  lemma StepCapFacts(st: State, ev: Event, sid: string)
    requires SessionsExist(st)
    ensures CapFacts(st, Step(st, ev), ev, sid)
  {
    ActionsNeverFall(st, ev, sid);
    AllNewlyPassing(st, ev, sid);
    AllNewlyAccounted(st, ev, sid);
  }

  // A request can only be let past by a rule whose cap the counter has not reached.
  lemma PassedUnderCap(rules: seq<Rule>, ctx: PolicyContext, session: Session, n: nat)
    requires CappedAt(rules, n) && Passing(RuleOutcome(rules, ctx, Some(session)))
    ensures session.actionsCount < n
  {
    FirstMatchIsLeast(rules, ctx);
    var rule := FirstMatch(rules, ctx).value;
    assert FirstMatch(rules, ctx) == Some(rule);
  }

  // The session's counter keeps up with the allowed requests already counted.
  lemma StaysAccounted(st: State, next: State, ev: Event, sid: string)
    requires CapFacts(st, next, ev, sid) && |AccountedOn(st, sid)| <= ActionsOn(st, sid)
    ensures |AccountedOn(next, sid)| <= ActionsOn(next, sid)
  {
    if AccountedOn(next, sid) <= AccountedOn(st, sid) {
      SubsetSize(AccountedOn(next, sid), AccountedOn(st, sid));
    } else {
      var id :| id in AccountedOn(next, sid) && id !in AccountedOn(st, sid);
      assert AccountedOn(next, sid) <= AccountedOn(st, sid) + {id};
      SubsetSize(AccountedOn(next, sid), AccountedOn(st, sid) + {id});
      UnionSize(AccountedOn(st, sid), {id});
    }
  }

  lemma StaysUnderCap(st: State, next: State, ev: Event, sid: string, n: nat, k: nat)
    requires CapFacts(st, next, ev, sid) && CappedAt(st.rules, n)
    requires |AccountedOn(st, sid)| <= ActionsOn(st, sid) && |PassingOn(st, sid)| <= CapBound(n, k)
    requires |InFlight(next, sid)| <= k
    ensures |PassingOn(next, sid)| <= CapBound(n, k)
  {
    if PassingOn(next, sid) <= PassingOn(st, sid) {
      SubsetSize(PassingOn(next, sid), PassingOn(st, sid));
    } else {
      var id :| id in PassingOn(next, sid) && id !in PassingOn(st, sid);
      assert LetPast(st, ev, id, sid);
      PassedUnderCap(st.rules, st.requests[id].ctx, st.store.sessions[sid], n);
      assert AccountedOn(next, sid) <= AccountedOn(st, sid);
      SubsetSize(AccountedOn(next, sid), AccountedOn(st, sid));
      SubsetSize(PassingOn(next, sid), AccountedOn(next, sid) + InFlight(next, sid));
      UnionSize(AccountedOn(next, sid), InFlight(next, sid));
    }
  }

  // What a cap of n actions allows with k requests in flight.
  function CapBound(n: nat, k: nat): int {
    if n == 0 then 0 else n + k - 1
  }

  // At every moment of the run at most k requests are in flight on the session.
  predicate AtMostInFlight(st: State, evs: seq<Event>, sid: string, k: nat) {
    |InFlight(After(st, evs), sid)| <= k && (evs == [] || AtMostInFlight(st, evs[..|evs| - 1], sid, k))
  }

  ghost predicate UnderCap(st: State, sid: string, n: nat, k: nat) {
    && Inv(st) && CappedAt(st.rules, n)
    && |AccountedOn(st, sid)| <= ActionsOn(st, sid) && |PassingOn(st, sid)| <= CapBound(n, k)
  }

  lemma RulesStayCapped(st: State, ev: Event, n: nat)
    requires CappedAt(st.rules, n) && (ev.Reload? ==> CappedAt(ev.rules, n))
    ensures CappedAt(Step(st, ev).rules, n)
  {
  }

  lemma StepUnderCap(st: State, ev: Event, next: State, sid: string, n: nat, k: nat)
    requires UnderCap(st, sid, n, k) && next == Step(st, ev)
    requires ev.Reload? ==> CappedAt(ev.rules, n)
    requires |InFlight(next, sid)| <= k
    ensures UnderCap(next, sid, n, k)
  {
    StepKeepsSessions(st, ev);
    StepKeepsTokens(st, ev);
    StepKeepsVerdicts(st, ev);
    RulesStayCapped(st, ev, n);
    StepCapFacts(st, ev, sid);
    StaysAccounted(st, next, ev, sid);
    StaysUnderCap(st, next, ev, sid, n, k);
  }

  lemma {:induction false} CapInvariant(rules: seq<Rule>, evs: seq<Event>, sid: string, n: nat, k: nat)
    requires CappedAt(rules, n) && AlwaysCapped(evs, n) && 1 <= k && AtMostInFlight(Start(rules), evs, sid, k)
    ensures UnderCap(After(Start(rules), evs), sid, n, k)
  {
    var st := Start(rules);
    if evs == [] {
      assert AccountedOn(st, sid) == {} && PassingOn(st, sid) == {};
    } else {
      var front, ev := evs[..|evs| - 1], evs[|evs| - 1];
      CapInvariant(rules, front, sid, n, k);
      StepUnderCap(After(st, front), ev, After(st, evs), sid, n, k);
    }
  }

  /** In every interleaving with at most k requests in flight on a session, at most n + k - 1 of them
      ever return allow under rules that cap the session's actions at n, and none at all under a cap of 0. One at a
      time, that is n. */
  lemma ActionCap(rules: seq<Rule>, evs: seq<Event>, sid: string, n: nat, k: nat)
    requires CappedAt(rules, n) && AlwaysCapped(evs, n) && 1 <= k && AtMostInFlight(Start(rules), evs, sid, k)
    ensures |AllowedOn(After(Start(rules), evs), sid)| <= CapBound(n, k)
  {
    CapInvariant(rules, evs, sid, n, k);
    var st := After(Start(rules), evs);
    SubsetSize(AllowedOn(st, sid), PassingOn(st, sid));
  }

  // ── The emergency stop ────────────────────────────────────────────

  // A request that has passed the agent check and not yet come to the end of its writes.
  predicate PastCheck(p: Phase) {
    p.AgentSeen? || p.RuleSeen? || p.Writing?
  }

  predicate Restores(evs: seq<Event>, agent: Uuid) {
    exists i :: 0 <= i < |evs| && evs[i] == RemoveKill(agent)
  }

  // The requests of an agent that hold a token, those that still may get one, and those whose token is usable.
  function TokenHolders(st: State, agent: Uuid): set<nat> {
    set id | id in st.requests && st.requests[id].ctx.agentId == agent && TokenIn(st.requests[id].phase).Some?
  }

  function PastCheckOf(st: State, agent: Uuid): set<nat> {
    set id | id in st.requests && st.requests[id].ctx.agentId == agent && PastCheck(st.requests[id].phase)
  }

  function UsableHolders(st: State, agent: Uuid): set<nat> {
    set id | id in TokenHolders(st, agent)
             && TokenIn(st.requests[id].phase).value in st.tokens
             && !st.tokens[TokenIn(st.requests[id].phase).value].revoked
  }

  lemma KillStays(st: State, ev: Event, agent: Uuid)
    requires agent in st.store.killedAgents && ev != RemoveKill(agent)
    ensures agent in Step(st, ev).store.killedAgents
  {
  }

  lemma PastCheckStepped(st: State, ev: Event, id: nat, after: Request)
    requires Stepped(st, ev, id, after) && PastCheck(after.phase)
    requires !(At(st, id) && PastCheck(st.requests[id].phase))
    ensures ev == CheckAgent(id) && Enabled(st, ev)
  {
  }

  // Only the agent check takes a request past the agent check.
  lemma PastCheckMoves(st: State, ev: Event, id: nat)
    requires At(Step(st, ev), id) && PastCheck(Step(st, ev).requests[id].phase)
    requires !(At(st, id) && PastCheck(st.requests[id].phase))
    ensures ev == CheckAgent(id) && Enabled(st, ev)
  {
    RequestMoves(st, ev, id);
    PastCheckStepped(st, ev, id, Step(st, ev).requests[id]);
  }

  lemma KilledCheckRefuses(st: State, id: nat)
    requires Enabled(st, CheckAgent(id)) && st.requests[id].ctx.agentId in st.store.killedAgents
    ensures At(Step(st, CheckAgent(id)), id) && Step(st, CheckAgent(id)).requests[id].phase == REFUSED
  {
  }

  lemma NonePassesTheCheck(st: State, ev: Event, agent: Uuid, id: nat)
    requires agent in st.store.killedAgents && id in PastCheckOf(Step(st, ev), agent)
    ensures id in PastCheckOf(st, agent)
  {
    if At(st, id) {
      RequestKept(st, ev, id);
    }
    if !(At(st, id) && PastCheck(st.requests[id].phase)) {
      PastCheckMoves(st, ev, id);
      KilledCheckRefuses(st, id);
    }
  }

  lemma StepUnderKill(st: State, ev: Event, agent: Uuid)
    requires agent in st.store.killedAgents && ev != RemoveKill(agent)
    ensures agent in Step(st, ev).store.killedAgents
    ensures TokenHolders(st, agent) <= TokenHolders(Step(st, ev), agent)
    ensures PastCheckOf(Step(st, ev), agent) <= PastCheckOf(st, agent)
    ensures TokenHolders(Step(st, ev), agent) <= TokenHolders(st, agent) + PastCheckOf(st, agent)
  {
    KillStays(st, ev, agent);
    forall id | id in PastCheckOf(Step(st, ev), agent) ensures id in PastCheckOf(st, agent) {
      NonePassesTheCheck(st, ev, agent, id);
    }
    forall id | id in TokenHolders(st, agent) ensures id in TokenHolders(Step(st, ev), agent) {
      RequestKept(st, ev, id);
      TokenStays(st, ev, id);
    }
    forall id | id in TokenHolders(Step(st, ev), agent) ensures id in TokenHolders(st, agent) + PastCheckOf(st, agent) {
      TokenMoves(st, ev, id);
    }
  }

  lemma NoRestoreBefore(evs: seq<Event>, agent: Uuid)
    requires evs != [] && !Restores(evs, agent)
    ensures !Restores(evs[..|evs| - 1], agent) && evs[|evs| - 1] != RemoveKill(agent)
  {
    var front := evs[..|evs| - 1];
    forall i | 0 <= i < |front| ensures front[i] != RemoveKill(agent) {
      assert evs[i] == front[i];
    }
    assert evs[|evs| - 1] != RemoveKill(agent);
  }

  lemma {:induction false} SpanUnderKill(st: State, evs: seq<Event>, agent: Uuid)
    requires agent in st.store.killedAgents && !Restores(evs, agent)
    ensures agent in After(st, evs).store.killedAgents
    ensures TokenHolders(st, agent) <= TokenHolders(After(st, evs), agent)
    ensures PastCheckOf(After(st, evs), agent) <= PastCheckOf(st, agent)
    ensures TokenHolders(After(st, evs), agent) <= TokenHolders(st, agent) + PastCheckOf(st, agent)
  {
    if evs != [] {
      var front := evs[..|evs| - 1];
      NoRestoreBefore(evs, agent);
      SpanUnderKill(st, front, agent);
      StepUnderKill(After(st, front), evs[|evs| - 1], agent);
    }
  }

  // A response, once sent, stays.
  lemma ResponseStays(st: State, ev: Event, id: nat)
    requires At(st, id) && st.requests[id].phase.Returned?
    ensures At(Step(st, ev), id) && Step(st, ev).requests[id] == st.requests[id]
  {
    RequestKept(st, ev, id);
    RequestMoves(st, ev, id);
    ReturnedStepped(st, ev, id, Step(st, ev).requests[id]);
  }

  lemma ReturnedStepped(st: State, ev: Event, id: nat, after: Request)
    requires Stepped(st, ev, id, after) && At(st, id) && st.requests[id].phase.Returned?
    ensures after == st.requests[id]
  {
  }

  lemma {:induction false} ResponsesStay(st: State, evs: seq<Event>, id: nat)
    requires At(st, id) && st.requests[id].phase.Returned?
    ensures At(After(st, evs), id) && After(st, evs).requests[id] == st.requests[id]
  {
    if evs != [] {
      ResponsesStay(st, evs[..|evs| - 1], id);
      ResponseStays(After(st, evs[..|evs| - 1]), evs[|evs| - 1], id);
    }
  }

  // The state right after a kill that follows the given events.
  function KilledState(rules: seq<Rule>, before: seq<Event>, agent: Uuid): State {
    Step(After(Start(rules), before), Kill(agent))
  }

  // ── What the session flags add to a kill ──────────────────────────

  predicate Flagged(st: State, sid: string) {
    sid in st.store.sessions && st.store.sessions[sid].killed
  }

  // The session is one of the agent's.
  predicate Owns(st: State, agent: Uuid, sid: string) {
    sid in st.store.sessions && st.store.sessions[sid].agentId == agent
  }

  // A flagged session of the agent, and no restore that is still to clear it.
  predicate FlagHolds(st: State, agent: Uuid, sid: string) {
    Owns(st, agent, sid) && Flagged(st, sid) && agent !in st.clears
  }

  lemma StoreKeepsFlag(st: State, ev: Event, agent: Uuid, sid: string)
    requires Enabled(st, ev) && FlagHolds(st, agent, sid)
    ensures var sessions := NextStore(st, ev).sessions;
            sid in sessions && sessions[sid].agentId == agent && sessions[sid].killed
  {
  }

  lemma NoNewClear(st: State, ev: Event, agent: Uuid)
    requires agent !in st.clears && ev != RemoveKill(agent)
    ensures agent !in Step(st, ev).clears
  {
  }

  lemma StepKeepsFlag(st: State, ev: Event, agent: Uuid, sid: string)
    requires FlagHolds(st, agent, sid) && ev != RemoveKill(agent)
    ensures FlagHolds(Step(st, ev), agent, sid)
  {
    NoNewClear(st, ev, agent);
    if Enabled(st, ev) {
      StoreKeepsFlag(st, ev, agent, sid);
    }
  }

  lemma {:induction false} FlagSurvives(st: State, evs: seq<Event>, agent: Uuid, sid: string)
    requires FlagHolds(st, agent, sid) && !Restores(evs, agent)
    ensures FlagHolds(After(st, evs), agent, sid)
  {
    if evs != [] {
      NoRestoreBefore(evs, agent);
      FlagSurvives(st, evs[..|evs| - 1], agent, sid);
      StepKeepsFlag(After(st, evs[..|evs| - 1]), evs[|evs| - 1], agent, sid);
    }
  }

  lemma KillFlags(st: State, agent: Uuid, sid: string)
    ensures var killed := Step(st, Kill(agent));
            && killed.clears == st.clears && killed.requests == st.requests && agent in killed.store.killedAgents
            && (Owns(killed, agent, sid) <==> Owns(st, agent, sid))
            && (Owns(st, agent, sid) ==>
                  killed.store.sessions[sid] == st.store.sessions[sid].(killed := true))
  {
  }

  lemma ClearUnflags(st: State, agent: Uuid, sid: string)
    requires Owns(st, agent, sid) && agent in st.clears
    ensures var end := Step(st, ClearFlags(agent));
            && end.store.killedAgents == st.store.killedAgents && sid in end.store.sessions
            && end.store.sessions[sid] == st.store.sessions[sid].(killed := false)
  {
  }

  // Whatever happens after the kill, the session stays flagged until a restore's removal step.
  ghost predicate FlagLasts(st: State, agent: Uuid, sid: string) {
    forall span :: !Restores(span, agent) ==> Flagged(After(Step(st, Kill(agent)), span), sid)
  }

  /** A kill keeps a session of the agent flagged until a restore exactly when, at the kill, no earlier restore of the
      agent has still its second step to take. */
  lemma FlagLastsExactly(st: State, agent: Uuid, sid: string)
    requires Owns(st, agent, sid)
    ensures FlagLasts(st, agent, sid) <==> agent !in st.clears
  {
    var killed := Step(st, Kill(agent));
    KillFlags(st, agent, sid);
    if agent !in st.clears {
      forall span | !Restores(span, agent) ensures Flagged(After(killed, span), sid) {
        FlagSurvives(killed, span, agent, sid);
      }
    } else {
      ClearUnflags(killed, agent, sid);
      AfterOne(killed, [], ClearFlags(agent));
      assert [] + [ClearFlags(agent)] == [ClearFlags(agent)];
      assert !Restores([ClearFlags(agent)], agent);
      assert !Flagged(After(killed, [ClearFlags(agent)]), sid);
    }
  }

  lemma KillInsideRestore(st: State, agent: Uuid, sid: string)
    requires Owns(st, agent, sid)
    ensures var mid := Step(Step(st, RemoveKill(agent)), Kill(agent));
            && agent in mid.clears && agent in mid.store.killedAgents && sid in mid.store.sessions
            && mid.store.sessions[sid] == st.store.sessions[sid].(killed := true)
  {
    KillFlags(Step(st, RemoveKill(agent)), agent, sid);
  }

  /** The concrete case: a kill that falls between the two steps of a restore ends with the agent killed and every
      session of it unflagged. */
  lemma StaleRestoreClearsFlags(st: State, agent: Uuid, sid: string)
    requires Owns(st, agent, sid)
    ensures var end := Step(Step(Step(st, RemoveKill(agent)), Kill(agent)), ClearFlags(agent));
            && agent in end.store.killedAgents && sid in end.store.sessions
            && end.store.sessions[sid] == st.store.sessions[sid].(killed := false)
  {
    KillInsideRestore(st, agent, sid);
    ClearUnflags(Step(Step(st, RemoveKill(agent)), Kill(agent)), agent, sid);
  }

  // ── The tokens of a killed agent ──────────────────────────────────

  // Stopped at the rule check at the latest: the request has no token and will not get one.
  predicate Shut(p: Phase) {
    || p.AgentSeen?
    || ((p.Written? || p.Counted? || p.Returned?) && Verdict(p) == Some(Deny) && TokenIn(p).None?)
    || (p.Failed? && p.token.None?)
  }

  // The rule check reads the flag again, and denies.
  lemma FlagDenies(rules: seq<Rule>, ctx: PolicyContext, session: Session)
    requires session.killed
    ensures Shut(RuleOutcome(rules, ctx, Some(session)))
  {
  }

  lemma ShutStepped(st: State, ev: Event, id: nat, after: Request)
    requires Stepped(st, ev, id, after) && At(st, id) && Shut(st.requests[id].phase)
    requires Flagged(st, st.requests[id].sessionId)
    ensures Shut(after.phase)
  {
    if ev == CheckRule(id) && Enabled(st, ev) {
      FlagDenies(st.rules, st.requests[id].ctx, st.store.sessions[st.requests[id].sessionId]);
    }
  }

  lemma {:induction false} StaysShut(st: State, evs: seq<Event>, agent: Uuid, id: nat)
    requires At(st, id) && Shut(st.requests[id].phase) && FlagHolds(st, agent, st.requests[id].sessionId)
    requires !Restores(evs, agent)
    ensures At(After(st, evs), id) && Shut(After(st, evs).requests[id].phase)
    ensures After(st, evs).requests[id].sessionId == st.requests[id].sessionId
  {
    if evs != [] {
      var mid, ev := After(st, evs[..|evs| - 1]), evs[|evs| - 1];
      NoRestoreBefore(evs, agent);
      StaysShut(st, evs[..|evs| - 1], agent, id);
      FlagSurvives(st, evs[..|evs| - 1], agent, st.requests[id].sessionId);
      RequestKept(mid, ev, id);
      RequestMoves(mid, ev, id);
      ShutStepped(mid, ev, id, Step(mid, ev).requests[id]);
    }
  }

  // Of the agent's requests past the agent check, those that a kill which leads to this state does not stop at the
  // rule check: they are past that too, or an earlier restore may still clear the flags, or their session is not one
  // of the agent's.
  function Unstopped(killed: State, agent: Uuid): set<nat> {
    set id | id in PastCheckOf(killed, agent)
             && (|| !killed.requests[id].phase.AgentSeen?
                 || agent in killed.clears
                 || !Owns(killed, agent, killed.requests[id].sessionId))
  }

  /** From a kill until a restore's removal step, whatever else happens, the requests of the agent that get a token
      are among those past the agent check when the kill ran that it does not stop at the rule check, so no more than
      those. */
  lemma KillBoundsTokens(rules: seq<Rule>, before: seq<Event>, agent: Uuid, span: seq<Event>)
    requires !Restores(span, agent)
    ensures var killed := KilledState(rules, before, agent);
            var newly := TokenHolders(After(killed, span), agent) - TokenHolders(killed, agent);
            && newly <= Unstopped(killed, agent) <= PastCheckOf(killed, agent)
            && |newly| <= |Unstopped(killed, agent)| <= |PastCheckOf(killed, agent)|
  {
    var killed := KilledState(rules, before, agent);
    var newly := TokenHolders(After(killed, span), agent) - TokenHolders(killed, agent);
    SpanUnderKill(killed, span, agent);
    forall id | id in newly ensures id in Unstopped(killed, agent) {
      var sid := killed.requests[id].sessionId;
      KillFlags(After(Start(rules), before), agent, sid);
      if killed.requests[id].phase.AgentSeen? && agent !in killed.clears && Owns(killed, agent, sid) {
        StaysShut(killed, span, agent, id);
      }
    }
    SubsetSize(newly, Unstopped(killed, agent));
    SubsetSize(Unstopped(killed, agent), PastCheckOf(killed, agent));
  }

  /** Every request of the agent whose agent check falls in that span is refused, for good and without a token,
      whatever session it names and whatever an earlier restore still does to the session flags. */
  lemma KillRefusesRequests(rules: seq<Rule>, before: seq<Event>, agent: Uuid, early: seq<Event>, id: nat,
                            late: seq<Event>)
    requires !Restores(early, agent)
    requires var st := After(KilledState(rules, before, agent), early);
             Enabled(st, CheckAgent(id)) && st.requests[id].ctx.agentId == agent
    ensures var end := After(KilledState(rules, before, agent), early + [CheckAgent(id)] + late);
            At(end, id) && end.requests[id].phase == REFUSED
  {
    var killed := KilledState(rules, before, agent);
    SpanUnderKill(killed, early, agent);
    KilledCheckRefuses(After(killed, early), id);
    AfterOne(killed, early, CheckAgent(id));
    AfterConcat(killed, early + [CheckAgent(id)], late);
    ResponsesStay(After(killed, early + [CheckAgent(id)]), late, id);
  }

  lemma AfterOne(st: State, evs: seq<Event>, ev: Event)
    ensures After(st, evs + [ev]) == Step(After(st, evs), ev)
  {
    assert (evs + [ev])[..|evs|] == evs;
  }

  lemma SweepRevokes(st: State, agent: Uuid)
    requires TokensHeld(st) && agent in st.sweeps
    ensures UsableHolders(Step(st, Sweep(agent)), agent) == {}
  {
    var next := Step(st, Sweep(agent));
    forall id | id in TokenHolders(next, agent) ensures next.tokens[TokenIn(next.requests[id].phase).value].revoked {
      assert At(st, id);
    }
  }

  lemma StepUsable(st: State, ev: Event, agent: Uuid)
    requires TokensHeld(st)
    ensures UsableHolders(Step(st, ev), agent) <= UsableHolders(st, agent) + PastCheckOf(st, agent)
  {
    forall id | id in UsableHolders(Step(st, ev), agent)
      ensures id in UsableHolders(st, agent) + PastCheckOf(st, agent)
    {
      assert At(Step(st, ev), id);
      TokenMoves(st, ev, id);
      if At(st, id) && TokenIn(st.requests[id].phase).Some? {
        TokenKept(st, ev, TokenIn(st.requests[id].phase).value);
      }
    }
  }

  lemma {:induction false} SpanUsable(st: State, evs: seq<Event>, agent: Uuid)
    requires Inv(st) && agent in st.store.killedAgents && !Restores(evs, agent) && UsableHolders(st, agent) == {}
    ensures UsableHolders(After(st, evs), agent) <= PastCheckOf(st, agent)
  {
    if evs != [] {
      var front := evs[..|evs| - 1];
      NoRestoreBefore(evs, agent);
      SpanUsable(st, front, agent);
      SpanUnderKill(st, front, agent);
      InvAlways(st, front);
      StepUsable(After(st, front), evs[|evs| - 1], agent);
    }
  }

  /** Once the kill's second step has swept the token table, the usable tokens the agent's requests hold are, until
      a restore, those of requests that the kill did not stop at the rule check and that were past the agent check at
      the sweep. */
  lemma SweepLeavesOnlyLateWrites(rules: seq<Rule>, before: seq<Event>, agent: Uuid, early: seq<Event>,
                                  late: seq<Event>)
    requires !Restores(early, agent) && !Restores(late, agent)
    requires var killed := KilledState(rules, before, agent); Enabled(After(killed, early), Sweep(agent))
    ensures var killed := KilledState(rules, before, agent);
            var swept := Step(After(killed, early), Sweep(agent));
            UsableHolders(After(swept, late), agent) <= Unstopped(killed, agent) * PastCheckOf(swept, agent)
  {
    var killed := KilledState(rules, before, agent);
    InvAlways(Start(rules), before + [Kill(agent)]);
    AfterOne(Start(rules), before, Kill(agent));
    InvAlways(killed, early);
    SpanUnderKill(killed, early, agent);
    SweptState(After(killed, early), agent, late);
    LateWritesUnstopped(rules, before, agent, early, late);
  }

  lemma NoRestoreAround(early: seq<Event>, ev: Event, late: seq<Event>, agent: Uuid)
    requires !Restores(early, agent) && !Restores(late, agent) && ev != RemoveKill(agent)
    ensures !Restores(early + [ev], agent) && !Restores(early + [ev] + late, agent)
  {
    assert forall i :: 0 <= i < |early| ==> early[i] != RemoveKill(agent);
    assert forall i :: 0 <= i < |late| ==> late[i] != RemoveKill(agent);
  }

  lemma PastCheckHoldsNone(st: State, agent: Uuid)
    ensures TokenHolders(st, agent) * PastCheckOf(st, agent) == {}
  {
  }

  // Tokens that requests past the check at some later moment come to hold are new since the kill.
  lemma HeldLaterIsNew(killed: State, agent: Uuid, span: seq<Event>, end: State)
    requires agent in killed.store.killedAgents && !Restores(span, agent)
    ensures TokenHolders(end, agent) * PastCheckOf(After(killed, span), agent)
         <= TokenHolders(end, agent) - TokenHolders(killed, agent)
  {
    SpanUnderKill(killed, span, agent);
    PastCheckHoldsNone(After(killed, span), agent);
  }

  lemma LateWritesUnstopped(rules: seq<Rule>, before: seq<Event>, agent: Uuid, early: seq<Event>, late: seq<Event>)
    requires !Restores(early, agent) && !Restores(late, agent)
    ensures var killed := KilledState(rules, before, agent);
            var swept := Step(After(killed, early), Sweep(agent));
            TokenHolders(After(swept, late), agent) * PastCheckOf(swept, agent) <= Unstopped(killed, agent)
  {
    var killed := KilledState(rules, before, agent);
    AfterOne(killed, early, Sweep(agent));
    AfterConcat(killed, early + [Sweep(agent)], late);
    NoRestoreAround(early, Sweep(agent), late, agent);
    KillFlags(After(Start(rules), before), agent, "");
    HeldLaterIsNew(killed, agent, early + [Sweep(agent)], After(killed, early + [Sweep(agent)] + late));
    KillBoundsTokens(rules, before, agent, early + [Sweep(agent)] + late);
  }

  lemma SweptState(st: State, agent: Uuid, late: seq<Event>)
    requires Inv(st) && agent in st.store.killedAgents && !Restores(late, agent) && Enabled(st, Sweep(agent))
    ensures var swept := Step(st, Sweep(agent));
            PastCheckOf(swept, agent) == PastCheckOf(st, agent)
            && UsableHolders(After(swept, late), agent) <= PastCheckOf(swept, agent)
  {
    var swept := Step(st, Sweep(agent));
    SweepRevokes(st, agent);
    StepKeepsSessions(st, Sweep(agent));
    StepKeepsTokens(st, Sweep(agent));
    StepKeepsVerdicts(st, Sweep(agent));
    SpanUsable(swept, late, agent);
  }

  // ── The kill set over whole runs ──────────────────────────────────

  // The i-th event kills the agent, and none after it removes the kill.
  predicate KilledAt(evs: seq<Event>, agent: Uuid, i: nat) {
    i < |evs| && evs[i] == Kill(agent) && !Restores(evs[i..], agent)
  }

  // The last word on the agent, of kills and removals, is a kill.
  ghost predicate LastKilled(evs: seq<Event>, agent: Uuid) {
    exists i: nat :: KilledAt(evs, agent, i)
  }

  lemma StoreKills(st: State, ev: Event, agent: Uuid)
    requires Enabled(st, ev)
    ensures agent in NextStore(st, ev).killedAgents <==>
            ev == Kill(agent) || (agent in st.store.killedAgents && ev != RemoveKill(agent))
  {
  }

  lemma StepKills(st: State, ev: Event, agent: Uuid)
    ensures agent in Step(st, ev).store.killedAgents <==>
            ev == Kill(agent) || (agent in st.store.killedAgents && ev != RemoveKill(agent))
  {
    if Enabled(st, ev) {
      StoreKills(st, ev, agent);
    }
  }

  lemma OneMoreEvent(front: seq<Event>, ev: Event, agent: Uuid, i: nat)
    requires i < |front|
    ensures KilledAt(front + [ev], agent, i) <==> KilledAt(front, agent, i) && ev != RemoveKill(agent)
  {
    var evs := front + [ev];
    assert evs[i..] == front[i..] + [ev];
    if KilledAt(evs, agent, i) {
      NoRestoreBefore(evs[i..], agent);
      assert evs[i..][..|evs[i..]| - 1] == front[i..];
    } else if KilledAt(front, agent, i) && ev != RemoveKill(agent) {
      NoRestoreAround(front[i..], ev, [], agent);
    }
  }

  lemma LastWord(front: seq<Event>, ev: Event, agent: Uuid)
    ensures LastKilled(front + [ev], agent) <==>
            ev == Kill(agent) || (LastKilled(front, agent) && ev != RemoveKill(agent))
  {
    forall i: nat | i < |front| {
      OneMoreEvent(front, ev, agent, i);
    }
    if LastKilled(front, agent) && ev != RemoveKill(agent) {
      var i: nat :| KilledAt(front, agent, i);
      assert KilledAt(front + [ev], agent, i);
    }
    assert (front + [ev])[|front|..] == [ev];
    if ev == Kill(agent) {
      assert KilledAt(front + [ev], agent, |front|);
    }
  }

  /** In every run an agent is in the kill set exactly when, of the kills and removals of it, the last was a kill. */
  lemma {:induction false} KilledByHistory(rules: seq<Rule>, evs: seq<Event>, agent: Uuid)
    ensures agent in After(Start(rules), evs).store.killedAgents <==> LastKilled(evs, agent)
  {
    if evs != [] {
      var front, ev := evs[..|evs| - 1], evs[|evs| - 1];
      KilledByHistory(rules, front, agent);
      StepKills(After(Start(rules), front), ev, agent);
      LastWord(front, ev, agent);
      assert evs == front + [ev];
    }
  }

  /** An agent check refuses, without a token, exactly when the last word on the agent was a kill; after a removal, and
      before any kill, every request gets past it. */
  lemma AgentCheckExactly(rules: seq<Rule>, evs: seq<Event>, id: nat)
    requires Enabled(After(Start(rules), evs), CheckAgent(id))
    ensures var st := After(Start(rules), evs);
            var end := Step(st, CheckAgent(id));
            && At(end, id)
            && end.requests[id].phase
               == if LastKilled(evs, st.requests[id].ctx.agentId) then Returned(Deny, None) else AgentSeen
  {
    KilledByHistory(rules, evs, After(Start(rules), evs).requests[id].ctx.agentId);
    CheckedAgent(After(Start(rules), evs), id);
  }

  lemma CheckedAgent(st: State, id: nat)
    requires Enabled(st, CheckAgent(id))
    ensures var end := Step(st, CheckAgent(id));
            && At(end, id)
            && end.requests[id].phase
               == if st.requests[id].ctx.agentId in st.store.killedAgents then Returned(Deny, None) else AgentSeen
  {
  }

  // ── A killed session ──────────────────────────────────────────────

  lemma StoreKeepsKilled(st: State, ev: Event, sid: string)
    requires Enabled(st, ev) && Flagged(st, sid) && ev != ClearFlags(st.store.sessions[sid].agentId)
    ensures var sessions := NextStore(st, ev).sessions;
            sid in sessions && sessions[sid].killed && sessions[sid].agentId == st.store.sessions[sid].agentId
  {
  }

  lemma {:induction false} KilledSessionStays(st: State, evs: seq<Event>, sid: string)
    requires Flagged(st, sid) && forall i :: 0 <= i < |evs| ==> evs[i] != ClearFlags(st.store.sessions[sid].agentId)
    ensures Flagged(After(st, evs), sid)
    ensures After(st, evs).store.sessions[sid].agentId == st.store.sessions[sid].agentId
  {
    if evs != [] {
      var front, ev := evs[..|evs| - 1], evs[|evs| - 1];
      KilledSessionStays(st, front, sid);
      if Enabled(After(st, front), ev) {
        StoreKeepsKilled(After(st, front), ev, sid);
      }
    }
  }

  lemma ReadRefuses(st: State, id: nat, principal: Option<Uuid>, now: Instant)
    requires Enabled(st, ReadSession(id, principal, now)) && Flagged(st, st.requests[id].sessionId)
    ensures var end := Step(st, ReadSession(id, principal, now));
            At(end, id) && end.requests[id].phase == Returned(Deny, None)
  {
  }

  lemma SessionKillFlags(st: State, sid: string)
    requires sid in st.store.sessions
    ensures Flagged(Step(st, KillSession(sid)), sid)
    ensures Step(st, KillSession(sid)).store.sessions[sid].agentId == st.store.sessions[sid].agentId
  {
  }

  /** From the kill of a session on, every request that then comes to it is refused without a token, until the flags of
      its agent are cleared. */
  lemma SessionKillRefuses(st: State, sid: string, span: seq<Event>, id: nat, principal: Option<Uuid>, now: Instant)
    requires sid in st.store.sessions
    requires forall i :: 0 <= i < |span| ==> span[i] != ClearFlags(st.store.sessions[sid].agentId)
    requires var mid := After(Step(st, KillSession(sid)), span);
             Enabled(mid, ReadSession(id, principal, now)) && mid.requests[id].sessionId == sid
    ensures var end := Step(After(Step(st, KillSession(sid)), span), ReadSession(id, principal, now));
            At(end, id) && end.requests[id].phase == Returned(Deny, None)
  {
    SessionKillFlags(st, sid);
    KilledSessionStays(Step(st, KillSession(sid)), span, sid);
    ReadRefuses(After(Step(st, KillSession(sid)), span), id, principal, now);
  }

  // ── Reloads, revocations and spending over whole runs ─────────────

  // The rules of the latest reload, or else the first ones.
  function LatestRules(rules: seq<Rule>, evs: seq<Event>): seq<Rule> {
    if evs == [] then rules
    else if evs[|evs| - 1].Reload? then evs[|evs| - 1].rules
    else LatestRules(rules, evs[..|evs| - 1])
  }

  /** In every run the rules in force are those of the latest reload. */
  lemma {:induction false} RulesByHistory(rules: seq<Rule>, evs: seq<Event>)
    ensures After(Start(rules), evs).rules == LatestRules(rules, evs)
  {
    if evs != [] {
      RulesByHistory(rules, evs[..|evs| - 1]);
    }
  }

  lemma RowRevoked(st: State, jti: string)
    requires jti in st.tokens
    ensures Step(st, RevokeToken(jti)).tokens == st.tokens[jti := st.tokens[jti].(revoked := true)]
  {
  }

  lemma {:induction false} RowsKept(st: State, evs: seq<Event>, jti: string)
    requires jti in st.tokens
    ensures jti in After(st, evs).tokens && After(st, evs).tokens[jti].agentId == st.tokens[jti].agentId
    ensures st.tokens[jti].revoked ==> After(st, evs).tokens[jti].revoked
  {
    if evs != [] {
      RowsKept(st, evs[..|evs| - 1], jti);
      TokenKept(After(st, evs[..|evs| - 1]), evs[|evs| - 1], jti);
    }
  }

  /** A token row, once revoked, stays revoked whatever happens, and no other row is revoked with it. */
  lemma RevokedForGood(st: State, jti: string, evs: seq<Event>)
    requires jti in st.tokens
    ensures var revoked := Step(st, RevokeToken(jti));
            && jti in After(revoked, evs).tokens && After(revoked, evs).tokens[jti].revoked
            && revoked.tokens.Keys == st.tokens.Keys
            && forall j :: j in st.tokens && j != jti ==> revoked.tokens[j] == st.tokens[j]
  {
    RowRevoked(st, jti);
    RowsKept(Step(st, RevokeToken(jti)), evs, jti);
  }

  // What a run spends on a session.
  function SpentOn(evs: seq<Event>, sid: string): real {
    if evs == [] then 0.0 else
      var ev := evs[|evs| - 1];
      SpentOn(evs[..|evs| - 1], sid) + (if ev.Spend? && ev.sessionId == sid then ev.amount else 0.0)
  }

  lemma StoreSpends(st: State, ev: Event, sid: string)
    requires Enabled(st, ev) && sid in st.store.sessions
    ensures sid in NextStore(st, ev).sessions
    ensures NextStore(st, ev).sessions[sid].spendTotal
         == st.store.sessions[sid].spendTotal + if ev.Spend? && ev.sessionId == sid then ev.amount else 0.0
  {
  }

  /** No spending is lost or counted twice: whatever interleaves, a session's total grows by what is spent on it. */
  lemma {:induction false} SpendingAddsUp(st: State, evs: seq<Event>, sid: string)
    requires sid in st.store.sessions
    ensures sid in After(st, evs).store.sessions
    ensures After(st, evs).store.sessions[sid].spendTotal == st.store.sessions[sid].spendTotal + SpentOn(evs, sid)
  {
    if evs != [] {
      var mid, ev := After(st, evs[..|evs| - 1]), evs[|evs| - 1];
      SpendingAddsUp(st, evs[..|evs| - 1], sid);
      if Enabled(mid, ev) {
        StoreSpends(mid, ev, sid);
      }
    }
  }
}
