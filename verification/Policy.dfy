/** The rule engine: rules are tried in order, the first one that matches decides. */
module Policy {
  import opened Common
  import opened Glob
  import opened RateLimits
  import opened Sessions

  datatype AgentType = Service | Delegated | Autonomous

  datatype PolicyContext = PolicyContext(
    agentId: Uuid, agentType: AgentType, action: string, resource: string,
    requestedScopes: seq<string>, sessionId: Option<string>)

  // A constraint's value is its JSON text.
  datatype Constraint = Constraint(key: string, value: string)

  datatype Rule = Rule(
    name: string, agentTypes: seq<string>, actions: seq<string>, resources: seq<string>, scopes: seq<string>,
    decision: string, reason: string, constraints: seq<Constraint>,
    rateLimitPerMinute: Option<nat>, maxSpend: Option<real>, minTrustLevel: Option<real>,
    requirePriorAction: Option<string>, maxActionsInSession: Option<nat>)

  // Why an evaluation came out as it did; each case is one message of the engine.
  datatype Reason =
    | KilledSession
    | TooManyActions(count: nat, max: nat)
    | SpendCapReached(spend: real, cap: real)
    | TrustTooLow(trust: real, min: real)
    | PriorActionMissing(required: string)
    | RateLimitExceeded(key: string, max: nat)
    | StatedByRule(text: string)
    | NoMatchingPolicy

  datatype PolicyEvaluation = PolicyEvaluation(
    decision: Decision, approvedScopes: seq<string>, reason: Reason, constraints: seq<Constraint>)

  function TypeName(t: AgentType): string {
    match t
    case Service => "service"
    case Delegated => "delegated"
    case Autonomous => "autonomous"
  }

  predicate AnyMatches(patterns: seq<string>, value: string) {
    exists i :: 0 <= i < |patterns| && MatchPattern(patterns[i], value)
  }

  predicate Matches(rule: Rule, ctx: PolicyContext) {
    && (rule.agentTypes == [] || TypeName(ctx.agentType) in rule.agentTypes)
    && (rule.actions == [] || ctx.action in rule.actions)
    && (rule.resources == [] || AnyMatches(rule.resources, ctx.resource))
    && (|| rule.scopes == []
        || exists i :: 0 <= i < |ctx.requestedScopes| && AnyMatches(rule.scopes, ctx.requestedScopes[i]))
  }

  // The first failing session condition, if there is a session to check.
  function CheckTemporal(rule: Rule, session: Option<Session>): Option<Reason> {
    if session.None? then None else
      var s := session.value;
      if s.killed then Some(KilledSession)
      else if rule.maxActionsInSession.Some? && s.actionsCount >= rule.maxActionsInSession.value then
        Some(TooManyActions(s.actionsCount, rule.maxActionsInSession.value))
      else if rule.maxSpend.Some? && s.spendTotal >= rule.maxSpend.value then
        Some(SpendCapReached(s.spendTotal, rule.maxSpend.value))
      else if rule.minTrustLevel.Some? && s.trustLevel < rule.minTrustLevel.value then
        Some(TrustTooLow(s.trustLevel, rule.minTrustLevel.value))
      else if rule.requirePriorAction.Some?
              && !exists i :: 0 <= i < |s.trajectory| && s.trajectory[i].action == rule.requirePriorAction.value then
        Some(PriorActionMissing(rule.requirePriorAction.value))
      else None
  }

  // The session an evaluation looks at: none without a store or a session id.
  function SessionOf(view: Option<StoreView>, ctx: PolicyContext): Option<Session> {
    if view.Some? && ctx.sessionId.Some? then Lookup(view.value, ctx.sessionId.value) else None
  }

  function RateKey(sessionId: string, action: string, resource: string): string {
    sessionId + ":" + action + ":" + resource
  }

  // The limiter after a rule's check, and the refusal if there is one.
  function CheckRate(rule: Rule, ctx: PolicyContext, view: Option<StoreView>, now: Instant)
    : (Option<StoreView>, Option<Reason>)
  {
    if rule.rateLimitPerMinute.Some? && view.Some? && ctx.sessionId.Some? then
      var key := RateKey(ctx.sessionId.value, ctx.action, ctx.resource);
      var (limits, ok) := Charge(view.value.limits, key, rule.rateLimitPerMinute.value, now);
      (Some(view.value.(limits := limits)),
       if ok then None else Some(RateLimitExceeded(key, rule.rateLimitPerMinute.value)))
    else (view, None)
  }

  function RuleDecision(rule: Rule): Decision {
    if rule.decision == "allow" then Allow
    else if rule.decision == "deny" then Deny
    else if rule.decision == "require_approval" then RequireApproval(None, rule.reason)
    else Deny
  }

  function Approved(patterns: seq<string>, requested: seq<string>): seq<string> {
    if requested == [] then []
    else (if AnyMatches(patterns, requested[0]) then [requested[0]] else []) + Approved(patterns, requested[1..])
  }

  function Denied(reason: Reason): PolicyEvaluation {
    PolicyEvaluation(Deny, [], reason, [])
  }

  // What a rule grants once its conditions hold.
  function Concluded(rule: Rule, ctx: PolicyContext): PolicyEvaluation {
    PolicyEvaluation(
      RuleDecision(rule),
      if rule.scopes == [] then ctx.requestedScopes else Approved(rule.scopes, ctx.requestedScopes),
      StatedByRule(rule.reason),
      rule.constraints)
  }

  function FirstMatch(rules: seq<Rule>, ctx: PolicyContext): Option<Rule> {
    if rules == [] then None
    else if Matches(rules[0], ctx) then Some(rules[0])
    else FirstMatch(rules[1..], ctx)
  }

  function EvaluateRule(rule: Rule, ctx: PolicyContext, view: Option<StoreView>, now: Instant)
    : (PolicyEvaluation, Option<StoreView>)
  {
    var refusal := CheckTemporal(rule, SessionOf(view, ctx));
    if refusal.Some? then (Denied(refusal.value), view) else
      var (after, limited) := CheckRate(rule, ctx, view, now);
      (if limited.Some? then Denied(limited.value) else Concluded(rule, ctx), after)
  }

  // The engine as a function: take the first matching rule, else deny.
  function Evaluated(rules: seq<Rule>, ctx: PolicyContext, view: Option<StoreView>, now: Instant)
    : (PolicyEvaluation, Option<StoreView>)
  {
    match FirstMatch(rules, ctx)
    case None => (Denied(NoMatchingPolicy), view)
    case Some(rule) => EvaluateRule(rule, ctx, view, now)
  }

  class YamlEngine {
    var rules: seq<Rule>
    const store: SessionStore?

    constructor (store: SessionStore?)
      ensures rules == [] && this.store == store
    {
      rules := [];
      this.store := store;
    }

    // A file that does not parse leaves the rules in force.
    method LoadRules(parsed: Result<seq<Rule>, string>) returns (loaded: bool)
      modifies this
      ensures loaded == parsed.Ok?
      ensures rules == if loaded then parsed.value else old(rules)
    {
      if parsed.Err? {
        return false;
      }
      rules := parsed.value;
      loaded := true;
    }

    function Seen(): Option<StoreView>
      reads store, if store == null then {} else store.sessions.Values
    {
      if store == null then None else Some(store.View())
    }

    /** The loop over the rules computes the function, and changes nothing but the limiter. */
    method Evaluate(ctx: PolicyContext, now: Instant) returns (eval: PolicyEvaluation)
      requires store != null ==> store.Valid()
      modifies store
      ensures (eval, Seen()) == Evaluated(rules, ctx, old(Seen()), now)
      ensures store != null ==> store.Valid() && store.sessions == old(store.sessions)
    {
      var i := 0;
      while i < |rules|
        invariant 0 <= i <= |rules|
        invariant Seen() == old(Seen()) && (store != null ==> store.sessions == old(store.sessions))
        invariant FirstMatch(rules, ctx) == FirstMatch(rules[i..], ctx)
      {
        var rule := rules[i];
        if Matches(rule, ctx) {
          var session: Option<Session> := None;
          if store != null && ctx.sessionId.Some? {
            session := store.GetSession(ctx.sessionId.value);
          }
          var refusal := CheckTemporal(rule, session);
          if refusal.Some? {
            return Denied(refusal.value);
          }
          if rule.rateLimitPerMinute.Some? && store != null && ctx.sessionId.Some? {
            var key := RateKey(ctx.sessionId.value, ctx.action, ctx.resource);
            var ok := store.CheckRateLimit(key, rule.rateLimitPerMinute.value, now);
            if !ok {
              return Denied(RateLimitExceeded(key, rule.rateLimitPerMinute.value));
            }
          }
          return Concluded(rule, ctx);
        }
        i := i + 1;
      }
      eval := Denied(NoMatchingPolicy);
    }
  }

  // ── First match ───────────────────────────────────────────────────

  /** The rule that decides is the one at the least matching position. */
  lemma {:induction false} FirstMatchIsLeast(rules: seq<Rule>, ctx: PolicyContext)
    ensures FirstMatch(rules, ctx).None? <==> forall i :: 0 <= i < |rules| ==> !Matches(rules[i], ctx)
    ensures forall rule :: FirstMatch(rules, ctx) == Some(rule) ==>
              exists i :: 0 <= i < |rules| && rules[i] == rule && Matches(rule, ctx)
                          && forall j :: 0 <= j < i ==> !Matches(rules[j], ctx)
  {
    if rules != [] {
      var rest := rules[1..];
      FirstMatchIsLeast(rest, ctx);
      if !Matches(rules[0], ctx) {
        assert forall i :: 0 < i < |rules| ==> rules[i] == rest[i - 1];
        forall rule | FirstMatch(rules, ctx) == Some(rule)
          ensures exists i :: 0 <= i < |rules| && rules[i] == rule && Matches(rule, ctx)
                              && forall j :: 0 <= j < i ==> !Matches(rules[j], ctx)
        {
          var i :| 0 <= i < |rest| && rest[i] == rule && Matches(rule, ctx)
                   && forall j :: 0 <= j < i ==> !Matches(rest[j], ctx);
          assert rules[i + 1] == rule;
        }
      } else {
        assert FirstMatch(rules, ctx) == Some(rules[0]);
      }
    }
  }

  function Matching(rules: seq<Rule>, ctx: PolicyContext): seq<Rule> {
    if rules == [] then []
    else (if Matches(rules[0], ctx) then [rules[0]] else []) + Matching(rules[1..], ctx)
  }

  lemma {:induction false} FirstOfMatching(rules: seq<Rule>, ctx: PolicyContext)
    ensures FirstMatch(rules, ctx) == if Matching(rules, ctx) == [] then None else Some(Matching(rules, ctx)[0])
  {
    if rules != [] {
      FirstOfMatching(rules[1..], ctx);
      assert [] + Matching(rules[1..], ctx) == Matching(rules[1..], ctx);
    }
  }

  lemma {:induction false} MatchingConcat(a: seq<Rule>, b: seq<Rule>, ctx: PolicyContext)
    ensures Matching(a + b, ctx) == Matching(a, ctx) + Matching(b, ctx)
  {
    if a == [] {
      assert a + b == b;
    } else {
      assert (a + b)[1..] == a[1..] + b;
      MatchingConcat(a[1..], b, ctx);
    }
  }

  /** Rule lists with the same matching rules in the same order evaluate alike and charge alike: inserting,
      deleting or permuting rules that do not match is invisible. */
  lemma OnlyMatchingRulesCount(rules: seq<Rule>, others: seq<Rule>, ctx: PolicyContext, view: Option<StoreView>,
                               now: Instant)
    requires Matching(rules, ctx) == Matching(others, ctx)
    ensures Evaluated(rules, ctx, view, now) == Evaluated(others, ctx, view, now)
  {
    FirstOfMatching(rules, ctx);
    FirstOfMatching(others, ctx);
  }

  /** A rule that does not match may stand anywhere; after one that does, anything may follow. */
  lemma InsertedRule(before: seq<Rule>, rule: Rule, after: seq<Rule>, others: seq<Rule>, ctx: PolicyContext,
                     view: Option<StoreView>, now: Instant)
    ensures !Matches(rule, ctx) ==>
              Evaluated(before + [rule] + after, ctx, view, now) == Evaluated(before + after, ctx, view, now)
    ensures Matches(rule, ctx) ==>
              Evaluated(before + [rule] + after, ctx, view, now) == Evaluated(before + [rule] + others, ctx, view, now)
  {
    MatchingConcat(before, after, ctx);
    MatchingConcat(before, [rule], ctx);
    MatchingConcat(before + [rule], after, ctx);
    MatchingConcat(before + [rule], others, ctx);
    FirstOfMatching(before + [rule] + after, ctx);
    FirstOfMatching(before + [rule] + others, ctx);
    FirstOfMatching(before + after, ctx);
    assert [rule][1..] == [] && Matching([rule], ctx) == if Matches(rule, ctx) then [rule] else [];
  }

  /** An evaluation touches nothing but the limiter, and there charges at most one key, once. */
  lemma ChargesAtMostOnce(rules: seq<Rule>, ctx: PolicyContext, view: StoreView, now: Instant)
    ensures var after := Evaluated(rules, ctx, Some(view), now).1;
            && after.Some? && after.value.sessions == view.sessions && after.value.killedAgents == view.killedAgents
            && (|| after.value.limits == view.limits
                || (&& ctx.sessionId.Some?
                    && exists max: nat :: after.value.limits
                         == Charge(view.limits, RateKey(ctx.sessionId.value, ctx.action, ctx.resource), max, now).0))
    ensures forall key :: ctx.sessionId == None || key != RateKey(ctx.sessionId.value, ctx.action, ctx.resource) ==>
              var after := Evaluated(rules, ctx, Some(view), now).1.value.limits;
              (key in after <==> key in view.limits) && (key in after ==> after[key] == view.limits[key])
  {
    match FirstMatch(rules, ctx) {
      case None =>
      case Some(rule) =>
        if rule.rateLimitPerMinute.Some? && ctx.sessionId.Some? {
          var max := rule.rateLimitPerMinute.value;
          assert CheckRate(rule, ctx, Some(view), now).0.value.limits
              == Charge(view.limits, RateKey(ctx.sessionId.value, ctx.action, ctx.resource), max, now).0;
        }
    }
  }

  /** A request is allowed exactly when the first matching rule says so, the session meets its conditions
      and its limiter lets the call through. */
  lemma AllowedExactly(rules: seq<Rule>, ctx: PolicyContext, view: Option<StoreView>, now: Instant)
    ensures Evaluated(rules, ctx, view, now).0.decision == Allow <==>
            && FirstMatch(rules, ctx).Some?
            && var rule := FirstMatch(rules, ctx).value;
               rule.decision == "allow" && CheckTemporal(rule, SessionOf(view, ctx)).None?
               && CheckRate(rule, ctx, view, now).1.None?
  {
    if FirstMatch(rules, ctx).Some? {
      var rule := FirstMatch(rules, ctx).value;
      assert RuleDecision(rule) == Allow <==> rule.decision == "allow";
    }
  }

  // ── Approved scopes ───────────────────────────────────────────────

  // `a` is obtained from `b` by deleting elements.
  predicate Subsequence(a: seq<string>, b: seq<string>) {
    if a == [] then true
    else if b == [] then false
    else if a[0] == b[0] && Subsequence(a[1..], b[1..]) then true
    else Subsequence(a, b[1..])
  }

  /** The approved scopes are the requested ones that some pattern accepts, in their order. */
  lemma {:induction false} ApprovedExactly(patterns: seq<string>, requested: seq<string>)
    ensures Subsequence(Approved(patterns, requested), requested)
    ensures forall s :: s in Approved(patterns, requested) <==> s in requested && AnyMatches(patterns, s)
    ensures multiset(Approved(patterns, requested)) <= multiset(requested)
  {
    if requested != [] {
      ApprovedExactly(patterns, requested[1..]);
      assert requested == [requested[0]] + requested[1..];
      var all, rest := Approved(patterns, requested), Approved(patterns, requested[1..]);
      if AnyMatches(patterns, requested[0]) {
        assert all[1..] == rest;
      } else {
        assert all == rest;
      }
    }
  }

  /** Whatever the rules, no evaluation approves a scope that was not requested. */
  lemma ApprovesOnlyRequested(rules: seq<Rule>, ctx: PolicyContext, view: Option<StoreView>, now: Instant)
    ensures Subsequence(Evaluated(rules, ctx, view, now).0.approvedScopes, ctx.requestedScopes)
  {
    SubsequenceReflexive(ctx.requestedScopes);
    match FirstMatch(rules, ctx) {
      case None =>
      case Some(rule) => ApprovedExactly(rule.scopes, ctx.requestedScopes);
    }
  }

  lemma {:induction false} SubsequenceReflexive(a: seq<string>)
    ensures Subsequence(a, a)
  {
    if a != [] {
      SubsequenceReflexive(a[1..]);
    }
  }

  // ── Tightening ────────────────────────────────────────────────────

  // t is s killed, or with more actions, more spend or less trust.
  predicate Tighter(t: Session, s: Session) {
    && (s.killed ==> t.killed)
    && t.actionsCount >= s.actionsCount && t.spendTotal >= s.spendTotal && t.trustLevel <= s.trustLevel
    && t.trajectory == s.trajectory
  }

  /** A tighter session changes an evaluation only into a refusal that approves nothing and charges nothing. */
  lemma TighteningNeverLoosens(rules: seq<Rule>, ctx: PolicyContext, v: StoreView, w: StoreView, now: Instant)
    requires w.limits == v.limits
    requires SessionOf(Some(v), ctx).Some? ==>
               SessionOf(Some(w), ctx).Some? && Tighter(SessionOf(Some(w), ctx).value, SessionOf(Some(v), ctx).value)
    ensures var (e, after) := Evaluated(rules, ctx, Some(v), now);
            var (f, tight) := Evaluated(rules, ctx, Some(w), now);
            || (f == e && tight.value.limits == after.value.limits)
            || (f.decision == Deny && f.approvedScopes == [] && f.constraints == [] && tight.value.limits == v.limits)
  {
    match FirstMatch(rules, ctx) {
      case None =>
      case Some(rule) =>
        TighterConditions(rule, SessionOf(Some(w), ctx), SessionOf(Some(v), ctx));
    }
  }

  lemma TighterConditions(rule: Rule, t: Option<Session>, s: Option<Session>)
    requires s.Some? ==> t.Some? && Tighter(t.value, s.value)
    ensures CheckTemporal(rule, s).Some? ==> CheckTemporal(rule, t).Some?
  {
  }

  // ── Limiter keys ──────────────────────────────────────────────────

  // Keys whose session ids and actions contain no colon differ unless the requests are the same.
  lemma KeyNamesRequest(s: string, a: string, r: string, s': string, a': string, r': string)
    requires ':' !in s && ':' !in s' && ':' !in a && ':' !in a' && RateKey(s, a, r) == RateKey(s', a', r')
    ensures s == s' && a == a' && r == r'
  {
    assert RateKey(s, a, r) == s + (":" + (a + (":" + r)));
    assert RateKey(s', a', r') == s' + (":" + (a' + (":" + r')));
    FirstColon(s, a + (":" + r), s', a' + (":" + r'));
    FirstColon(a, r, a', r');
  }

  lemma {:induction false} FirstColon(x: string, rest: string, x': string, rest': string)
    requires ':' !in x && ':' !in x'
    requires x + (":" + rest) == x' + (":" + rest')
    ensures x == x' && rest == rest'
  {
    var k, k' := x + (":" + rest), x' + (":" + rest');
    assert k[0] == k'[0];
    if x == "" || x' == "" {
      assert k[|x|] == ':' && k'[|x'|] == ':';
      assert k[1..] == rest && k'[1..] == rest';
    } else {
      assert k[1..] == x[1..] + (":" + rest) && k'[1..] == x'[1..] + (":" + rest');
      FirstColon(x[1..], rest, x'[1..], rest');
    }
  }

  /** Two requests with one limiter key are the same request exactly when their session ids and actions are of equal
      length. */
  lemma SameKeyExactly(s: string, a: string, r: string, s': string, a': string, r': string)
    requires RateKey(s, a, r) == RateKey(s', a', r')
    ensures s == s' && a == a' && r == r' <==> |s| == |s'| && |a| == |a'|
  {
    if |s| == |s'| && |a| == |a'| {
      KeyParts(s, a, r);
      KeyParts(s', a', r');
    }
  }

  // Where the parts of a key stand in it.
  lemma KeyParts(s: string, a: string, r: string)
    ensures var key := RateKey(s, a, r);
            && |key| == |s| + |a| + |r| + 2 && key[..|s|] == s
            && key[|s| + 1..|s| + 1 + |a|] == a && key[|s| + |a| + 2..] == r
  {
  }

  lemma KeyColons(s: string, a: string, r: string)
    ensures multiset(RateKey(s, a, r))[':'] == multiset(s)[':'] + multiset(a)[':'] + multiset(r)[':'] + 2
  {
  }

  // Four words with colons between them can be read as a key in three ways.
  lemma KeyReadings(u: string, v: string, w: string, z: string)
    ensures RateKey(u + ":" + v, w, z) == RateKey(u, v + ":" + w, z) == RateKey(u, v, w + ":" + z)
  {
    assert u + ":" + (v + ":" + w) == u + ":" + v + ":" + w;
    assert u + ":" + v + ":" + (w + ":" + z) == u + ":" + v + ":" + w + ":" + z;
  }

  /** With a colon in an action two different requests share a counter. */
  lemma KeysCanCollide()
    ensures RateKey("s", "a:b", "c") == RateKey("s", "a", "b:c")
  {
    KeyReadings("s", "a", "b", "c");
    assert "a" + ":" + "b" == "a:b" && "b" + ":" + "c" == "b:c";
  }

  lemma CutAtColon(s: string) returns (before: string, after: string)
    requires ':' in s
    ensures s == before + ":" + after
  {
    var i :| 0 <= i < |s| && s[i] == ':';
    before, after := s[..i], s[i + 1..];
  }

  // A colon in any part can be taken for a separator.
  lemma ColonGivesAnother(s: string, a: string, r: string) returns (s': string, a': string, r': string)
    requires ':' in s || ':' in a || ':' in r
    ensures RateKey(s', a', r') == RateKey(s, a, r) && |s'| != |s|
  {
    if ':' in s {
      var u, v := CutAtColon(s);
      KeyReadings(u, v, a, r);
      s', a', r' := u, v, a + ":" + r;
    } else if ':' in a {
      var v, w := CutAtColon(a);
      KeyReadings(s, v, w, r);
      s', a', r' := s + ":" + v, w, r;
    } else {
      var w, z := CutAtColon(r);
      KeyReadings(s, a, w, z);
      s', a', r' := s + ":" + a, w, z;
    }
  }

  lemma WithoutColonsOwned(s: string, a: string, r: string, s': string, a': string, r': string)
    requires ':' !in s && ':' !in a && ':' !in r && RateKey(s', a', r') == RateKey(s, a, r)
    ensures s' == s && a' == a && r' == r
  {
    KeyColons(s, a, r);
    KeyColons(s', a', r');
    assert multiset(s')[':'] == multiset(a')[':'] == 0;
    KeyNamesRequest(s, a, r, s', a', r');
  }

  // No other request shares the key.
  ghost predicate OwnsKey(s: string, a: string, r: string) {
    forall s', a', r' :: RateKey(s', a', r') == RateKey(s, a, r) ==> s' == s && a' == a && r' == r
  }

  /** A request has its limiter key to itself exactly when there is no colon in its session id, action or resource. */
  lemma OwnsKeyExactly(s: string, a: string, r: string)
    ensures OwnsKey(s, a, r) <==> ':' !in s && ':' !in a && ':' !in r
  {
    if ':' in s || ':' in a || ':' in r {
      var s', a', r' := ColonGivesAnother(s, a, r);
      assert !OwnsKey(s, a, r);
    } else {
      forall s', a', r' | RateKey(s', a', r') == RateKey(s, a, r) ensures s' == s && a' == a && r' == r {
        WithoutColonsOwned(s, a, r, s', a', r');
      }
    }
  }

  // ── What an evaluation means, from the fields of the rules ────────

  // One of the rule's lists is not empty and has nothing for the request.
  predicate Rejects(rule: Rule, ctx: PolicyContext) {
    || (rule.agentTypes != []
        && !(ctx.agentType == Service && "service" in rule.agentTypes)
        && !(ctx.agentType == Delegated && "delegated" in rule.agentTypes)
        && !(ctx.agentType == Autonomous && "autonomous" in rule.agentTypes))
    || (rule.actions != [] && ctx.action !in rule.actions)
    || (rule.resources != []
        && forall i :: 0 <= i < |rule.resources| ==> !MatchPattern(rule.resources[i], ctx.resource))
    || (rule.scopes != []
        && forall i, j :: 0 <= i < |rule.scopes| && 0 <= j < |ctx.requestedScopes| ==>
             !MatchPattern(rule.scopes[i], ctx.requestedScopes[j]))
  }

  lemma NoScopeMatches(patterns: seq<string>, requested: seq<string>)
    ensures (forall i :: 0 <= i < |requested| ==> !AnyMatches(patterns, requested[i])) <==>
            forall i, j :: 0 <= i < |patterns| && 0 <= j < |requested| ==> !MatchPattern(patterns[i], requested[j])
  {
    if forall i, j :: 0 <= i < |patterns| && 0 <= j < |requested| ==> !MatchPattern(patterns[i], requested[j]) {
    } else {
      var i, j :| 0 <= i < |patterns| && 0 <= j < |requested| && MatchPattern(patterns[i], requested[j]);
      assert AnyMatches(patterns, requested[j]);
    }
  }

  /** A rule matches exactly the requests that none of its non-empty lists rejects. */
  lemma MatchesExactly(rule: Rule, ctx: PolicyContext)
    ensures Matches(rule, ctx) <==> !Rejects(rule, ctx)
  {
    NoScopeMatches(rule.scopes, ctx.requestedScopes);
  }

  // The i-th rule is the first that does not reject the request.
  predicate DecidesAt(rules: seq<Rule>, ctx: PolicyContext, i: nat) {
    i < |rules| && !Rejects(rules[i], ctx) && forall j :: 0 <= j < i ==> Rejects(rules[j], ctx)
  }

  lemma DecidesLater(rules: seq<Rule>, ctx: PolicyContext, i: nat)
    requires rules != [] && Rejects(rules[0], ctx)
    ensures DecidesAt(rules, ctx, i) <==> i > 0 && DecidesAt(rules[1..], ctx, i - 1)
  {
    if i > 0 && DecidesAt(rules[1..], ctx, i - 1) {
      forall j | 0 <= j < i ensures Rejects(rules[j], ctx) {
        if j > 0 {
          assert Rejects(rules[1..][j - 1], ctx);
        }
      }
    }
    if i > 0 && DecidesAt(rules, ctx, i) {
      forall j | 0 <= j < i - 1 ensures Rejects(rules[1..][j], ctx) {
        assert Rejects(rules[j + 1], ctx);
      }
    }
  }

  lemma {:induction false} FirstMatchDecides(rules: seq<Rule>, ctx: PolicyContext) returns (i: nat)
    ensures FirstMatch(rules, ctx).None? <==> forall j :: 0 <= j < |rules| ==> Rejects(rules[j], ctx)
    ensures FirstMatch(rules, ctx).Some? ==> DecidesAt(rules, ctx, i) && FirstMatch(rules, ctx) == Some(rules[i])
  {
    i := 0;
    if rules != [] {
      MatchesExactly(rules[0], ctx);
      if Rejects(rules[0], ctx) {
        var k := FirstMatchDecides(rules[1..], ctx);
        i := k + 1;
        DecidesLater(rules, ctx, i);
        assert forall j :: 0 < j < |rules| ==> rules[j] == rules[1..][j - 1];
      }
    }
  }

  lemma OneDecides(rules: seq<Rule>, ctx: PolicyContext, i: nat)
    requires DecidesAt(rules, ctx, i)
    ensures FirstMatch(rules, ctx) == Some(rules[i])
    ensures forall k: nat :: DecidesAt(rules, ctx, k) ==> k == i
  {
    var j := FirstMatchDecides(rules, ctx);
  }

  // What a rule asks of a session.
  predicate Meets(s: Session, rule: Rule) {
    && !s.killed
    && (rule.maxActionsInSession.Some? ==> s.actionsCount < rule.maxActionsInSession.value)
    && (rule.maxSpend.Some? ==> s.spendTotal < rule.maxSpend.value)
    && (rule.minTrustLevel.Some? ==> rule.minTrustLevel.value <= s.trustLevel)
    && (rule.requirePriorAction.Some? ==>
          exists i :: 0 <= i < |s.trajectory| && s.trajectory[i].action == rule.requirePriorAction.value)
  }

  /** The conditions fail exactly when the session is not what the rule asks for, and the reason given is the first of
      them in the order: kill, actions, spend, trust, prior action. */
  lemma ConditionsExactly(rule: Rule, s: Session)
    ensures CheckTemporal(rule, None).None?
    ensures CheckTemporal(rule, Some(s)).None? <==> Meets(s, rule)
    ensures CheckTemporal(rule, Some(s)) == Some(KilledSession) <==> s.killed
    ensures var calm := Meets(s, rule.(maxSpend := None, minTrustLevel := None, requirePriorAction := None));
            rule.maxActionsInSession.Some? ==>
              (CheckTemporal(rule, Some(s)) == Some(TooManyActions(s.actionsCount, rule.maxActionsInSession.value))
               <==> !s.killed && !calm)
    ensures var calm := Meets(s, rule.(maxSpend := None, minTrustLevel := None, requirePriorAction := None));
            rule.maxSpend.Some? ==>
              (CheckTemporal(rule, Some(s)) == Some(SpendCapReached(s.spendTotal, rule.maxSpend.value))
               <==> calm && rule.maxSpend.value <= s.spendTotal)
    ensures var calm := Meets(s, rule.(minTrustLevel := None, requirePriorAction := None));
            rule.minTrustLevel.Some? ==>
              (CheckTemporal(rule, Some(s)) == Some(TrustTooLow(s.trustLevel, rule.minTrustLevel.value))
               <==> calm && s.trustLevel < rule.minTrustLevel.value)
    ensures rule.requirePriorAction.Some? ==>
              (CheckTemporal(rule, Some(s)) == Some(PriorActionMissing(rule.requirePriorAction.value))
               <==> Meets(s, rule.(requirePriorAction := None)) && !Meets(s, rule))
  {
  }

  // The request's session, if it has one, meets what the rule asks for.
  predicate SessionMeets(rule: Rule, ctx: PolicyContext, view: Option<StoreView>) {
    view.Some? && ctx.sessionId.Some? && ctx.sessionId.value in view.value.sessions ==>
      Meets(view.value.sessions[ctx.sessionId.value], rule)
  }

  // The rule charges the limiter.
  predicate Limits(rule: Rule, ctx: PolicyContext, view: Option<StoreView>) {
    rule.rateLimitPerMinute.Some? && view.Some? && ctx.sessionId.Some?
  }

  // The call it makes.
  function LimitCall(rule: Rule, ctx: PolicyContext, view: StoreView, now: Instant): (map<string, Window>, bool)
    requires Limits(rule, ctx, Some(view))
  {
    Charge(view.limits, RateKey(ctx.sessionId.value, ctx.action, ctx.resource), rule.rateLimitPerMinute.value, now)
  }

  // No condition and no limit of the rule refuses the request.
  predicate Concludes(rule: Rule, ctx: PolicyContext, view: Option<StoreView>, now: Instant) {
    && SessionMeets(rule, ctx, view)
    && (Limits(rule, ctx, view) ==> LimitCall(rule, ctx, view.value, now).1)
  }

  lemma SessionMeetsExactly(rule: Rule, ctx: PolicyContext, view: Option<StoreView>)
    ensures CheckTemporal(rule, SessionOf(view, ctx)).None? <==> SessionMeets(rule, ctx, view)
  {
    if SessionOf(view, ctx).Some? {
      ConditionsExactly(rule, SessionOf(view, ctx).value);
    }
  }

  /** The default denial is the answer exactly when every rule has a non-empty list that rejects the request. */
  lemma DefaultDenyExactly(rules: seq<Rule>, ctx: PolicyContext, view: Option<StoreView>, now: Instant)
    ensures Evaluated(rules, ctx, view, now).0 == Denied(NoMatchingPolicy) <==>
            forall i :: 0 <= i < |rules| ==> Rejects(rules[i], ctx)
    ensures (forall i :: 0 <= i < |rules| ==> Rejects(rules[i], ctx)) ==> Evaluated(rules, ctx, view, now).1 == view
  {
    var i := FirstMatchDecides(rules, ctx);
  }

  // The pattern list is empty or accepts the scope.
  predicate AcceptsScope(patterns: seq<string>, scope: string) {
    patterns == [] || exists k :: 0 <= k < |patterns| && MatchPattern(patterns[k], scope)
  }

  // The approved scopes are the requested ones that the rule accepts, each as often and in the same order.
  ghost predicate RightScopes(approved: seq<string>, rule: Rule, requested: seq<string>) {
    && Subsequence(approved, requested)
    && forall s :: multiset(approved)[s] == if AcceptsScope(rule.scopes, s) then multiset(requested)[s] else 0
  }

  lemma {:induction false} ApprovedRight(rule: Rule, requested: seq<string>)
    requires rule.scopes != []
    ensures RightScopes(Approved(rule.scopes, requested), rule, requested)
  {
    ApprovedExactly(rule.scopes, requested);
    if requested != [] {
      var rest := requested[1..];
      ApprovedRight(rule, rest);
      assert requested == [requested[0]] + rest;
      assert AnyMatches(rule.scopes, requested[0]) <==> AcceptsScope(rule.scopes, requested[0]);
    }
  }

  lemma ConcludedRight(rule: Rule, ctx: PolicyContext)
    ensures RightScopes(Concluded(rule, ctx).approvedScopes, rule, ctx.requestedScopes)
  {
    if rule.scopes == [] {
      SubsequenceReflexive(ctx.requestedScopes);
    } else {
      ApprovedRight(rule, ctx.requestedScopes);
    }
  }

  // What the words of a rule stand for; any other word denies.
  predicate RightDecision(d: Decision, rule: Rule) {
    && (d == Allow <==> rule.decision == "allow")
    && (d.RequireApproval? <==> rule.decision == "require_approval")
    && (d.RequireApproval? ==> d == RequireApproval(None, rule.reason))
  }

  /** The first rule that does not reject the request decides. If the session is what it asks for and its limit lets
      the call through, the answer is its decision, reason and constraints, with the requested scopes it accepts; if
      not, the answer is a denial that approves nothing. */
  lemma DecidedExactly(rules: seq<Rule>, ctx: PolicyContext, view: Option<StoreView>, now: Instant, i: nat)
    requires DecidesAt(rules, ctx, i)
    ensures var e := Evaluated(rules, ctx, view, now).0;
            if Concludes(rules[i], ctx, view, now) then
              && RightDecision(e.decision, rules[i]) && RightScopes(e.approvedScopes, rules[i], ctx.requestedScopes)
              && e.reason == StatedByRule(rules[i].reason) && e.constraints == rules[i].constraints
            else
              && e.decision == Deny && e.approvedScopes == [] && e.constraints == []
              && (SessionMeets(rules[i], ctx, view) ==>
                    && Limits(rules[i], ctx, view)
                    && e.reason == RateLimitExceeded(RateKey(ctx.sessionId.value, ctx.action, ctx.resource),
                                                     rules[i].rateLimitPerMinute.value))
  {
    OneDecides(rules, ctx, i);
    SessionMeetsExactly(rules[i], ctx, view);
    ConcludedRight(rules[i], ctx);
  }

  /** The limiter is charged, for the request's key under the deciding rule's limit, exactly when that rule has one and
      the session is what it asks for; nothing else changes. */
  lemma ChargedExactly(rules: seq<Rule>, ctx: PolicyContext, view: StoreView, now: Instant, i: nat)
    requires DecidesAt(rules, ctx, i)
    ensures Evaluated(rules, ctx, Some(view), now).1
         == if Limits(rules[i], ctx, Some(view)) && SessionMeets(rules[i], ctx, Some(view))
            then Some(view.(limits := LimitCall(rules[i], ctx, view, now).0)) else Some(view)
  {
    OneDecides(rules, ctx, i);
    SessionMeetsExactly(rules[i], ctx, Some(view));
  }

  /** A request is allowed exactly when some rule that says "allow" does not reject it, every earlier rule does, the
      session is what the rule asks for, and its limit lets the call through. */
  lemma AllowedByFields(rules: seq<Rule>, ctx: PolicyContext, view: Option<StoreView>, now: Instant)
    ensures Evaluated(rules, ctx, view, now).0.decision == Allow <==>
            exists i: nat :: DecidesAt(rules, ctx, i) && rules[i].decision == "allow"
                             && Concludes(rules[i], ctx, view, now)
  {
    var i := FirstMatchDecides(rules, ctx);
    if FirstMatch(rules, ctx).Some? {
      OneDecides(rules, ctx, i);
      DecidedExactly(rules, ctx, view, now, i);
    }
  }
}
