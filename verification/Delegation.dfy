/** Delegation of tokens: the handler, and what every token derived from a root carries. */
module Delegation {
  import opened Common
  import opened Scopes
  import opened Tokens

  function AgentName(id: Uuid): string {
    "agent:" + id
  }

  function UserName(email: string): string {
    "user:" + email
  }

  datatype DelegateRequest = DelegateRequest(parentGrantToken: AgentClaims, subAgentId: Uuid, scopes: seq<string>,
                                             expiresInSeconds: nat)

  function Chain(c: AgentClaims): seq<DelegationHop> {
    if c.act.delegationChain.Some? then c.act.delegationChain.value else []
  }

  // The first requested scope the parent does not have, if any.
  function Escalation(scopes: seq<string>, parent: seq<string>): Option<string> {
    if scopes == [] then None
    else if scopes[0] !in parent then Some(scopes[0])
    else Escalation(scopes[1..], parent)
  }

  function ChildParams(parent: AgentClaims, req: DelegateRequest, clock: Reads): IssueTokenParams {
    IssueTokenParams(
      parent.sub, AgentName(req.subAgentId), req.scopes, AgentName(req.subAgentId),
      EffectiveTtl(parent.exp, req.expiresInSeconds, clock), parent.act.delegationDepth + 1,
      Some(Chain(parent) + [DelegationHop(parent.sub, parent.act.sub)]), parent.constraints)
  }

  // The delegation handler as a function of the presented token, the caller, the request and the clock.
  function Delegated(req: DelegateRequest, caller: Uuid, issuer: string, maxDepth: nat, revoked: set<string>,
                     jti: string, clock: Reads): Result<AgentClaims, Error>
  {
    match Verified(req.parentGrantToken, issuer, Some(AgentName(caller)), clock.decodedAt, clock.verifiedAt, revoked)
    case Err(e) => Err(e)
    case Ok(parent) =>
      var escaping := Escalation(req.scopes, Words(parent.scope));
      if escaping.Some? then Err(ScopeEscalation(escaping.value, parent.scope))
      else if parent.act.delegationDepth + 1 > maxDepth then
        Err(DelegationDepthExceeded(maxDepth, parent.act.delegationDepth + 1))
      else Ok(Issue(issuer, ChildParams(parent, req, clock), jti, clock.iatAt, clock.expAt))
  }

  /** The handler: the checks in their order, the first escaping scope reported, the hop appended. */
  method Delegate(verifier: TokenVerifier, req: DelegateRequest, caller: Uuid, maxDepth: nat, jti: string, clock: Reads)
      returns (r: Result<AgentClaims, Error>)
    requires clock.InOrder()
    ensures r == Delegated(req, caller, verifier.issuer, maxDepth, verifier.revokedJtis, jti, clock)
  {
    var verified := verifier.Verify(req.parentGrantToken, Some(AgentName(caller)), clock.decodedAt, clock.verifiedAt);
    if verified.Err? {
      return Err(verified.error);
    }
    var parent := verified.value;
    var parentScopes := Words(parent.scope);
    var i := 0;
    while i < |req.scopes|
      invariant 0 <= i <= |req.scopes|
      invariant Escalation(req.scopes, parentScopes) == Escalation(req.scopes[i..], parentScopes)
    {
      if req.scopes[i] !in parentScopes {
        return Err(ScopeEscalation(req.scopes[i], parent.scope));
      }
      i := i + 1;
    }
    var newDepth := parent.act.delegationDepth + 1;
    if newDepth > maxDepth {
      return Err(DelegationDepthExceeded(maxDepth, newDepth));
    }
    var effectiveExpiry := Min(parent.exp * SECOND, clock.requestedAt + req.expiresInSeconds * SECOND);
    var effectiveTtl := Max(0, Truncated(effectiveExpiry - clock.ttlAt, SECOND));
    var chain := if parent.act.delegationChain.Some? then parent.act.delegationChain.value else [];
    chain := chain + [DelegationHop(parent.sub, parent.act.sub)];
    var params := IssueTokenParams(
      parent.sub, AgentName(req.subAgentId), req.scopes, AgentName(req.subAgentId), effectiveTtl, newDepth,
      Some(chain), parent.constraints);
    r := Ok(Issue(verifier.issuer, params, jti, clock.iatAt, clock.expAt));
  }

  lemma {:induction false} EscalationMeaning(scopes: seq<string>, parent: seq<string>)
    ensures Escalation(scopes, parent).None? <==> forall i :: 0 <= i < |scopes| ==> scopes[i] in parent
    ensures Escalation(scopes, parent).Some? ==>
              exists i :: 0 <= i < |scopes| && scopes[i] == Escalation(scopes, parent).value && scopes[i] !in parent
                          && forall j :: 0 <= j < i ==> scopes[j] in parent
  {
    if scopes != [] {
      var rest := scopes[1..];
      EscalationMeaning(rest, parent);
      assert forall i :: 0 < i < |scopes| ==> scopes[i] == rest[i - 1];
      if scopes[0] in parent && Escalation(scopes, parent).Some? {
        var i :| 0 <= i < |rest| && rest[i] == Escalation(rest, parent).value && rest[i] !in parent
                 && forall j :: 0 <= j < i ==> rest[j] in parent;
        assert scopes[i + 1] == rest[i];
      }
    }
  }

  /** A delegation succeeds exactly for a token addressed to the caller, not lapsed nor revoked, when every requested
      scope is a word of its scope and its depth is below the limit. */
  lemma DelegatesExactly(req: DelegateRequest, caller: Uuid, issuer: string, maxDepth: nat, revoked: set<string>,
                         jti: string, clock: Reads)
    requires clock.InOrder()
    ensures Delegated(req, caller, issuer, maxDepth, revoked, jti, clock).Ok? <==>
            var parent := req.parentGrantToken;
            && parent.iss == issuer && parent.aud == AgentName(caller)
            && clock.verifiedAt < (parent.exp + 1) * SECOND && parent.jti !in revoked
            && (forall i :: 0 <= i < |req.scopes| ==> req.scopes[i] in Words(parent.scope))
            && parent.act.delegationDepth < maxDepth
  {
    AcceptedExactly(req.parentGrantToken, issuer, Some(AgentName(caller)), clock.decodedAt, clock.verifiedAt, revoked);
    EscalationMeaning(req.scopes, Words(req.parentGrantToken.scope));
  }

  /** A delegated token is the recipient's: it names the sub-agent as actor and is addressed to it, carries what the
      parent carries, and lasts what the parent has left or what was asked for. Its verifier accepts it from the
      sub-agent and from nobody else, until it lapses or is revoked. */
  lemma DelegatedExactly(req: DelegateRequest, caller: Uuid, issuer: string, maxDepth: nat, revoked: set<string>,
                         jti: string, clock: Reads)
    requires clock.InOrder() && Delegated(req, caller, issuer, maxDepth, revoked, jti, clock).Ok?
    ensures var child := Delegated(req, caller, issuer, maxDepth, revoked, jti, clock).value;
            var parent := req.parentGrantToken;
            && child.act.sub == AgentName(req.subAgentId) && child.aud == AgentName(req.subAgentId)
            && child.sub == parent.sub && child.constraints == parent.constraints
            && child.act.delegationDepth == parent.act.delegationDepth + 1
            && Chain(child) == Chain(parent) + [DelegationHop(parent.sub, parent.act.sub)]
            && child.exp == ChildExp(parent.exp, req.expiresInSeconds, clock)
            && forall agent, decodedAt, now, later :: decodedAt <= now ==>
                 (Verified(child, issuer, Some(AgentName(agent)), decodedAt, now, later).Ok? <==>
                    agent == req.subAgentId && now < (child.exp + 1) * SECOND && jti !in later)
  {
    var child := Delegated(req, caller, issuer, maxDepth, revoked, jti, clock).value;
    forall agent, decodedAt, now, later | decodedAt <= now
      ensures Verified(child, issuer, Some(AgentName(agent)), decodedAt, now, later).Ok? <==>
                agent == req.subAgentId && now < (child.exp + 1) * SECOND && jti !in later
    {
      AcceptedExactly(child, issuer, Some(AgentName(agent)), decodedAt, now, later);
      NamesDiffer(agent, req.subAgentId);
    }
  }

  lemma NamesDiffer(a: Uuid, b: Uuid)
    ensures AgentName(a) == AgentName(b) <==> a == b
  {
    assert AgentName(a)[6..] == a && AgentName(b)[6..] == b;
  }

  /** Which error a refused delegation gets: the verifier's; then the first requested scope the parent lacks, with what
      the parent has; then the limit and the depth it would have reached. */
  lemma DelegationRefused(req: DelegateRequest, caller: Uuid, issuer: string, maxDepth: nat, revoked: set<string>,
                          jti: string, clock: Reads)
    requires clock.InOrder()
    ensures var r, parent := Delegated(req, caller, issuer, maxDepth, revoked, jti, clock), req.parentGrantToken;
            var verified := Verified(parent, issuer, Some(AgentName(caller)), clock.decodedAt, clock.verifiedAt,
                                     revoked);
            var had := Words(parent.scope);
            && (verified.Err? ==> r == verified)
            && (verified.Ok? ==>
                  && (forall i :: 0 <= i < |req.scopes| && req.scopes[i] !in had
                                  && (forall j :: 0 <= j < i ==> req.scopes[j] in had) ==>
                        r == Err(ScopeEscalation(req.scopes[i], parent.scope)))
                  && ((forall i :: 0 <= i < |req.scopes| ==> req.scopes[i] in had)
                      && parent.act.delegationDepth >= maxDepth ==>
                        r == Err(DelegationDepthExceeded(maxDepth, parent.act.delegationDepth + 1))))
  {
    EscalationMeaning(req.scopes, Words(req.parentGrantToken.scope));
  }

  // ── Every run of delegations ──────────────────────────────────────

  // An issued token, the token it was derived from, the agent that derived it, and the time that took.
  datatype Issued = Issued(claims: AgentClaims, parent: Option<nat>, caller: Uuid, clock: Reads)

  datatype Op =
    // a principal delegates to its agent
    | PrincipalRoot(email: string, agentId: Uuid, scopes: seq<string>, constraints: Option<string>, expiresIn: nat,
                    jti: string, clock: Reads)
    // an access request is allowed; the subject is the agent or its principal
    | AccessRoot(subject: string, agentId: Uuid, scopes: seq<string>, resource: string, constraints: Option<string>,
                 jti: string, clock: Reads)
    // an agent presents the parent-th token
    | Derive(parent: nat, caller: Uuid, subAgentId: Uuid, scopes: seq<string>, expiresIn: nat, revoked: set<string>,
             jti: string, clock: Reads)

  datatype Config = Config(issuer: string, maxDepth: nat, defaultTtl: nat, maxTtl: nat)

  function RootClaims(cfg: Config, op: Op): AgentClaims
    requires !op.Derive?
  {
    match op
    case PrincipalRoot(email, agentId, scopes, constraints, expiresIn, jti, clock) =>
      Issue(cfg.issuer, IssueTokenParams(UserName(email), AgentName(agentId), scopes, AgentName(agentId),
            if expiresIn <= cfg.maxTtl then expiresIn else cfg.maxTtl, 0, None, constraints),
            jti, clock.iatAt, clock.expAt)
    case AccessRoot(subject, agentId, scopes, resource, constraints, jti, clock) =>
      Issue(cfg.issuer, IssueTokenParams(subject, AgentName(agentId), scopes, resource,
            cfg.defaultTtl, 0, None, constraints),
            jti, clock.iatAt, clock.expAt)
  }

  function Apply(cfg: Config, ledger: seq<Issued>, op: Op): seq<Issued> {
    if !op.Derive? then ledger + [Issued(RootClaims(cfg, op), None, op.agentId, op.clock)]
    else if op.parent >= |ledger| || !op.clock.InOrder() then ledger
    else
      var req := DelegateRequest(ledger[op.parent].claims, op.subAgentId, op.scopes, op.expiresIn);
      match Delegated(req, op.caller, cfg.issuer, cfg.maxDepth, op.revoked, op.jti, op.clock)
      case Err(_) => ledger
      case Ok(claims) => ledger + [Issued(claims, Some(op.parent), op.caller, op.clock)]
  }

  function After(cfg: Config, ops: seq<Op>): seq<Issued> {
    if ops == [] then [] else Apply(cfg, After(cfg, ops[..|ops| - 1]), ops[|ops| - 1])
  }

  // How a token relates to the one it was derived from.
  ghost predicate Derived(cfg: Config, p: Issued, c: Issued) {
    && c.clock.InOrder()
    && p.claims.aud == AgentName(c.caller) && Seconds(c.clock.verifiedAt) <= p.claims.exp
    && (forall w :: w in Words(c.claims.scope) ==> w in Words(p.claims.scope))
    && c.claims.sub == p.claims.sub && c.claims.constraints == p.claims.constraints
    && c.claims.act.delegationDepth == p.claims.act.delegationDepth + 1 <= cfg.maxDepth
    && Chain(c.claims) == Chain(p.claims) + [DelegationHop(p.claims.sub, p.claims.act.sub)]
    && c.claims.aud == c.claims.act.sub
    && exists expiresIn: nat :: c.claims.exp == ChildExp(p.claims.exp, expiresIn, c.clock)
  }

  ghost predicate IsRoot(c: Issued) {
    c.parent.None? && c.claims.act.delegationDepth == 0 && Chain(c.claims) == []
  }

  ghost predicate Linked(cfg: Config, ledger: seq<Issued>, k: nat)
    requires k < |ledger|
  {
    if ledger[k].parent.None? then IsRoot(ledger[k])
    else ledger[k].parent.value < k && Derived(cfg, ledger[ledger[k].parent.value], ledger[k])
  }

  ghost predicate WellLinked(cfg: Config, ledger: seq<Issued>) {
    forall k :: 0 <= k < |ledger| ==> Linked(cfg, ledger, k)
  }

  /** The scopes of a delegated token, parsed, are exactly the list that was requested. */
  lemma DelegatedScopesParse(req: DelegateRequest, caller: Uuid, issuer: string, maxDepth: nat, revoked: set<string>,
                             jti: string, clock: Reads)
    requires clock.InOrder() && Delegated(req, caller, issuer, maxDepth, revoked, jti, clock).Ok?
    ensures Words(Delegated(req, caller, issuer, maxDepth, revoked, jti, clock).value.scope) == req.scopes
  {
    DelegatesExactly(req, caller, issuer, maxDepth, revoked, jti, clock);
    assert AllWords(req.scopes);
    RoundTripExact(req.scopes);
  }

  lemma DelegatedIsDerived(cfg: Config, p: Issued, req: DelegateRequest, caller: Uuid, revoked: set<string>,
                           jti: string, clock: Reads, parent: nat)
    requires clock.InOrder() && req.parentGrantToken == p.claims
    requires Delegated(req, caller, cfg.issuer, cfg.maxDepth, revoked, jti, clock).Ok?
    ensures Derived(cfg, p, Issued(Delegated(req, caller, cfg.issuer, cfg.maxDepth, revoked, jti, clock).value,
                                   Some(parent), caller, clock))
  {
    DelegatesExactly(req, caller, cfg.issuer, cfg.maxDepth, revoked, jti, clock);
    DelegatedScopesParse(req, caller, cfg.issuer, cfg.maxDepth, revoked, jti, clock);
    var child := Delegated(req, caller, cfg.issuer, cfg.maxDepth, revoked, jti, clock).value;
    assert child.exp == ChildExp(p.claims.exp, req.expiresInSeconds, clock);
  }

  lemma {:induction false} RunsAreLinked(cfg: Config, ops: seq<Op>)
    ensures WellLinked(cfg, After(cfg, ops))
  {
    if ops != [] {
      var ledger, op := After(cfg, ops[..|ops| - 1]), ops[|ops| - 1];
      var next := After(cfg, ops);
      RunsAreLinked(cfg, ops[..|ops| - 1]);
      forall k | 0 <= k < |next| ensures Linked(cfg, next, k) {
        if k < |ledger| {
          assert Linked(cfg, ledger, k);
        } else if op.Derive? {
          var req := DelegateRequest(ledger[op.parent].claims, op.subAgentId, op.scopes, op.expiresIn);
          DelegatedIsDerived(cfg, ledger[op.parent], req, op.caller, op.revoked, op.jti, op.clock, op.parent);
        }
      }
    }
  }

  // The tokens from the root to the k-th, in order.
  function Lineage(ledger: seq<Issued>, k: nat): (path: seq<nat>)
    ensures |path| > 0 && path[0] <= k == path[|path| - 1]
  {
    if k < |ledger| && ledger[k].parent.Some? && ledger[k].parent.value < k
    then Lineage(ledger, ledger[k].parent.value) + [k] else [k]
  }

  ghost predicate OnPath(ledger: seq<Issued>, path: seq<nat>) {
    && (forall i :: 0 <= i < |path| ==> path[i] < |ledger|)
    && (forall i :: 0 < i < |path| ==> ledger[path[i]].parent == Some(path[i - 1]))
    && |path| > 0 && ledger[path[0]].parent.None?
  }

  lemma {:induction false} LineageOnPath(cfg: Config, ledger: seq<Issued>, k: nat)
    requires WellLinked(cfg, ledger) && k < |ledger|
    ensures OnPath(ledger, Lineage(ledger, k))
  {
    assert Linked(cfg, ledger, k);
    if ledger[k].parent.Some? {
      LineageOnPath(cfg, ledger, ledger[k].parent.value);
    }
  }

  // Everything a token carries about the path that led to it.
  ghost predicate CarriesPath(cfg: Config, ledger: seq<Issued>, path: seq<nat>)
    requires OnPath(ledger, path)
  {
    var root, token := ledger[path[0]].claims, ledger[path[|path| - 1]].claims;
    && token.sub == root.sub && token.constraints == root.constraints
    && token.act.delegationDepth == |path| - 1 == |Chain(token)|
    && (|path| > 1 ==> |path| - 1 <= cfg.maxDepth && token.aud == token.act.sub)
    && (forall i :: 0 <= i < |path| - 1 ==> Chain(token)[i] == DelegationHop(root.sub, ledger[path[i]].claims.act.sub))
    && (forall i, w :: 0 <= i < |path| && w in Words(token.scope) ==> w in Words(ledger[path[i]].claims.scope))
  }

  /** Every token derived from a root by any run keeps the root's subject and constraints, has scope words among
      those of each of its ancestors, and a depth, within the limit, equal to the length of its chain; hop i of the
      chain names the actor of the i-th token on the way. */
  lemma {:induction false} TokenCarriesLineage(cfg: Config, ledger: seq<Issued>, k: nat)
    requires WellLinked(cfg, ledger) && k < |ledger|
    ensures OnPath(ledger, Lineage(ledger, k)) && CarriesPath(cfg, ledger, Lineage(ledger, k))
  {
    LineageOnPath(cfg, ledger, k);
    assert Linked(cfg, ledger, k);
    if ledger[k].parent.Some? {
      var p := ledger[k].parent.value;
      TokenCarriesLineage(cfg, ledger, p);
      var path, front := Lineage(ledger, k), Lineage(ledger, p);
      assert path == front + [k] && path[0] == front[0];
      assert Derived(cfg, ledger[p], ledger[k]);
    }
  }

  /** Hop i of a token's chain names the agent that made the i-th delegation, for every hop but possibly the first,
      and for the first exactly when the root is addressed to the agent it names as actor. */
  lemma HopsNameDelegators(cfg: Config, ops: seq<Op>, k: nat, i: nat)
    requires k < |After(cfg, ops)| && i + 1 < |Lineage(After(cfg, ops), k)|
    ensures var ledger := After(cfg, ops); var path := Lineage(ledger, k);
            && OnPath(ledger, path) && CarriesPath(cfg, ledger, path)
            && (Chain(ledger[k].claims)[i].act == AgentName(ledger[path[i + 1]].caller) <==>
                  i > 0 || ledger[path[0]].claims.aud == ledger[path[0]].claims.act.sub)
  {
    RunsAreLinked(cfg, ops);
    var ledger := After(cfg, ops);
    TokenCarriesLineage(cfg, ledger, k);
    var path := Lineage(ledger, k);
    assert Linked(cfg, ledger, path[i]) && Linked(cfg, ledger, path[i + 1]);
  }

  // ── Where a token comes from ──────────────────────────────────────

  // The operation of the run that issued the k-th token.
  function IssuedBy(cfg: Config, ops: seq<Op>, k: nat): (op: Op)
    requires k < |After(cfg, ops)|
  {
    if k < |After(cfg, ops[..|ops| - 1])| then IssuedBy(cfg, ops[..|ops| - 1], k) else ops[|ops| - 1]
  }

  // The operation that issued the root the k-th token derives from.
  function Origin(cfg: Config, ops: seq<Op>, k: nat): (op: Op)
    requires k < |After(cfg, ops)|
  {
    IssuedBy(cfg, ops, Lineage(After(cfg, ops), k)[0])
  }

  // A root is what its operation asked for.
  lemma {:induction false} RootIssued(cfg: Config, ops: seq<Op>, r: nat)
    requires r < |After(cfg, ops)| && After(cfg, ops)[r].parent.None?
    ensures var op := IssuedBy(cfg, ops, r);
            op in ops && !op.Derive? && After(cfg, ops)[r] == Issued(RootClaims(cfg, op), None, op.agentId, op.clock)
  {
    var front := ops[..|ops| - 1];
    if r < |After(cfg, front)| {
      RootIssued(cfg, front, r);
      assert forall op :: op in front ==> op in ops;
    }
  }

  lemma OriginIsRoot(cfg: Config, ops: seq<Op>, k: nat)
    requires k < |After(cfg, ops)|
    ensures WellLinked(cfg, After(cfg, ops)) && OnPath(After(cfg, ops), Lineage(After(cfg, ops), k))
    ensures CarriesPath(cfg, After(cfg, ops), Lineage(After(cfg, ops), k))
    ensures var op := Origin(cfg, ops, k);
            && op in ops && !op.Derive?
            && After(cfg, ops)[Lineage(After(cfg, ops), k)[0]]
               == Issued(RootClaims(cfg, op), None, op.agentId, op.clock)
  {
    RunsAreLinked(cfg, ops);
    TokenCarriesLineage(cfg, After(cfg, ops), k);
    RootIssued(cfg, ops, Lineage(After(cfg, ops), k)[0]);
  }

  /** Of every token derived from a principal's delegation, whatever else was issued in the run: the subject is that
      principal, the constraints and at most the scopes are those it delegated, and every hop of the chain names the
      agent that made that delegation. */
  lemma PrincipalRootsNameAll(cfg: Config, ops: seq<Op>, k: nat)
    requires k < |After(cfg, ops)| && Origin(cfg, ops, k).PrincipalRoot?
    ensures var ledger, root := After(cfg, ops), Origin(cfg, ops, k);
            var path, token := Lineage(ledger, k), ledger[k].claims;
            && OnPath(ledger, path) && |Chain(token)| == |path| - 1 == token.act.delegationDepth
            && token.sub == UserName(root.email) && token.constraints == root.constraints
            && (forall w :: w in Words(token.scope) ==> w in WordsOfAll(root.scopes))
            && forall h :: 0 <= h < |path| - 1 ==>
                 Chain(token)[h] == DelegationHop(UserName(root.email), AgentName(ledger[path[h + 1]].caller))
  {
    OriginIsRoot(cfg, ops, k);
    var ledger, root := After(cfg, ops), Origin(cfg, ops, k);
    var path := Lineage(ledger, k);
    ParsePrinted(root.scopes);
    forall h | 0 <= h < |path| - 1
      ensures Chain(ledger[k].claims)[h].act == AgentName(ledger[path[h + 1]].caller)
    {
      HopsNameDelegators(cfg, ops, k, h);
    }
  }

  lemma AccessRootAudience(cfg: Config, op: Op)
    requires op.AccessRoot?
    ensures RootClaims(cfg, op).aud == RootClaims(cfg, op).act.sub <==> op.resource == AgentName(op.agentId)
  {
  }

  // The delegations on a token's path, and whether the first of them is named.
  lemma FirstHop(cfg: Config, ops: seq<Op>, k: nat)
    requires k < |After(cfg, ops)| && |Lineage(After(cfg, ops), k)| > 1
    ensures var ledger := After(cfg, ops);
            var path := Lineage(ledger, k);
            && OnPath(ledger, path) && |Chain(ledger[k].claims)| == |path| - 1
            && (Chain(ledger[k].claims)[0].act == AgentName(ledger[path[1]].caller) <==>
                  ledger[path[0]].claims.aud == ledger[path[0]].claims.act.sub)
  {
    HopsNameDelegators(cfg, ops, k, 0);
  }

  /** A chain that starts at an access request names its first delegator exactly when the resource asked for was the
      requesting agent itself. */
  lemma AccessRootsNameExactly(cfg: Config, ops: seq<Op>, k: nat)
    requires k < |After(cfg, ops)| && Origin(cfg, ops, k).AccessRoot? && |Lineage(After(cfg, ops), k)| > 1
    ensures var ledger, root := After(cfg, ops), Origin(cfg, ops, k);
            var path := Lineage(ledger, k);
            && OnPath(ledger, path) && |Chain(ledger[k].claims)| == |path| - 1
            && (Chain(ledger[k].claims)[0].act == AgentName(ledger[path[1]].caller) <==>
                  root.resource == AgentName(root.agentId))
  {
    FirstHop(cfg, ops, k);
    OriginIsRoot(cfg, ops, k);
    AccessRootAudience(cfg, Origin(cfg, ops, k));
  }

  // A derived token is its recipient's, and was presented by the caller of its operation.
  lemma {:induction false} DerivedIssued(cfg: Config, ops: seq<Op>, k: nat)
    requires k < |After(cfg, ops)| && After(cfg, ops)[k].parent.Some?
    ensures var op, token := IssuedBy(cfg, ops, k), After(cfg, ops)[k];
            && op in ops && op.Derive? && token.parent == Some(op.parent) && token.caller == op.caller
            && token.claims.aud == AgentName(op.subAgentId) && token.claims.act.sub == AgentName(op.subAgentId)
  {
    var front, last := ops[..|ops| - 1], ops[|ops| - 1];
    if k < |After(cfg, front)| {
      DerivedIssued(cfg, front, k);
      assert forall op :: op in front ==> op in ops;
    } else {
      var ledger := After(cfg, front);
      var req := DelegateRequest(ledger[last.parent].claims, last.subAgentId, last.scopes, last.expiresIn);
      DelegatedExactly(req, last.caller, cfg.issuer, cfg.maxDepth, last.revoked, last.jti, last.clock);
    }
  }

  // Whom a root is issued to, and what it grants.
  lemma RootNames(cfg: Config, op: Op)
    requires !op.Derive?
    ensures var c := RootClaims(cfg, op);
            && c.act.sub == AgentName(op.agentId) && Words(c.scope) == WordsOfAll(op.scopes)
            && c.constraints == op.constraints
            && c.act.delegationDepth == 0 && Chain(c) == [] && c.iss == cfg.issuer && c.jti == op.jti
            && c.aud == (if op.PrincipalRoot? then AgentName(op.agentId) else op.resource)
            && c.sub == (if op.PrincipalRoot? then UserName(op.email) else op.subject)
  {
    ParsePrinted(op.scopes);
  }

  /** Along every path each delegation is made by the agent the one before named: the sub-agent of a delegation, the
      agent of a principal's root, or the agent that an access request's resource names. */
  lemma CallersAreNamed(cfg: Config, ops: seq<Op>, k: nat, h: nat)
    requires k < |After(cfg, ops)| && h + 1 < |Lineage(After(cfg, ops), k)|
    ensures var ledger := After(cfg, ops); var path := Lineage(ledger, k);
            && OnPath(ledger, path) && ledger[path[h + 1]].parent == Some(path[h])
            && var op, caller := IssuedBy(cfg, ops, path[h]), ledger[path[h + 1]].caller;
               && (h > 0 ==> op.Derive? && caller == op.subAgentId)
               && (h == 0 ==> !op.Derive?)
               && (op.PrincipalRoot? ==> caller == op.agentId)
               && (op.AccessRoot? ==> AgentName(caller) == op.resource)
  {
    RunsAreLinked(cfg, ops);
    var ledger := After(cfg, ops);
    LineageOnPath(cfg, ledger, k);
    var path := Lineage(ledger, k);
    assert Linked(cfg, ledger, path[h + 1]);
    PresentedBy(cfg, ops, path[h], ledger[path[h + 1]].caller);
  }

  lemma PresentedBy(cfg: Config, ops: seq<Op>, p: nat, caller: Uuid)
    requires p < |After(cfg, ops)| && After(cfg, ops)[p].claims.aud == AgentName(caller)
    ensures var op := IssuedBy(cfg, ops, p);
            && (op.Derive? <==> After(cfg, ops)[p].parent.Some?)
            && (op.Derive? ==> caller == op.subAgentId)
            && (op.PrincipalRoot? ==> caller == op.agentId)
            && (op.AccessRoot? ==> AgentName(caller) == op.resource)
  {
    var op := IssuedBy(cfg, ops, p);
    if After(cfg, ops)[p].parent.Some? {
      DerivedIssued(cfg, ops, p);
      NamesDiffer(caller, op.subAgentId);
    } else {
      RootIssued(cfg, ops, p);
      RootNames(cfg, op);
      NamesDiffer(caller, op.agentId);
    }
  }

  /** A token granted for the resource "agent:b" can be presented by b while it lasts, and then the first hop names the
      agent that asked for it instead. */
  lemma AccessRootMisnamesFirstHop(cfg: Config, a: Uuid, b: Uuid, rootJti: string, jti: string, rootClock: Reads,
                                   clock: Reads, revoked: set<string>)
    requires a != b && cfg.maxDepth >= 1 && clock.InOrder() && rootJti !in revoked
    requires Seconds(clock.verifiedAt) <= Seconds(rootClock.expAt) + cfg.defaultTtl
    ensures var ops := [AccessRoot(AgentName(a), a, [], AgentName(b), None, rootJti, rootClock),
                        Derive(0, b, b, [], 0, revoked, jti, clock)];
            var ledger := After(cfg, ops);
            && |ledger| == 2 && ledger[1].caller == b
            && Chain(ledger[1].claims) == [DelegationHop(AgentName(a), AgentName(a))]
            && AgentName(a) != AgentName(b)
  {
    var root := AccessRoot(AgentName(a), a, [], AgentName(b), None, rootJti, rootClock);
    var derive := Derive(0, b, b, [], 0, revoked, jti, clock);
    var ops := [root, derive];
    assert ops[..1] == [root] && [root][..0] == [];
    var first := [Issued(RootClaims(cfg, root), None, a, rootClock)];
    assert After(cfg, []) == [] && [] + first == first;
    assert After(cfg, [root]) == Apply(cfg, After(cfg, []), root) == first;
    var req := DelegateRequest(first[0].claims, b, [], 0);
    DelegatesExactly(req, b, cfg.issuer, cfg.maxDepth, revoked, jti, clock);
    assert After(cfg, ops) == Apply(cfg, first, derive);
    assert AgentName(a)[6..] == a && AgentName(b)[6..] == b;
  }

  // ── Expiry along a lineage ────────────────────────────────────────

  // The handler time of the delegations on the way, each rounded up to whole seconds.
  function Drift(ledger: seq<Issued>, path: seq<nat>): int
    requires forall i :: 0 <= i < |path| ==> path[i] < |ledger|
  {
    if |path| <= 1 then 0
    else
      var clock := ledger[path[|path| - 1]].clock;
      Drift(ledger, path[..|path| - 1]) + CeilSeconds(clock.expAt - clock.verifiedAt)
  }

  // Every delegation on the way was prompt.
  predicate AllPrompt(ledger: seq<Issued>, path: seq<nat>)
    requires forall i :: 0 <= i < |path| ==> path[i] < |ledger|
  {
    forall i :: 0 < i < |path| ==> Prompt(ledger[path[i - 1]].claims.exp, ledger[path[i]].clock)
  }

  lemma {:induction false} LineageExpiry(cfg: Config, ledger: seq<Issued>, k: nat)
    requires WellLinked(cfg, ledger) && k < |ledger|
    ensures OnPath(ledger, Lineage(ledger, k))
    ensures var path := Lineage(ledger, k); var root := ledger[path[0]].claims.exp;
            && ledger[k].claims.exp <= root + Drift(ledger, path)
            && (AllPrompt(ledger, path) ==> ledger[k].claims.exp <= root)
  {
    LineageOnPath(cfg, ledger, k);
    assert Linked(cfg, ledger, k);
    if ledger[k].parent.Some? {
      var p := ledger[k].parent.value;
      LineageExpiry(cfg, ledger, p);
      var path, front := Lineage(ledger, k), Lineage(ledger, p);
      assert path[..|path| - 1] == front && path[0] == front[0];
      var expiresIn: nat :| ledger[k].claims.exp == ChildExp(ledger[p].claims.exp, expiresIn, ledger[k].clock);
      ChildExpiryBound(ledger[p].claims.exp, expiresIn, ledger[k].clock);
      if AllPrompt(ledger, path) {
        assert forall i :: 0 <= i < |front| ==> front[i] == path[i];
        assert AllPrompt(ledger, front);
        assert path[|path| - 2] == p;
      }
    }
  }

  // The lifetime a root is issued with.
  function RootTtl(cfg: Config, op: Op): nat
    requires !op.Derive?
  {
    if op.PrincipalRoot? then Min(op.expiresIn, cfg.maxTtl) else cfg.defaultTtl
  }

  /** A principal's root lasts as long as asked for but at most the configured maximum, an access request's the
      configured default, counted from the whole second in which it was issued. */
  lemma RootExpiry(cfg: Config, ops: seq<Op>, r: nat)
    requires r < |After(cfg, ops)| && After(cfg, ops)[r].parent.None?
    ensures !IssuedBy(cfg, ops, r).Derive?
    ensures var op := IssuedBy(cfg, ops, r); After(cfg, ops)[r].claims.exp == Seconds(op.clock.expAt) + RootTtl(cfg, op)
  {
    RootIssued(cfg, ops, r);
  }

  /** Along any lineage the expiry exceeds the root's capped lifetime by at most the handler times, each rounded up,
      and not at all when every delegation on the way was prompt. */
  lemma ExpiryAlongLineage(cfg: Config, ops: seq<Op>, k: nat)
    requires k < |After(cfg, ops)|
    ensures var ledger, root := After(cfg, ops), Origin(cfg, ops, k);
            var path := Lineage(ledger, k);
            && OnPath(ledger, path) && !root.Derive?
            && var limit := Seconds(root.clock.expAt) + RootTtl(cfg, root);
               && ledger[k].claims.exp <= limit + Drift(ledger, path)
               && (AllPrompt(ledger, path) ==> ledger[k].claims.exp <= limit)
  {
    OriginIsRoot(cfg, ops, k);
    LineageExpiry(cfg, After(cfg, ops), k);
    RootExpiry(cfg, ops, Lineage(After(cfg, ops), k)[0]);
  }
}
