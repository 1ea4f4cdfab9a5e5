# Patroclus: a verified model of the authorization core

Patroclus decides what an AI agent may do. An agent asks for access; a rule engine, a session store and an emergency
stop decide; an allowed request gets a token; tokens are delegated from agent to agent; grants form a tree that a
revocation cascades through; every decision that comes after the kill checks goes into a hash-chained audit log. This
project models that core in Dafny and proves what it guarantees. `dafny verify dfyconfig.toml` checks all of it.

## How it is organised

| file | part of the system |
|---|---|
| `Common.dfy` | identifiers, decisions, and time in nanoseconds |
| `Scopes.dfy`, `Glob.dfy` | the scope claim's printer and parser; pattern matching |
| `RateLimits.dfy`, `Sessions.dfy` | the fixed-window limiter; sessions, trust, and the emergency stop |
| `Policy.dfy` | the first-match rule engine |
| `Access.dfy`, `CapReached.dfy`, `Handler.dfy` | access decisions as interleaved steps; the cap's exactness; the handlers |
| `LimitedRuns.dfy`, `AuditedRuns.dfy` | the limiter and the audit log over whole interleaved runs |
| `Grants.dfy` | the grant table and cascading revocation |
| `Tokens.dfy`, `Delegation.dfy` | claims, verification, expiry; delegation and its lineage |
| `Audit.dfy` | the audit chain's appender and verifier, and what an intact chain binds |
| `Pkce.dfy` | the store of pending logins |

What the source updates in place is a class whose methods are proved against functions on values; the main results
are lemmas about those functions, over every input, every history or every interleaving.

**Interleaving.** `request_access` is not atomic. Each of its lock acquisitions and database calls is one step of the
transition system in `Access`. The steps of any number of requests interleave with kills, restores (two steps each),
session kills, spending, rule reloads, dry runs, other issuers and failures. An event that cannot happen in a state
leaves it alone, so *every* sequence of events is a run. `Handler` connects the code to this: the handler run with
nothing in between does exactly those steps, its two-step evaluation being the engine of `Policy`. `LimitedRuns`
reads the limiter calls off such a run; `AuditedRuns` keeps the audit log beside one.

**Time and hashing.** Every clock read is a parameter of its own. The digest is a function parameter. Where a result
needs it to be good, `Audit.Reliable` says so of the payload strings at hand only: they do not collide, none hashes
to the genesis value, and digests have the genesis value's length.

## Results that differ from what one might expect

- Under rules capping a session at n actions, up to n + k - 1 requests are allowed when k are in flight (none under a
  cap of 0), and for every n and every k >= 1 some run gets that far. The cap is n only for one request at a time.
- A closed minute lets through at most 2 * max(1, m) - 1 calls per key under limits of at most m, one fewer than two full windows, because
  a window begins with an accepted call. This is reached for every m. A limit of 0 lets through what a limit of 1 does.
- A request has its limiter counter to itself exactly when no colon occurs in its session id, action or resource.
- Accepting a pattern as a string is containment of languages, except for a starred pattern against itself with one
  more star; `s**` accepts `s*`, `s*` accepts `s`, and `s**` does not accept `s`.
- A delegated token outlives its parent for some requested lifetime exactly when the whole second in which its
  expiry is read is past the parent's expiry, or past the time the lifetime was computed, rounded up. One second
  between the two reads is the exact margin.
- Every hop of a chain names the agent that delegated, except that hop 0 of a token derived from an access request does
  so exactly if the resource of that request was the requesting agent itself.
- A kill keeps an agent's sessions flagged until a restore exactly if no earlier restore of it is between its two steps.
  The kill set is what holds unconditionally.
- `recent_actions` is the timestamp filter exactly when nothing old follows the first recent event. Timestamps are
  taken before the session lock, so concurrent requests can record out of order.
- The audit chain binds hashed byte strings, not fields: after any log, any entry can be written with a character moved
  across the boundary of action and resource and leave the same hash. Fields are bound exactly when both rows cut alike.
- A last audit row whose hash is recomputed after an edit goes unnoticed, and no other row does.
- A decay raises trust exactly when an earlier one past the threshold found more whole idle periods, a period costs
  something, and the periods found now do not cost all trust: trust lost in one idle spell comes back in a shorter one.
- Creating a grant under a revoked parent is what breaks "no live grant below a revoked one", and nothing else does.

## Model

| member | source | states |
|---|---|---|
| Access.ActionCap | src/api/routes.rs:283-375 | In every interleaving with at most k requests in flight on a session, at most n + k - 1 ever return allow under rules capping its actions at n (n when sequential), and none under a cap of 0 |
| Access.CapInvariant | src/session/mod.rs:46-54 | The run invariant behind the cap: allowed requests already counted never outnumber the counter, and those past the check stay within that bound |
| Access.PassedUnderCap | src/policy/yaml_engine.rs:133-140 | A request is let past only while the counter is below the cap |
| CapReached.CapIsReached | src/api/routes.rs:283-375 | For every cap n and every k of at least 1 a run with at most k in flight allows exactly as many as the bound: it cannot be lowered |
| Access.KillRefusesRequests | src/api/routes.rs:250-271 | From a kill to a restore's removal step, every request of the agent whose agent check falls in between is refused for good without a token, for any session and whatever an older restore does to flags |
| Access.KillBoundsTokens | src/api/routes.rs:318-331 | In that span the agent's requests that get a token are among, and no more than, those past the agent check at the kill that it does not stop at the rule check: past that too, or an earlier restore's second step is pending, or on another agent's session |
| Access.SpanUnderKill | src/session/mod.rs:133-147 | Throughout the span the agent stays killed, no request newly passes the check, and no token is taken from a request |
| Access.SweepLeavesOnlyLateWrites | src/db/mod.rs:1068-1077 | After the kill's sweep the usable tokens of the agent's requests belong to requests the kill did not stop at the rule check and that were past the agent check at the sweep |
| Access.FlagLastsExactly | src/session/mod.rs:133-161 | After a kill a session of the agent stays flagged in every run until a restore's removal step if and only if, at the kill, no restore of the agent is between its two steps |
| Access.StaleRestoreClearsFlags | src/session/mod.rs:151-161 | The concrete case: a kill between the two steps of a restore leaves the agent killed with its sessions unflagged, so only the agent-level check is unconditional |
| Access.InvAlways | src/api/routes.rs:244-392 | In every run: a request past its first step has its session, carries a token exactly if allowed, and that token is in the table, its own agent's and no other request's |
| Access.ResponsesStay | src/api/routes.rs:391 | A response once sent is never altered by anything that happens later |
| Access.KilledByHistory | src/session/mod.rs:133-154 | In every run an agent is in the kill set if and only if the last of its kills and removals was a kill |
| Access.AgentCheckExactly | src/api/routes.rs:263-271 | In every run an agent check refuses, without a token, if and only if that is so; after a removal, until the next kill, every request gets past it |
| Access.SessionKillRefuses | src/session/mod.rs:203-210 | From the kill of a session on every request that comes to it is refused without a token, until the flags of its agent are cleared |
| Access.RulesByHistory | src/policy/yaml_engine.rs:75-80 | In every run the rules in force are those of the latest reload |
| Access.RevokedForGood | src/db/mod.rs:1044-1051 | A revoked token row stays revoked whatever happens, and no other row is revoked with it |
| Access.SpendingAddsUp | src/session/mod.rs:189-194 | In every interleaving a session's spend grows by exactly what is spent on it |
| Handler.AnsweredExactly | src/api/routes.rs:250-302 | Stopped by a kill check, by all rules rejecting, by a condition or by the limit, a request is denied with no scopes; otherwise it is answered as the first rule that does not reject it says, with exactly the requested scopes that rule accepts, as often and in order |
| Handler.RequestLeaves | src/api/routes.rs:244-375 | A lone request adds one action, with the decision it is answered, to its own session and one unrevoked row of its agent exactly when allowed, or nothing but its session when a kill check stops it; no other session, row or kill changes |
| Handler.AppState.RequestAccess | src/api/routes.rs:244-392 | The handler with nothing in between performs exactly the steps of one request, answers as the rules and the store it found say, and returns a token if and only if it allows |
| Handler.AppState.Admit | src/api/routes.rs:244-271 | The two kill checks, in their order, are the session and agent steps; refused requests leave nothing behind but their session |
| Handler.AppState.Decide | src/api/routes.rs:273-283 | The evaluation is the rule step followed by the limiter step, and returns what the engine says of the store it found |
| Handler.AppState.RecordToken | src/api/routes.rs:293-340 | The write step: one new row, of the request's agent, exactly for an allowed request |
| Handler.AppState.Finish | src/api/routes.rs:367-391 | The action is counted in the session, then the response is sent |
| Handler.EvaluationSteps | src/policy/yaml_engine.rs:216-285 | The separate session and limiter critical sections of an evaluation, run together, are the first-match engine |
| Handler.AppState.KillAgent | src/api/routes.rs:1010-1023 | The kill handler is the emergency stop followed by the sweep of the token table |
| Handler.KillLeaves | src/api/routes.rs:1016-1023 | The kill handler leaves the agent killed, all its sessions flagged and exactly its token rows revoked besides those revoked before |
| Handler.AppState.RestoreAgent | src/api/routes.rs:1245-1249 | The restore handler is the removal step followed by the clearing of the flags |
| Handler.RestoreLeaves | src/api/routes.rs:1249 | The restore handler leaves the agent out of the kill set and none of its sessions flagged; revoked token rows stay revoked |
| Policy.YamlEngine.Evaluate | src/policy/yaml_engine.rs:216-285 | The loop over the rules computes first-match evaluation and changes nothing but the limiter |
| Policy.FirstMatchIsLeast | src/policy/yaml_engine.rs:217-218 | The deciding rule stands at the least matching position, and there is none exactly when no rule matches |
| Policy.MatchesExactly | src/policy/yaml_engine.rs:82-120 | A rule matches if and only if none of its non-empty lists of agent types, actions, resources and scopes rejects the request |
| Policy.DefaultDenyExactly | src/policy/yaml_engine.rs:279-284 | The default denial is the answer, with nothing charged, if and only if every rule has a non-empty list that rejects the request |
| Policy.DecidedExactly | src/policy/yaml_engine.rs:217-276 | The first rule that does not reject decides: its decision, reason, constraints and accepted scopes if the session is what it asks for and its limit lets the call through, else a denial that approves nothing |
| Policy.AllowedByFields | src/policy/yaml_engine.rs:216-245 | Allowed if and only if some rule says allow, does not reject the request while every earlier one does, and its conditions and limit hold |
| Policy.ConditionsExactly | src/policy/yaml_engine.rs:122-176 | The session conditions hold if and only if the session is unkilled, under the action and spend caps, at the trust asked for and has the prior action; the reason names the first that fails |
| Policy.ChargedExactly | src/policy/yaml_engine.rs:178-188 | The limiter is charged, for the request's key under the deciding rule's limit, exactly when that rule has a limit and the session is what it asks for |
| Policy.OnlyMatchingRulesCount | src/policy/yaml_engine.rs:216-285 | Rule lists with the same matching rules in order give the same result and the same limiter: inserting, deleting or permuting the others is invisible |
| Policy.InsertedRule | src/policy/yaml_engine.rs:216-285 | A non-matching rule may stand anywhere; behind a matching one the rest may be replaced by anything |
| Policy.ChargesAtMostOnce | src/policy/yaml_engine.rs:178-188 | An evaluation leaves sessions and kills alone and charges at most one limiter key, once; every other key keeps its window |
| Policy.ApprovedExactly | src/policy/yaml_engine.rs:247-259 | Approved scopes are exactly the requested ones some pattern accepts, in order and without new repetitions |
| Policy.ApprovesOnlyRequested | src/policy/yaml_engine.rs:247-259 | No evaluation approves a scope that was not requested |
| Policy.TighteningNeverLoosens | src/policy/yaml_engine.rs:122-176 | A session that is killed, or has more actions, more spend or less trust, gives the same evaluation and charge, or a denial that approves and charges nothing |
| Policy.SameKeyExactly | src/policy/yaml_engine.rs:182 | Two requests with one limiter key are the same request if and only if their session ids and their actions have equal lengths |
| Policy.KeysCanCollide | src/policy/yaml_engine.rs:182 | The concrete input: with a colon in an action two different requests share a counter |
| Policy.OwnsKeyExactly | src/policy/yaml_engine.rs:182 | No other request shares a request's limiter key if and only if there is no colon in its session id, action or resource |
| Glob.MatchMeaning | src/policy/yaml_engine.rs:191-211 | The cascade of branches means equality, or a trailing star whose stem is a prefix of the value |
| Glob.AcceptsExactlyContainment | src/policy/yaml_engine.rs:191-211 | For all patterns, q accepts p as a string if and only if p's language is contained in q's, or q is the starred p plus one star (and then it is not contained) |
| Glob.AcceptsIsContainment | src/policy/yaml_engine.rs:191-211 | When q's only star is last, accepting is containment of languages |
| Glob.TransitivityExact | src/policy/yaml_engine.rs:191-211 | Of two acceptances in a row, the composed one fails exactly when the outer pattern is the starred middle plus a star and the value does not extend the middle |
| Glob.Transitive | src/policy/yaml_engine.rs:191-211 | Matching is transitive when the outer pattern's only star is last |
| Glob.DoubleStarBreaksTransitivity | src/policy/yaml_engine.rs:207-209 | The concrete failure at a doubled star |
| RateLimits.WindowBound | src/session/mod.rs:226-244 | A window has let through exactly as many calls as it has seen, up to max(1, m), and at least one |
| RateLimits.SpanBound | src/session/mod.rs:220-256 | In any closed 60-second span of any call sequence with a clock that never goes back at most 2 * max(1, m) - 1 calls for a key are let through under limits of at most m, whatever limits its other calls carry |
| RateLimits.SpanBoundReached | src/session/mod.rs:227-253 | For every limit some sequence reaches that bound, so the code meets no smaller one |
| RateLimits.LetThroughExactly | src/session/mod.rs:225-254 | A call is let through if and only if it opens a window, every earlier opening for its key being more than a minute old, or the calls since the opening of a window at most a minute old, refused ones included, are within its limit |
| RateLimits.RefusedExactly | src/session/mod.rs:227-243 | Refusals never prolong a window: a refused call comes at most a minute after a call for its key that was let through, since when the key has seen at least the limit |
| RateLimits.KeysIndependent | src/session/mod.rs:225-254 | A key's window and acceptances are those of its own calls alone |
| LimitedRuns.RequestsPerMinute | src/policy/yaml_engine.rs:178-188 | In every interleaved run, in any closed minute at most 2 * max(1, m) - 1 requests for a key are let past limits of at most m, also when reloads, other rules or dry runs charge the key under other limits |
| LimitedRuns.RunCharges | src/session/mod.rs:220-256 | After any run the shared limiter is what the run's limiter calls, in lock order, make of an empty one, and the requests let past are among the calls accepted |
| Sessions.SessionStore.CheckRateLimit | src/session/mod.rs:220-256 | The store's limiter is the one whose bounds are proved, and touches one key |
| Sessions.SessionState.RecordAction | src/session/mod.rs:46-54 | Appends, counts and drops so that the newest thousand remain |
| Sessions.BoundedTrajectory | src/session/mod.rs:46-54 | After any actions the trajectory is the last min(N, 1000) of them while the counter has risen by N |
| Sessions.SessionState.RecentActions | src/session/mod.rs:80-88 | The scan finds the suffix from the first event at or after the cutoff |
| Sessions.RecentIsFilterExact | src/session/mod.rs:80-88 | That suffix is the timestamp filter if and only if nothing old follows the first recent event |
| Sessions.RecentIsFilter | src/session/mod.rs:80-88 | On time-ordered histories it is the timestamp filter |
| Sessions.SessionState.ApplyTrustDecay | src/session/mod.rs:64-74 | Past the threshold trust becomes a function of idle time alone; before it nothing changes |
| Sessions.LifeAddsUp | src/session/mod.rs:46-74 | Over any life the counter is the number of actions, the spend the sum, the trajectory the last 1000 actions in order, and nothing but trust and last activity changes besides |
| Sessions.ActivityHoldsTrust | src/session/mod.rs:64-70 | A decay applies if and only if a whole minute past the threshold has gone by since the last action |
| Sessions.PeriodsExactly | src/session/mod.rs:70-71 | A decay finds k periods if and only if the idle minutes are past the threshold and exceed it by k whole thresholds |
| Sessions.DecayByPeriods | src/session/mod.rs:72 | It then leaves 1 less k times the rate, or 0, and touches nothing but trust |
| Sessions.DecayDependsOnLast | src/session/mod.rs:68-74 | Without activity, any sequence of decays equals the last of them that came past the threshold |
| Sessions.TrustNeverRises | src/session/mod.rs:68-74 | From the first decay past a positive threshold on, with a rate of at least 0, trust stays in [0, 1] and never rises while idle |
| Sessions.TrustOfLife | src/session/mod.rs:46-74 | Over any life of actions, spending and decays trust is full until a decay past the threshold, and then a function of the last such decay's whole idle periods |
| Sessions.DecayRaisesExactly | src/session/mod.rs:68-74 | After any life, with a positive threshold and a rate of at least 0, a decay raises trust if and only if it comes past the threshold, the last one that did found more whole periods, the rate is positive, and periods times rate stays below 1 |
| Sessions.ShortIdleRestoresTrust | src/session/mod.rs:70-73 | A decay past the threshold but before twice it sets trust to 1, whatever it was |
| Sessions.SessionStore.KillAgent | src/session/mod.rs:133-142 | Adds the agent to the kill set and flags exactly its sessions |
| Sessions.SessionStore.FlagSessions | src/session/mod.rs:156-160 | The loop over the sessions sets the flag on exactly those of the agent |
| Sessions.SessionStore.RestoreAgent | src/session/mod.rs:151-161 | The two sections in sequence; flags set by a session kill are cleared too |
| Sessions.KilledExactly | src/session/mod.rs:133-142 | A kill adds one agent to the kill set and flags exactly its sessions, changing nothing else |
| Sessions.RestoredExactly | src/session/mod.rs:151-161 | A restore removes one agent from the kill set and leaves none of its sessions flagged, changing nothing else |
| Sessions.RestoreUndoesKill | src/session/mod.rs:133-161 | A restore undoes a kill if and only if neither the agent nor any of its sessions was killed before |
| Sessions.OneSessionExactly | src/session/mod.rs:163-210 | Killing a session flags it alone; opening one creates it only if absent, fresh and with full trust, and touches no other |
| Sessions.SessionStore.GetOrCreateSession | src/session/mod.rs:163-176 | Returns the session of that id, made fresh and unkilled with full trust only if absent; other sessions are untouched and shared with nobody |
| Sessions.SessionStore.RecordAction | src/session/mod.rs:182-187 | Changes the one session, if there is one |
| Sessions.SessionStore.KillSession | src/session/mod.rs:203-210 | Flags the one session and says whether it exists |
| Grants.GrantTable.RevokeGrant | src/db/mod.rs:986-1008 | The recursive revocation ends on arbitrary, even cyclic, pointers; it returns the preorder of the live tree below the argument and stamps exactly that list's live rows, each between call and return, changing no other row and no earlier stamp |
| Grants.CascadeExact | src/db/mod.rs:986-1008 | The list is headed by the argument, has no duplicates and otherwise holds exactly the grants live and reaching it through live grants; exactly its live members stop being live |
| Grants.PreorderExact | src/db/mod.rs:995-1005 | Listed if and only if the root, or climbing to it through live grants |
| Grants.PreorderNoDuplicates | src/db/mod.rs:995-1005 | No grant is listed twice |
| Grants.ParentListedFirst | src/db/mod.rs:994-1004 | Every listed grant but the head stands after its parent |
| Grants.PreorderIgnoresOthers | src/db/mod.rs:1000-1005 | Revoking grants outside a tree does not change what its cascade lists, so the loop over children selected beforehand is sound |
| Grants.RevokeIdempotent | src/db/mod.rs:986-1008 | Revoking again lists the argument only and revokes nothing |
| Grants.GrantTable.Mark | src/db/mod.rs:989-993 | Stamps the row if present and live; an earlier stamp is kept |
| Grants.GrantTable.SelectLiveChildren | src/db/mod.rs:995-999 | Selects exactly the live rows under the grant, in row order |
| Grants.GrantTable.CreateGrant | src/db/mod.rs:866-897 | Adds one live, revocable row under the given parent, with no check of that parent |
| Grants.CreateKeepsClosed | src/db/mod.rs:866-897 | Creation keeps "no live grant has a revoked parent" if and only if the new grant's parent is not a revoked row |
| Grants.CreatedFollowsParent | src/db/mod.rs:866-1008 | A new grant to which no row points is revoked by a cascade if and only if its parent is the cascade's head or live below it |
| Grants.RevokeKeepsClosed | src/db/mod.rs:986-1008 | Revocation always keeps it |
| Grants.HistoryKeepsClosed | src/db/mod.rs:866-1008 | So does every history from the empty table in which parents are live when a child is created |
| Grants.NoLiveGrantUnderRevoked | src/db/mod.rs:866-1008 | After any such history no live grant has a revoked ancestor at any depth |
| Scopes.ParsePrinted | src/token/issuer.rs:60 | Parsing a printed scope list gives the words of each scope in order |
| Scopes.JoinedBySpaces | src/token/issuer.rs:60 | The printer puts exactly one space between two lists and nothing around a single scope |
| Scopes.RoundTripExact | src/token/issuer.rs:60 | Printing and parsing is the identity exactly on lists of non-empty scopes without white space |
| Scopes.WordsSplitAtWhite | src/api/routes.rs:481-485 | The parser splits a text at any white space into the words before and after it |
| Tokens.TokenVerifier.Verify | src/token/verifier.rs:43-74 | The checks in their order: the decoder's expiry with leeway, issuer, audience, the exact expiry, the revoked set |
| Tokens.AcceptedExactly | src/token/verifier.rs:43-74 | Accepted if and only if issued here, for the audience asked for, before the second after its expiry, and not revoked: the decoder's leeway never shows |
| Tokens.RefusedExactly | src/token/verifier.rs:51-71 | Which error a refused token gets: expired by more than a minute, then wrong issuer or audience, then expired, then revoked |
| Tokens.IssuedTokenVerifies | src/token/issuer.rs:47-67 | An issued token is accepted exactly for its audience, within its lifetime and until revoked, then parses to its scopes exactly when each is one word, and says the second it was issued in |
| Tokens.TtlBound | src/api/routes.rs:505-509 | A child's lifetime is at most what the parent has left, in whole seconds, and equals it when more is requested |
| Tokens.ChildExpExactly | src/api/routes.rs:505-509 | A child expires after what the parent has left or what was asked for, whichever is less in whole seconds, and never before the second it is issued in |
| Tokens.ChildExpiryBound | src/api/routes.rs:505-531 | A prompt delegation never outlives its parent; any delegation of an accepted token does so by at most its handler time rounded up |
| Tokens.NeverOutlivesExactly | src/token/mod.rs:56-58 | No requested lifetime outlives the parent if and only if the whole second in which the expiry is read is at most the parent's expiry and at most the time the lifetime was computed, rounded up |
| Tokens.SlowDelegationOutlives | src/token/mod.rs:56-58 | For every gap of a second or more between the two clock reads some delegation outlives its parent |
| Delegation.Delegate | src/api/routes.rs:466-531 | The handler's checks in order with the first escaping scope reported, the hop appended and the child addressed to its recipient |
| Delegation.EscalationMeaning | src/api/routes.rs:487-494 | The reported scope is the first requested one the parent lacks; none is reported exactly when the parent has all |
| Delegation.DelegatesExactly | src/api/routes.rs:477-503 | Succeeds if and only if the token is of this issuer, addressed to the caller, neither lapsed nor revoked, has every requested scope as a word, and is below the depth limit |
| Delegation.DelegatedExactly | src/api/routes.rs:511-529 | A child names the sub-agent as actor and is addressed to it, carries the parent's subject and constraints one hop deeper, and its verifier accepts it from the sub-agent and nobody else, until it lapses or is revoked |
| Delegation.DelegationRefused | src/api/routes.rs:478-503 | Which error a refused delegation gets: the verifier's, then the first scope the parent lacks with what the parent has, then the limit and the depth |
| Delegation.DelegatedScopesParse | src/api/routes.rs:481-521 | A child's parsed scopes are exactly the list requested |
| Delegation.RunsAreLinked | src/api/routes.rs:466-577 | In every run each token is a root or properly derived from an earlier one |
| Delegation.TokenCarriesLineage | src/api/routes.rs:511-529 | A derived token keeps the root's subject and constraints, has scope words within each ancestor's, and depth = chain length within the limit; hop i names the i-th token's actor |
| Delegation.HopsNameDelegators | src/api/routes.rs:474-515 | Hop i names the agent that made the i-th delegation if and only if i > 0 or the root is addressed to its own actor |
| Delegation.CallersAreNamed | src/api/routes.rs:474-480 | Along every path each delegation is made by the agent the one before named: the sub-agent of a delegation, the agent of a principal's root, or the agent an access request's resource names |
| Delegation.PrincipalRootsNameAll | src/api/routes.rs:631-643 | Whatever else a run issues, a token derived from a principal's delegation has that principal as subject, its constraints, scope words within its scopes, and a chain in which every hop i names the agent that made the i-th delegation |
| Delegation.AccessRootsNameExactly | src/api/routes.rs:294-304 | A chain that starts at an access request names its first delegator if and only if the resource asked for was the requesting agent itself |
| Delegation.AccessRootMisnamesFirstHop | src/api/routes.rs:294-304 | The concrete case, at any time and with any identifiers: a token granted for another agent's name as resource can be delegated by that agent while it lasts, and hop 0 then names the requester |
| Delegation.ExpiryAlongLineage | src/api/routes.rs:505-509 | Along any lineage expiry exceeds the root's capped lifetime by at most the summed handler times rounded up, and not at all when every hop was prompt |
| Delegation.RootExpiry | src/api/routes.rs:637-639 | A principal's root expires after what it asked for, capped at the configured maximum, and an access request's after the configured default, from the second it was issued in |
| Audit.ComputeHash | src/audit/mod.rs:29-51 | Feeding the hasher field by field digests the row's payload |
| Audit.PayloadIsFieldsInOrder | src/audit/mod.rs:30-49 | The payload is the present fields in order with nothing between them |
| Audit.VerifyChain | src/audit/verifier.rs:55-92 | Reports nothing if and only if every commitment holds; otherwise the least failing position, the back link first, its row id and the rows examined up to it |
| Audit.AuditLog.CreateAuditEntry | src/db/mod.rs:473-532 | Appends one row chained to the last; the log is intact afterwards if and only if it was before |
| Audit.BuiltLogVerifies | src/db/mod.rs:473-532 | Every log the appender builds passes the verifier, whatever the digest |
| Audit.BuiltLogRecords | src/db/mod.rs:487-508 | The built log records every entry, in order, under ascending ids, with allow, deny or require_approval for its decision |
| Audit.BuiltLogChains | src/db/mod.rs:477-485 | The first row of a built log points back to 64 zeros, every later one to the row before |
| Audit.SameHashSamePast | src/audit/verifier.rs:59-86 | A hash found in two intact chains stands at the same position in both, after the same hashes |
| Audit.ChainBinding | src/audit/verifier.rs:55-92 | Two intact logs end in the same hash if and only if they have equal length and hash equal byte strings row by row |
| Audit.FieldBoundariesAreNotBound | src/audit/mod.rs:36-37 | After every log and for every entry, ending the action or beginning the resource with a given character yields rows that differ in both fields and have one hash, under every digest |
| Audit.PayloadBindsFields | src/audit/mod.rs:29-51 | Rows with equal byte strings have equal hashed fields if and only if they cut them at the same places |
| Audit.RowFitsOnePlace | src/audit/verifier.rs:65 | Row hashes of an intact chain are pairwise distinct, and a row's back link fits its own position only |
| Audit.OnlyPrefixesVerify | src/audit/verifier.rs:59-91 | Of all sequences of an intact log's rows, dropped, repeated or reordered, exactly its prefixes verify |
| Audit.DeletionDetected | src/audit/verifier.rs:65-73 | Deleting a block before a surviving row is reported at that row as a back-link mismatch |
| Audit.SwapDetected | src/audit/verifier.rs:65-73 | Swapping two rows is reported at the earlier place |
| Audit.DuplicateDetected | src/audit/verifier.rs:65-73 | A copied row is reported where it stands, or one later where the original does |
| Audit.EditDetected | src/audit/verifier.rs:75-83 | Editing hashed bytes and keeping the hashes is reported at that row |
| Audit.RehashedEdit | src/audit/verifier.rs:59-86 | An edit with its own hash recomputed passes if and only if it is the last row; otherwise its successor is reported |
| AuditedRuns.OneRowPerAnswer | src/api/routes.rs:377-391 | In every interleaving the chain is intact, and a request past the kill checks has exactly one row once answered and none otherwise, telling its agent, action, resource, decision and token |
| AuditedRuns.RefusalsLeaveNoRow | src/api/routes.rs:250-271 | A request refused by a kill check never has a row |
| AuditedRuns.AuditWriteAppends | src/api/routes.rs:377-389 | An audit write appends one row, chained to the last, with the principal, presented chain, reason and time it carries, and answers the request as evaluated |
| AuditedRuns.LogIsBesideTheRun | src/db/mod.rs:467-471 | Keeping the log does not affect the protocol: what is proved of its runs holds beside every log |
| Pkce.PkceStore.Insert | src/idp/mod.rs:44-58 | Records the login; afterwards everything stored is less than ten minutes old |
| Pkce.PkceStore.Consume | src/idp/mod.rs:62-71 | Takes the entry out even if expired, and returns it only if live |
| Pkce.PruningInvisible | src/idp/mod.rs:44-71 | With a clock that never goes back the pruned store answers as an unpruned history: success exactly when the latest operation on the state is an insertion under 600 seconds old |
| Pkce.ConsumedAtMostOnce | src/idp/mod.rs:62-71 | Between two successes on one state lies another insertion |

## Left out

- HTTP routing, middleware, CORS, metrics, dashboard, configuration, command line and the Python SDK: plumbing or user interface.
- RSA, JWT encoding, SHA-256, AES-GCM, base64 and OAuth provider clients: a verified token is its claims record, the digest a parameter. The JWT decoder's signature, `nbf` and number-format checks are not modelled; its expiry leeway of 60 seconds, issuer and audience checks are.
- SQLite: tables are maps or sequences, a write closure is one step (src/db/mod.rs:108-124), stored rows read back unchanged, identifiers parse. Rows without an ORDER BY come in insertion order.
- Grants.GrantTable.RevokeGrant: models the path without SQL errors; there is no transaction, so an error mid-recursion leaves a partial cascade, although README.md:43 and docs/HLD.md:154 call the cascade atomic.
- Grants.GrantTable.CreateGrant: requires a fresh id, since the id is generated (v7 UUID) by the call.
- Sessions.SessionState.ApplyTrustDecay: requires a threshold other than 0, at which the code divides by zero.
- u64, i64 and usize overflow, durations and timestamps out of range (src/api/routes.rs:506): integers are unbounded. `f64` is `real`: no rounding, NaN or infinity.
- Identifiers, timestamps and JSON values are their printed text; serialisation, which could fail, always succeeds.
- Audit.AuditLog.CreateAuditEntry: a failing read of the last hash, which the code treats as an empty table (src/db/mod.rs:483-485), is not modelled. The returned id is that of the row; SQLite's reuse of ids is not modelled.
- Handler.AppState.RequestAccess: authentication, agent and principal lookups and the presented delegation token are parameters or absent; failures of later database calls are `Fail` steps of `Access`; reason texts, token contents, the approval row and the audit row are not modelled there (the audit write is a step of its own in `Access`, its row is in `AuditedRuns`).
- AuditedRuns.OneRowPerAnswer: answered means that the row is committed. A write handed to the database is carried out even if the client has gone (src/db/mod.rs:115-124), so the model does not tell a response delivered from one that nobody waits for.
- Handler.AppState.KillAgent: the count of sessions killed, which is only reported.
- `check_access`, `delegate` and other handlers appear in interleaved runs only by what they change: a limiter charge (`DryRun`), a new token row (`IssueElsewhere`), an audit row (`OtherWrite`).
- `record_tokens`, `list_sessions`, `is_killed`, the loop over all sessions in `apply_trust_decay_all`, JWK output, the `cnf` claim: they would add easy members only.
- Approval requests (resolve-once, expiry), CRUD, group-to-policy mapping, vault storage: true but easy, and independent of the parts above.
- Where documentation and code differ the code is followed: an agent kill updates the token table but not the verifier's revoked set (src/token/verifier.rs:76-79), so "revokes tokens" (README.md:64) holds of the table only; revoking a grant does not touch tokens; `delegate` creates no grant and ignores the kill set; killed requests are refused before the audit write; the limiter is a fixed window, not the sliding one of README.md:55; approval expiry is not looked at on resolution; `request_access` does not narrow scopes to a presented token's; restoring an agent also clears flags set by `kill_session`.
