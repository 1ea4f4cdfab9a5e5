/** Token claims (sections 4.1 and 4.2 of RFC 8693), their issuing and verification, and the arithmetic of
    expiry across the separate clock reads of a delegation. */
module Tokens {
  import opened Common
  import opened Scopes

  datatype DelegationHop = DelegationHop(sub: string, act: string)

  datatype ActClaim = ActClaim(sub: string, delegationDepth: nat, delegationChain: Option<seq<DelegationHop>>)

  // Constraints are a JSON text.
  datatype AgentClaims = AgentClaims(
    iss: string, sub: string, act: ActClaim, scope: string, aud: string, exp: int, iat: int, jti: string,
    constraints: Option<string>)

  datatype IssueTokenParams = IssueTokenParams(
    subject: string, agentId: string, scopes: seq<string>, audience: string, ttlSeconds: nat,
    delegationDepth: nat, delegationChain: Option<seq<DelegationHop>>, constraints: Option<string>)

  function Expiry(ttlSeconds: nat, now: Instant): Instant {
    now + ttlSeconds * SECOND
  }

  // The issue time and the expiry come from two reads of the clock.
  function Issue(issuer: string, params: IssueTokenParams, jti: string, iatAt: Instant, expAt: Instant): AgentClaims {
    AgentClaims(
      issuer, params.subject, ActClaim(params.agentId, params.delegationDepth, params.delegationChain),
      Join(params.scopes), params.audience, Seconds(Expiry(params.ttlSeconds, expAt)), Seconds(iatAt), jti,
      params.constraints)
  }

  datatype Error =
    | ExpiredToken
    | InvalidToken
    | RevokedToken(jti: string)
    | ScopeEscalation(requested: string, parent: string)
    | DelegationDepthExceeded(max: nat, actual: nat)

  // The decoder tolerates tokens this many seconds past their expiry.
  const LEEWAY: int := 60

  class TokenVerifier {
    const issuer: string
    var revokedJtis: set<string>

    constructor (issuer: string)
      ensures this.issuer == issuer && revokedJtis == {}
    {
      this.issuer := issuer;
      revokedJtis := {};
    }

    /** Accepts exactly the claims of this issuer, for the audience if one is asked for, not lapsed and not revoked. */
    method Verify(claims: AgentClaims, audience: Option<string>, decodedAt: Instant, now: Instant)
        returns (r: Result<AgentClaims, Error>)
      requires decodedAt <= now
      ensures r == Verified(claims, issuer, audience, decodedAt, now, revokedJtis)
    {
      if claims.exp < Seconds(decodedAt) - LEEWAY {
        return Err(ExpiredToken);
      }
      if claims.iss != issuer || (audience.Some? && audience.value != claims.aud) {
        return Err(InvalidToken);
      }
      if claims.exp < Seconds(now) {
        return Err(ExpiredToken);
      }
      if claims.jti in revokedJtis {
        return Err(RevokedToken(claims.jti));
      }
      r := Ok(claims);
    }

    method Revoke(jti: string)
      modifies this
      ensures revokedJtis == old(revokedJtis) + {jti}
    {
      revokedJtis := revokedJtis + {jti};
    }
  }

  function Verified(claims: AgentClaims, issuer: string, audience: Option<string>, decodedAt: Instant, now: Instant,
                    revoked: set<string>): Result<AgentClaims, Error>
  {
    if claims.exp < Seconds(decodedAt) - LEEWAY then Err(ExpiredToken)
    else if claims.iss != issuer || (audience.Some? && audience.value != claims.aud) then Err(InvalidToken)
    else if claims.exp < Seconds(now) then Err(ExpiredToken)
    else if claims.jti in revoked then Err(RevokedToken(claims.jti))
    else Ok(claims)
  }

  /** What acceptance means: the decoder's tolerance never lets a lapsed token through. */
  lemma AcceptedExactly(claims: AgentClaims, issuer: string, audience: Option<string>, decodedAt: Instant, now: Instant,
                        revoked: set<string>)
    requires decodedAt <= now
    ensures Verified(claims, issuer, audience, decodedAt, now, revoked).Ok? <==>
            && claims.iss == issuer && (audience.Some? ==> claims.aud == audience.value)
            && now < (claims.exp + 1) * SECOND && claims.jti !in revoked
    ensures Verified(claims, issuer, audience, decodedAt, now, revoked).Ok? ==>
              Verified(claims, issuer, audience, decodedAt, now, revoked).value == claims
  {
  }

  /** Which error a refused token gets: lapsed by more than a minute, before anything else; then a wrong issuer or
      audience; then lapsed at all; then revoked. */
  lemma RefusedExactly(claims: AgentClaims, issuer: string, audience: Option<string>, decodedAt: Instant, now: Instant,
                       revoked: set<string>)
    requires decodedAt <= now
    ensures var r := Verified(claims, issuer, audience, decodedAt, now, revoked);
            var ours := claims.iss == issuer && (audience.Some? ==> audience.value == claims.aud);
            && (r == Err(ExpiredToken) <==> claims.exp + 60 < Seconds(decodedAt) || (ours && claims.exp < Seconds(now)))
            && (r == Err(InvalidToken) <==> Seconds(decodedAt) <= claims.exp + 60 && !ours)
            && (r == Err(RevokedToken(claims.jti)) <==> Seconds(now) <= claims.exp && ours && claims.jti in revoked)
  {
  }

  /** Issuing and verifying agree: a token is accepted by its own issuer's verifier exactly when it is presented for the
      audience it was issued for, within its lifetime, and has not been revoked; and then it parses to exactly the
      scopes it was issued with when each of them is one word, and says the second in which it was issued. */
  lemma IssuedTokenVerifies(issuer: string, params: IssueTokenParams, jti: string, iatAt: Instant, expAt: Instant,
                            audience: Option<string>, decodedAt: Instant, now: Instant, revoked: set<string>)
    requires decodedAt <= now
    ensures var r := Verified(Issue(issuer, params, jti, iatAt, expAt), issuer, audience, decodedAt, now, revoked);
            && (r.Ok? <==>
                  && (audience.Some? ==> audience.value == params.audience)
                  && Seconds(now) <= Seconds(expAt) + params.ttlSeconds && jti !in revoked)
            && (r.Ok? ==> (Words(r.value.scope) == params.scopes <==> AllWords(params.scopes)))
            && (r.Ok? ==> r.value.iat * SECOND <= iatAt < (r.value.iat + 1) * SECOND)
  {
    AcceptedExactly(Issue(issuer, params, jti, iatAt, expAt), issuer, audience, decodedAt, now, revoked);
    RoundTripExact(params.scopes);
  }

  // ── Expiry of a delegated token ───────────────────────────────────

  // The clock reads of one delegation, in order.
  datatype Reads = Reads(decodedAt: Instant, verifiedAt: Instant, requestedAt: Instant, ttlAt: Instant,
                         iatAt: Instant, expAt: Instant)
  {
    predicate InOrder() {
      decodedAt <= verifiedAt <= requestedAt <= ttlAt <= iatAt <= expAt
    }
  }

  // Whole seconds, rounded up.
  function CeilSeconds(t: int): int {
    -(-t / SECOND)
  }

  function EffectiveTtl(parentExp: int, expiresIn: nat, clock: Reads): nat {
    var effective := Min(parentExp * SECOND, clock.requestedAt + expiresIn * SECOND);
    Max(0, Truncated(effective - clock.ttlAt, SECOND))
  }

  function ChildExp(parentExp: int, expiresIn: nat, clock: Reads): int {
    Seconds(Expiry(EffectiveTtl(parentExp, expiresIn, clock), clock.expAt))
  }

  lemma ChildExpSplits(parentExp: int, expiresIn: nat, clock: Reads)
    ensures ChildExp(parentExp, expiresIn, clock) == Seconds(clock.expAt) + EffectiveTtl(parentExp, expiresIn, clock)
  {
  }

  // The longest lifetime a request can get: what the parent has left, in whole seconds.
  lemma TtlBound(parentExp: int, expiresIn: nat, clock: Reads)
    ensures EffectiveTtl(parentExp, expiresIn, clock) <= Max(0, parentExp - CeilSeconds(clock.ttlAt))
    ensures clock.requestedAt + expiresIn * SECOND >= parentExp * SECOND ==>
              EffectiveTtl(parentExp, expiresIn, clock) == Max(0, parentExp - CeilSeconds(clock.ttlAt))
  {
  }

  /** No requested lifetime makes the child outlive its parent exactly when the whole second in which the
      expiry is read is neither past the parent's expiry nor past the time the lifetime was computed, rounded up. */
  lemma NeverOutlivesExactly(parentExp: int, clock: Reads)
    ensures (forall expiresIn: nat :: ChildExp(parentExp, expiresIn, clock) <= parentExp) <==>
            Seconds(clock.expAt) <= Min(parentExp, CeilSeconds(clock.ttlAt))
  {
    var long: nat := Max(0, parentExp * SECOND - clock.requestedAt);
    assert clock.requestedAt + long * SECOND >= parentExp * SECOND;
    TtlBound(parentExp, long, clock);
    ChildExpSplits(parentExp, long, clock);
    if Seconds(clock.expAt) <= Min(parentExp, CeilSeconds(clock.ttlAt)) {
      forall expiresIn: nat ensures ChildExp(parentExp, expiresIn, clock) <= parentExp {
        TtlBound(parentExp, expiresIn, clock);
        ChildExpSplits(parentExp, expiresIn, clock);
      }
    } else {
      assert ChildExp(parentExp, long, clock) > parentExp;
    }
  }

  // The parent had not lapsed when the lifetime was computed, and less than a second passed until the expiry was read.
  predicate Prompt(parentExp: int, clock: Reads) {
    clock.ttlAt <= parentExp * SECOND && clock.expAt - clock.ttlAt < SECOND
  }

  /** A prompt delegation never outlives its parent; any delegation of an accepted token outlives it by at most the
      time it took since the token was checked, rounded up. */
  lemma ChildExpiryBound(parentExp: int, expiresIn: nat, clock: Reads)
    requires clock.InOrder()
    ensures Prompt(parentExp, clock) ==> ChildExp(parentExp, expiresIn, clock) <= parentExp
    ensures Seconds(clock.verifiedAt) <= parentExp ==>
              ChildExp(parentExp, expiresIn, clock) <= parentExp + CeilSeconds(clock.expAt - clock.verifiedAt)
  {
    TtlBound(parentExp, expiresIn, clock);
    ChildExpSplits(parentExp, expiresIn, clock);
  }

  /** A second is the exact margin: with a whole second between the two reads a child can outlive its parent. */
  lemma SlowDelegationOutlives(parentExp: int, gap: nat)
    requires gap >= SECOND
    ensures exists expiresIn: nat, clock: Reads ::
              && clock.InOrder() && clock.expAt - clock.ttlAt == gap && clock.ttlAt <= parentExp * SECOND
              && ChildExp(parentExp, expiresIn, clock) > parentExp
  {
    var t := parentExp * SECOND;
    var clock := Reads(t, t, t, t, t, t + gap);
    TtlBound(parentExp, 0, clock);
    ChildExpSplits(parentExp, 0, clock);
    assert ChildExp(parentExp, 0, clock) > parentExp;
  }

  /** A child lasts, in whole seconds, what the parent has left or what was asked for, whichever is less, counted from
      the second its expiry is read in, and never less than nothing. */
  lemma ChildExpExactly(parentExp: int, expiresIn: nat, clock: Reads)
    requires clock.InOrder()
    ensures var left := parentExp - CeilSeconds(clock.ttlAt);
            var asked := expiresIn - CeilSeconds(clock.ttlAt - clock.requestedAt);
            ChildExp(parentExp, expiresIn, clock) == Seconds(clock.expAt) + Max(0, Min(left, asked))
    ensures ChildExp(parentExp, expiresIn, clock) <= Seconds(clock.expAt) + expiresIn
  {
    ChildExpSplits(parentExp, expiresIn, clock);
    TtlExactly(parentExp, expiresIn, clock);
  }

  lemma TtlExactly(parentExp: int, expiresIn: nat, clock: Reads)
    ensures var left := parentExp - CeilSeconds(clock.ttlAt);
            var asked := expiresIn - CeilSeconds(clock.ttlAt - clock.requestedAt);
            EffectiveTtl(parentExp, expiresIn, clock) == Max(0, Min(left, asked))
  {
  }
}
