/** Session state, the store that holds it, and the emergency stop. */
module Sessions {
  import opened Common
  import opened RateLimits

  const MAX_TRAJECTORY: nat := 1000

  datatype TrajectoryEvent = TrajectoryEvent(action: string, resource: string, decision: Decision, timestamp: Instant)

  // What a clone of a session's state holds.
  datatype Session = Session(
    sessionId: string, agentId: Uuid, principalId: Option<Uuid>, createdAt: Instant, lastActivity: Instant,
    trajectory: seq<TrajectoryEvent>, actionsCount: nat, spendTotal: real, tokensUsed: nat,
    trustLevel: real, killed: bool)

  function NewSession(sessionId: string, agentId: Uuid, principalId: Option<Uuid>, now: Instant): Session {
    Session(sessionId, agentId, principalId, now, now, [], 0, 0.0, 0, 1.0, false)
  }

  function Newest(events: seq<TrajectoryEvent>): seq<TrajectoryEvent> {
    if |events| > MAX_TRAJECTORY then events[|events| - MAX_TRAJECTORY..] else events
  }

  function Recorded(s: Session, event: TrajectoryEvent, now: Instant): Session {
    s.(lastActivity := now, actionsCount := s.actionsCount + 1, trajectory := Newest(s.trajectory + [event]))
  }

  function Spent(s: Session, amount: real): Session {
    s.(spendTotal := s.spendTotal + amount)
  }

  function IdleMinutes(s: Session, now: Instant): int {
    Truncated(now - s.lastActivity, MINUTE)
  }

  // Full trust less a loss, never below zero.
  function Remaining(loss: real): real {
    if loss > 1.0 then 0.0 else 1.0 - loss
  }

  function TrustAfter(periods: int, rate: real): real {
    Remaining(periods as real * rate)
  }

  // The trust a decay assigns after the given idle time.
  function DecayedTrust(idle: int, threshold: int, rate: real): real
    requires threshold != 0
  {
    TrustAfter(Truncated(idle - threshold, threshold), rate)
  }

  function Decayed(s: Session, threshold: int, rate: real, now: Instant): Session
    requires threshold != 0
  {
    if IdleMinutes(s, now) > threshold
    then s.(trustLevel := DecayedTrust(IdleMinutes(s, now), threshold, rate)) else s
  }

  // The suffix from the first event at or after the cutoff.
  function Since(events: seq<TrajectoryEvent>, cutoff: Instant): seq<TrajectoryEvent> {
    if events == [] || events[0].timestamp >= cutoff then events else Since(events[1..], cutoff)
  }

  class SessionState {
    const sessionId: string
    const agentId: Uuid
    const principalId: Option<Uuid>
    const createdAt: Instant
    var lastActivity: Instant
    var trajectory: seq<TrajectoryEvent>
    var actionsCount: nat
    var spendTotal: real
    var tokensUsed: nat
    var trustLevel: real
    var killed: bool

    function Snapshot(): Session
      reads this
    {
      Session(sessionId, agentId, principalId, createdAt, lastActivity, trajectory, actionsCount,
              spendTotal, tokensUsed, trustLevel, killed)
    }

    constructor (sessionId: string, agentId: Uuid, principalId: Option<Uuid>, now: Instant)
      ensures Snapshot() == NewSession(sessionId, agentId, principalId, now)
    {
      this.sessionId := sessionId;
      this.agentId := agentId;
      this.principalId := principalId;
      createdAt := now;
      lastActivity := now;
      trajectory := [];
      actionsCount := 0;
      spendTotal := 0.0;
      tokensUsed := 0;
      trustLevel := 1.0;
      killed := false;
    }

    method RecordAction(event: TrajectoryEvent, now: Instant)
      modifies this
      ensures Snapshot() == Recorded(old(Snapshot()), event, now)
    {
      lastActivity := now;
      actionsCount := actionsCount + 1;
      trajectory := trajectory + [event];
      if |trajectory| > MAX_TRAJECTORY {
        var dropCount := |trajectory| - MAX_TRAJECTORY;
        trajectory := trajectory[dropCount..];
      }
    }

    method RecordSpend(amount: real)
      modifies this
      ensures Snapshot() == Spent(old(Snapshot()), amount)
    {
      spendTotal := spendTotal + amount;
    }

    method ApplyTrustDecay(threshold: int, rate: real, now: Instant)
      requires threshold != 0
      modifies this
      ensures Snapshot() == Decayed(old(Snapshot()), threshold, rate, now)
    {
      var idle := Truncated(now - lastActivity, MINUTE);
      if idle > threshold {
        var periods := Truncated(idle - threshold, threshold);
        trustLevel := TrustAfter(periods, rate);
      }
    }

    method RecentActions(windowMinutes: int, now: Instant) returns (recent: seq<TrajectoryEvent>)
      ensures recent == Since(trajectory, now - windowMinutes * MINUTE)
    {
      var cutoff := now - windowMinutes * MINUTE;
      var start := 0;
      while start < |trajectory| && trajectory[start].timestamp < cutoff
        invariant 0 <= start <= |trajectory|
        invariant Since(trajectory, cutoff) == Since(trajectory[start..], cutoff)
      {
        assert trajectory[start..][1..] == trajectory[start + 1..];
        start := start + 1;
      }
      recent := trajectory[start..];
    }
  }

  // ── The store ─────────────────────────────────────────────────────

  datatype StoreView = StoreView(sessions: map<string, Session>, limits: Limits, killedAgents: set<Uuid>)

  function WithKilled(sessions: map<string, Session>, agent: Uuid, killed: bool): map<string, Session> {
    map k | k in sessions :: if sessions[k].agentId == agent then sessions[k].(killed := killed) else sessions[k]
  }

  function Flagged(sessions: map<string, Session>, id: string, killed: bool): map<string, Session>
    requires id in sessions
  {
    sessions[id := sessions[id].(killed := killed)]
  }

  // The same, with the sessions named in `rest` left alone.
  function PartlyKilled(sessions: map<string, Session>, agent: Uuid, killed: bool, rest: set<string>)
    : map<string, Session>
  {
    map k | k in sessions ::
      if k !in rest && sessions[k].agentId == agent then sessions[k].(killed := killed) else sessions[k]
  }

  lemma OneMoreFlagged(sessions: map<string, Session>, agent: Uuid, killed: bool, rest: set<string>, k: string)
    requires k in rest && k in sessions
    ensures var partly := PartlyKilled(sessions, agent, killed, rest);
            && partly[k] == sessions[k]
            && PartlyKilled(sessions, agent, killed, rest - {k})
               == if sessions[k].agentId == agent then Flagged(partly, k, killed) else partly
  {
  }

  lemma NoneOrAllFlagged(sessions: map<string, Session>, agent: Uuid, killed: bool)
    ensures PartlyKilled(sessions, agent, killed, sessions.Keys) == sessions
    ensures PartlyKilled(sessions, agent, killed, {}) == WithKilled(sessions, agent, killed)
  {
  }

  // The critical sections of the store, on views.
  function AgentKilled(v: StoreView, agent: Uuid): StoreView {
    v.(killedAgents := v.killedAgents + {agent}, sessions := WithKilled(v.sessions, agent, true))
  }

  function KillRemoved(v: StoreView, agent: Uuid): StoreView {
    v.(killedAgents := v.killedAgents - {agent})
  }

  function FlagsCleared(v: StoreView, agent: Uuid): StoreView {
    v.(sessions := WithKilled(v.sessions, agent, false))
  }

  function WithSession(v: StoreView, id: string, agent: Uuid, principal: Option<Uuid>, now: Instant): StoreView {
    if id in v.sessions then v
    else v.(sessions := v.sessions[id := NewSession(id, agent, principal, now)])
  }

  function SessionKilled(v: StoreView, id: string): StoreView {
    if id in v.sessions then v.(sessions := Flagged(v.sessions, id, true)) else v
  }

  function ActionRecorded(v: StoreView, id: string, event: TrajectoryEvent, now: Instant): StoreView {
    if id in v.sessions then v.(sessions := v.sessions[id := Recorded(v.sessions[id], event, now)]) else v
  }

  function SpendRecorded(v: StoreView, id: string, amount: real): StoreView {
    if id in v.sessions then v.(sessions := v.sessions[id := Spent(v.sessions[id], amount)]) else v
  }

  function Lookup(v: StoreView, id: string): Option<Session> {
    if id in v.sessions then Some(v.sessions[id]) else None
  }

  class SessionStore {
    var sessions: map<string, SessionState>
    var rateLimits: Limits
    var killedAgents: set<Uuid>

    // No two ids share one state object.
    ghost predicate Valid()
      reads this
    {
      forall j, k :: j in sessions && k in sessions && j != k ==> sessions[j] != sessions[k]
    }

    function View(): StoreView
      reads this, sessions.Values
    {
      StoreView(map k | k in sessions :: sessions[k].Snapshot(), rateLimits, killedAgents)
    }

    constructor ()
      ensures Valid() && View() == StoreView(map[], map[], {})
    {
      sessions := map[];
      rateLimits := map[];
      killedAgents := {};
    }

    // Sets the flag of one session.
    method Flag(id: string, killed: bool)
      requires Valid() && id in sessions
      modifies sessions.Values
      ensures View() == old(View()).(sessions := Flagged(old(View()).sessions, id, killed))
    {
      sessions[id].killed := killed;
      assert forall j :: j in sessions && j != id ==> sessions[j].Snapshot() == old(sessions[j].Snapshot());
    }

    // Sets the flag on every session of the agent.
    method FlagSessions(agent: Uuid, killed: bool)
      requires Valid()
      modifies sessions.Values
      ensures View() == old(View()).(sessions := WithKilled(old(View()).sessions, agent, killed))
    {
      ghost var before := View().sessions;
      NoneOrAllFlagged(before, agent, killed);
      var rest := sessions.Keys;
      while rest != {}
        invariant rest <= sessions.Keys
        invariant View() == old(View()).(sessions := PartlyKilled(before, agent, killed, rest))
      {
        var k :| k in rest;
        OneMoreFlagged(before, agent, killed, rest, k);
        rest := rest - {k};
        if sessions[k].agentId == agent {
          Flag(k, killed);
        }
      }
    }

    method KillAgent(agent: Uuid)
      requires Valid()
      modifies this, sessions.Values
      ensures Valid() && sessions == old(sessions)
      ensures View() == AgentKilled(old(View()), agent)
    {
      killedAgents := killedAgents + {agent};
      assert View() == old(View()).(killedAgents := killedAgents);
      FlagSessions(agent, true);
    }

    method IsAgentKilled(agent: Uuid) returns (killed: bool)
      ensures killed <==> agent in View().killedAgents
    {
      killed := agent in killedAgents;
    }

    // Restoring takes two critical sections, one per lock.
    method RemoveKill(agent: Uuid)
      requires Valid()
      modifies this
      ensures Valid() && sessions == old(sessions)
      ensures View() == KillRemoved(old(View()), agent)
    {
      killedAgents := killedAgents - {agent};
    }

    method RestoreAgent(agent: Uuid)
      requires Valid()
      modifies this, sessions.Values
      ensures Valid() && sessions == old(sessions)
      ensures View() == FlagsCleared(KillRemoved(old(View()), agent), agent)
    {
      RemoveKill(agent);
      FlagSessions(agent, false);
    }

    method GetOrCreateSession(id: string, agent: Uuid, principal: Option<Uuid>, now: Instant) returns (s: Session)
      requires Valid()
      modifies this
      ensures Valid()
      ensures View() == WithSession(old(View()), id, agent, principal, now)
      ensures id in View().sessions && s == View().sessions[id]
      ensures forall k :: k in old(sessions) ==> k in sessions && sessions[k] == old(sessions)[k]
      ensures forall k :: k in sessions && k !in old(sessions) ==> fresh(sessions[k])
    {
      if id in sessions {
        return sessions[id].Snapshot();
      }
      var state := new SessionState(id, agent, principal, now);
      sessions := sessions[id := state];
      assert View().sessions == old(View()).sessions[id := state.Snapshot()];
      s := state.Snapshot();
    }

    method GetSession(id: string) returns (s: Option<Session>)
      ensures s == Lookup(View(), id)
    {
      s := if id in sessions then Some(sessions[id].Snapshot()) else None;
    }

    method RecordAction(id: string, event: TrajectoryEvent, now: Instant)
      requires Valid()
      modifies sessions.Values
      ensures View() == ActionRecorded(old(View()), id, event, now)
    {
      if id in sessions {
        sessions[id].RecordAction(event, now);
      }
    }

    method RecordSpend(id: string, amount: real)
      requires Valid()
      modifies sessions.Values
      ensures View() == SpendRecorded(old(View()), id, amount)
    {
      if id in sessions {
        sessions[id].RecordSpend(amount);
        assert forall j :: j in sessions && j != id ==> sessions[j].Snapshot() == old(sessions[j].Snapshot());
      }
    }

    method KillSession(id: string) returns (found: bool)
      requires Valid()
      modifies sessions.Values
      ensures found <==> id in View().sessions
      ensures View() == SessionKilled(old(View()), id)
    {
      if id in sessions {
        Flag(id, true);
        return true;
      }
      found := false;
    }

    /** Charges a key: the store's limiter is the one whose bounds are proved in RateLimits. */
    method CheckRateLimit(key: string, maxPerMinute: nat, now: Instant) returns (ok: bool)
      modifies `rateLimits
      ensures View() == old(View()).(limits := Charge(old(rateLimits), key, maxPerMinute, now).0)
      ensures ok == Charge(old(rateLimits), key, maxPerMinute, now).1
    {
      if key in rateLimits {
        var window := rateLimits[key];
        if now - window.start > MINUTE {
          rateLimits := rateLimits[key := Window(now, 1)];
          ok := true;
        } else {
          window := window.(count := window.count + 1);
          rateLimits := rateLimits[key := window];
          ok := window.count <= maxPerMinute;
        }
      } else {
        rateLimits := rateLimits[key := Window(now, 1)];
        ok := true;
      }
    }
  }

  // ── Bounded history ───────────────────────────────────────────────

  function RecordedAll(s: Session, events: seq<(TrajectoryEvent, Instant)>): Session {
    if events == [] then s
    else Recorded(RecordedAll(s, events[..|events| - 1]), events[|events| - 1].0, events[|events| - 1].1)
  }

  function EventsOf(events: seq<(TrajectoryEvent, Instant)>): seq<TrajectoryEvent> {
    seq(|events|, i requires 0 <= i < |events| => events[i].0)
  }

  /** After any actions the session holds the last thousand of them and counts them all. */
  lemma {:induction false} BoundedTrajectory(s: Session, events: seq<(TrajectoryEvent, Instant)>)
    requires s.trajectory == []
    ensures RecordedAll(s, events).trajectory == Newest(EventsOf(events))
    ensures RecordedAll(s, events).actionsCount == s.actionsCount + |events|
  {
    if events != [] {
      var front := events[..|events| - 1];
      BoundedTrajectory(s, front);
      assert EventsOf(events) == EventsOf(front) + [events[|events| - 1].0];
    }
  }

  function Filtered(events: seq<TrajectoryEvent>, cutoff: Instant): seq<TrajectoryEvent> {
    if events == [] then []
    else (if events[0].timestamp >= cutoff then [events[0]] else []) + Filtered(events[1..], cutoff)
  }

  predicate TimeOrdered(events: seq<TrajectoryEvent>) {
    forall i, j :: 0 <= i < j < |events| ==> events[i].timestamp <= events[j].timestamp
  }

  // Nothing older than the cutoff follows an event that is not.
  predicate Settled(events: seq<TrajectoryEvent>, cutoff: Instant) {
    forall i, j :: 0 <= i < j < |events| && events[i].timestamp >= cutoff ==> events[j].timestamp >= cutoff
  }

  lemma SettledTail(events: seq<TrajectoryEvent>, cutoff: Instant)
    requires events != [] && events[0].timestamp < cutoff
    ensures Settled(events, cutoff) <==> Settled(events[1..], cutoff)
  {
    var rest := events[1..];
    if Settled(rest, cutoff) {
      forall i, j | 0 <= i < j < |events| && events[i].timestamp >= cutoff ensures events[j].timestamp >= cutoff {
        assert rest[i - 1] == events[i] && rest[j - 1] == events[j];
      }
    }
    if Settled(events, cutoff) {
      forall i, j | 0 <= i < j < |rest| && rest[i].timestamp >= cutoff ensures rest[j].timestamp >= cutoff {
        assert rest[i] == events[i + 1] && rest[j] == events[j + 1];
      }
    }
  }

  /** The recent actions are the timestamp filter exactly when nothing old follows the first recent event. */
  lemma {:induction false} RecentIsFilterExact(events: seq<TrajectoryEvent>, cutoff: Instant)
    ensures Since(events, cutoff) == Filtered(events, cutoff) <==> Settled(events, cutoff)
  {
    if events == [] {
    } else if events[0].timestamp >= cutoff {
      FilteredLength(events, cutoff);
      assert Since(events, cutoff) == events;
    } else {
      RecentIsFilterExact(events[1..], cutoff);
      SettledTail(events, cutoff);
      OldHeadSkipped(events, cutoff);
    }
  }

  lemma OldHeadSkipped(events: seq<TrajectoryEvent>, cutoff: Instant)
    requires events != [] && events[0].timestamp < cutoff
    ensures Since(events, cutoff) == Since(events[1..], cutoff)
    ensures Filtered(events, cutoff) == Filtered(events[1..], cutoff)
  {
    assert [] + Filtered(events[1..], cutoff) == Filtered(events[1..], cutoff);
  }

  lemma {:induction false} FilteredLength(events: seq<TrajectoryEvent>, cutoff: Instant)
    ensures Filtered(events, cutoff) == events <==> forall i :: 0 <= i < |events| ==> events[i].timestamp >= cutoff
    ensures |Filtered(events, cutoff)| <= |events|
  {
    if events != [] {
      var rest := events[1..];
      FilteredLength(rest, cutoff);
      assert forall j :: 0 <= j < |rest| ==> rest[j] == events[j + 1];
      if events[0].timestamp >= cutoff {
        assert Filtered(events, cutoff)[1..] == Filtered(rest, cutoff);
      }
    }
  }

  /** On time-ordered histories the recent actions are the timestamp filter. */
  lemma RecentIsFilter(events: seq<TrajectoryEvent>, cutoff: Instant)
    requires TimeOrdered(events)
    ensures Since(events, cutoff) == Filtered(events, cutoff)
  {
    RecentIsFilterExact(events, cutoff);
  }

  // ── Trust ─────────────────────────────────────────────────────────

  function DecayedAll(s: Session, threshold: int, rate: real, times: seq<Instant>): Session
    requires threshold != 0
  {
    if times == [] then s
    else Decayed(DecayedAll(s, threshold, rate, times[..|times| - 1]), threshold, rate, times[|times| - 1])
  }

  lemma PeriodsMonotone(a: int, b: int, threshold: int)
    requires 0 < threshold && threshold <= a <= b
    ensures 0 <= Truncated(a - threshold, threshold) <= Truncated(b - threshold, threshold)
  {
    var x, y := a - threshold, b - threshold;
    assert threshold * (x / threshold) <= x <= y < threshold * (y / threshold) + threshold;
    assert threshold * (y / threshold - x / threshold + 1) > 0;
    PositiveFactor(threshold, y / threshold - x / threshold + 1);
  }

  lemma PositiveFactor(d: int, k: int)
    requires d > 0 && d * k > 0
    ensures k > 0
  {
  }

  lemma ScaleMonotone(p: real, q: real, rate: real)
    requires 0.0 <= p <= q && 0.0 <= rate
    ensures 0.0 <= p * rate <= q * rate
  {
    assert (q - p) * rate >= 0.0;
  }

  lemma LossMonotone(p: int, q: int, rate: real)
    requires 0 <= p <= q && 0.0 <= rate
    ensures 0.0 <= p as real * rate <= q as real * rate
  {
    ScaleMonotone(p as real, q as real, rate);
  }

  lemma RemainingAntitone(x: real, y: real)
    requires 0.0 <= x <= y
    ensures 0.0 <= Remaining(y) <= Remaining(x) <= 1.0
  {
  }

  lemma TrustAntitone(a: int, b: int, threshold: int, rate: real)
    requires 0 < threshold < a <= b && rate >= 0.0
    ensures 0.0 <= DecayedTrust(b, threshold, rate) <= DecayedTrust(a, threshold, rate) <= 1.0
  {
    PeriodsMonotone(a, b, threshold);
    var p, q := Truncated(a - threshold, threshold), Truncated(b - threshold, threshold);
    LossMonotone(p, q, rate);
    RemainingAntitone(p as real * rate, q as real * rate);
  }

  /** Without activity, decays depend only on the last of them that came past the threshold. */
  lemma {:induction false} DecayDependsOnLast(s: Session, threshold: int, rate: real, times: seq<Instant>, last: nat)
    requires 0 < threshold && last < |times| && IdleMinutes(s, times[last]) > threshold
    requires forall i :: last < i < |times| ==> IdleMinutes(s, times[i]) <= threshold
    ensures DecayedAll(s, threshold, rate, times) == Decayed(s, threshold, rate, times[last])
  {
    DecayKeepsActivity(s, threshold, rate, times[..|times| - 1]);
    if last < |times| - 1 {
      DecayDependsOnLast(s, threshold, rate, times[..|times| - 1], last);
    }
  }

  lemma {:induction false} DecayKeepsActivity(s: Session, threshold: int, rate: real, times: seq<Instant>)
    requires threshold != 0
    ensures DecayedAll(s, threshold, rate, times) == s.(trustLevel := DecayedAll(s, threshold, rate, times).trustLevel)
  {
    if times != [] {
      DecayKeepsActivity(s, threshold, rate, times[..|times| - 1]);
    }
  }

  /** From the first decay past the threshold on, trust stays in [0, 1] and never rises while the agent is idle. */
  lemma {:induction false} TrustNeverRises(s: Session, threshold: int, rate: real, times: seq<Instant>, first: nat,
                                           n: nat)
    requires 0 < threshold && rate >= 0.0 && first < n <= |times|
    requires forall i, j :: 0 <= i < j < |times| ==> times[i] <= times[j]
    requires IdleMinutes(s, times[first]) > threshold
    ensures 0.0 <= DecayedAll(s, threshold, rate, times[..n]).trustLevel <= 1.0
    ensures n < |times| ==>
              DecayedAll(s, threshold, rate, times[..n + 1]).trustLevel
              <= DecayedAll(s, threshold, rate, times[..n]).trustLevel
  {
    IdleMonotone(s, times[first], times[n - 1]);
    DecayDependsOnLast(s, threshold, rate, times[..n], n - 1);
    TrustAntitone(IdleMinutes(s, times[n - 1]), IdleMinutes(s, times[n - 1]), threshold, rate);
    if n < |times| {
      IdleMonotone(s, times[n - 1], times[n]);
      DecayDependsOnLast(s, threshold, rate, times[..n + 1], n);
      TrustAntitone(IdleMinutes(s, times[n - 1]), IdleMinutes(s, times[n]), threshold, rate);
    }
  }

  lemma IdleMonotone(s: Session, now: Instant, later: Instant)
    requires now <= later
    ensures IdleMinutes(s, now) <= IdleMinutes(s, later)
  {
  }

  // ── Trust over a session's life ───────────────────────────────────

  datatype Turn = Acting(event: TrajectoryEvent, now: Instant) | Spending(amount: real) | Decaying(now: Instant)

  function Taken(s: Session, threshold: int, rate: real, turn: Turn): Session
    requires threshold != 0
  {
    match turn
    case Acting(event, now) => Recorded(s, event, now)
    case Spending(amount) => Spent(s, amount)
    case Decaying(now) => Decayed(s, threshold, rate, now)
  }

  function Lived(s: Session, threshold: int, rate: real, turns: seq<Turn>): Session
    requires threshold != 0
  {
    if turns == [] then s
    else Taken(Lived(s, threshold, rate, turns[..|turns| - 1]), threshold, rate, turns[|turns| - 1])
  }

  // The whole periods a session has been idle past the threshold, if it has at all.
  function PeriodsIdle(s: Session, threshold: int, now: Instant): Option<int>
    requires threshold != 0
  {
    if IdleMinutes(s, now) > threshold then Some(Truncated(IdleMinutes(s, now) - threshold, threshold)) else None
  }

  // The idle periods the last decay past the threshold found.
  function LastPeriods(s: Session, threshold: int, rate: real, turns: seq<Turn>): Option<int>
    requires threshold != 0
  {
    if turns == [] then None
    else
      var front, last := turns[..|turns| - 1], turns[|turns| - 1];
      var found := if last.Decaying? then PeriodsIdle(Lived(s, threshold, rate, front), threshold, last.now) else None;
      if found.Some? then found else LastPeriods(s, threshold, rate, front)
  }

  lemma PeriodsPositive(s: Session, threshold: int, now: Instant)
    requires 0 < threshold && PeriodsIdle(s, threshold, now).Some?
    ensures PeriodsIdle(s, threshold, now).value >= 0
  {
  }

  // What an option of idle periods leaves of full trust.
  function TrustLeft(periods: Option<int>, rate: real): real {
    if periods.Some? then TrustAfter(periods.value, rate) else 1.0
  }

  /** Whatever a session has been through, its trust is full until a decay past the threshold, and from then on is what
      the last such decay's idle periods alone give. */
  lemma {:induction false} TrustOfLife(s: Session, threshold: int, rate: real, turns: seq<Turn>)
    requires 0 < threshold && s.trustLevel == 1.0
    ensures Lived(s, threshold, rate, turns).trustLevel == TrustLeft(LastPeriods(s, threshold, rate, turns), rate)
    ensures LastPeriods(s, threshold, rate, turns).Some? ==> 0 <= LastPeriods(s, threshold, rate, turns).value
  {
    if turns != [] {
      var front, last := turns[..|turns| - 1], turns[|turns| - 1];
      TrustOfLife(s, threshold, rate, front);
      if last.Decaying? && PeriodsIdle(Lived(s, threshold, rate, front), threshold, last.now).Some? {
        PeriodsPositive(Lived(s, threshold, rate, front), threshold, last.now);
      }
    }
  }

  lemma LossStrict(p: real, q: real, rate: real)
    requires 0.0 <= p && 0.0 <= q && 0.0 <= rate
    ensures 0.0 <= p * rate && 0.0 <= q * rate
    ensures p * rate < q * rate <==> p < q && 0.0 < rate
  {
    ScaleMonotone(0.0, p, rate);
    ScaleMonotone(0.0, q, rate);
    if q <= p {
      ScaleMonotone(q, p, rate);
    } else if 0.0 < rate {
      assert 0.0 < (q - p) * rate;
    }
  }

  lemma RemainingRises(x: real, y: real)
    requires 0.0 <= x && 0.0 <= y
    ensures Remaining(x) > Remaining(y) <==> x < y && x < 1.0
  {
  }

  // p idle periods are fewer than q, each costs something, and p of them do not cost all trust.
  predicate CostLess(p: int, q: int, rate: real) {
    p < q && 0.0 < rate && p as real * rate < 1.0
  }

  lemma FewerPeriodsMoreTrust(p: int, q: int, rate: real)
    requires 0 <= p && 0 <= q && 0.0 <= rate
    ensures TrustAfter(p, rate) > TrustAfter(q, rate) <==> CostLess(p, q, rate)
    ensures TrustAfter(p, rate) <= 1.0
  {
    LossStrict(p as real, q as real, rate);
    RemainingRises(p as real * rate, q as real * rate);
  }

  // Both decays came past the threshold, and the periods found now cost less than those found earlier.
  predicate Regains(periods: Option<int>, earlier: Option<int>, rate: real) {
    periods.Some? && earlier.Some? && CostLess(periods.value, earlier.value, rate)
  }

  lemma TrustRises(periods: Option<int>, earlier: Option<int>, rate: real)
    requires 0.0 <= rate && (periods.Some? ==> 0 <= periods.value) && (earlier.Some? ==> 0 <= earlier.value)
    ensures periods.Some? && TrustLeft(periods, rate) > TrustLeft(earlier, rate) <==> Regains(periods, earlier, rate)
  {
    if periods.Some? {
      FewerPeriodsMoreTrust(periods.value, if earlier.Some? then earlier.value else 0, rate);
    }
  }

  // What a decay does to trust, by the periods it finds.
  lemma DecayAssigns(s: Session, threshold: int, rate: real, now: Instant) returns (periods: Option<int>)
    requires 0 < threshold
    ensures periods == PeriodsIdle(s, threshold, now) && (periods.Some? ==> 0 <= periods.value)
    ensures Decayed(s, threshold, rate, now).trustLevel
            == if periods.Some? then TrustLeft(periods, rate) else s.trustLevel
  {
    periods := PeriodsIdle(s, threshold, now);
    if periods.Some? {
      PeriodsPositive(s, threshold, now);
    }
  }

  lemma DecayRaises(s: Session, earlier: Option<int>, threshold: int, rate: real, now: Instant)
    requires 0 < threshold && 0.0 <= rate && (earlier.Some? ==> 0 <= earlier.value)
    requires s.trustLevel == TrustLeft(earlier, rate)
    ensures Decayed(s, threshold, rate, now).trustLevel > s.trustLevel <==>
              Regains(PeriodsIdle(s, threshold, now), earlier, rate)
  {
    var periods := DecayAssigns(s, threshold, rate, now);
    TrustRises(periods, earlier, rate);
  }

  /** Trust comes back: a decay raises it exactly when it comes past the threshold, an earlier one did too and found
      more idle periods, a period costs something, and the periods it finds itself do not cost all trust. */
  lemma DecayRaisesExactly(s: Session, threshold: int, rate: real, turns: seq<Turn>, now: Instant)
    requires 0 < threshold && 0.0 <= rate && s.trustLevel == 1.0
    ensures var before := Lived(s, threshold, rate, turns);
            Decayed(before, threshold, rate, now).trustLevel > before.trustLevel <==>
              Regains(PeriodsIdle(before, threshold, now), LastPeriods(s, threshold, rate, turns), rate)
  {
    TrustOfLife(s, threshold, rate, turns);
    DecayRaises(Lived(s, threshold, rate, turns), LastPeriods(s, threshold, rate, turns), threshold, rate, now);
  }

  /** A decay that comes before twice the threshold, but past it, restores full trust. */
  lemma ShortIdleRestoresTrust(s: Session, threshold: int, rate: real, now: Instant)
    requires 0 < threshold < IdleMinutes(s, now) < 2 * threshold
    ensures Decayed(s, threshold, rate, now).trustLevel == 1.0
  {
    var over := IdleMinutes(s, now) - threshold;
    assert over / threshold == 0;
  }

  // ── What the critical sections do, field by field ─────────────────

  /** A kill adds one agent to the kill set and flags exactly its sessions. */
  lemma KilledExactly(v: StoreView, agent: Uuid)
    ensures var w := AgentKilled(v, agent);
            && w.limits == v.limits && w.sessions.Keys == v.sessions.Keys
            && (forall a :: a in w.killedAgents <==> a == agent || a in v.killedAgents)
            && forall k :: k in v.sessions ==>
                 && w.sessions[k] == v.sessions[k].(killed := w.sessions[k].killed)
                 && (w.sessions[k].killed <==> v.sessions[k].killed || v.sessions[k].agentId == agent)
  {
  }

  /** A restore takes one agent out of the kill set and leaves none of its sessions flagged. */
  lemma RestoredExactly(v: StoreView, agent: Uuid)
    ensures var w := FlagsCleared(KillRemoved(v, agent), agent);
            && w.limits == v.limits && w.sessions.Keys == v.sessions.Keys
            && (forall a :: a in w.killedAgents <==> a != agent && a in v.killedAgents)
            && forall k :: k in v.sessions ==>
                 && w.sessions[k] == v.sessions[k].(killed := w.sessions[k].killed)
                 && (w.sessions[k].killed <==> v.sessions[k].killed && v.sessions[k].agentId != agent)
  {
  }

  // Neither the agent nor any of its sessions is killed.
  predicate UnkilledBefore(v: StoreView, agent: Uuid) {
    && agent !in v.killedAgents
    && forall k :: k in v.sessions && v.sessions[k].agentId == agent ==> !v.sessions[k].killed
  }

  /** A restore undoes a kill exactly when the agent was not killed before and none of its sessions was. */
  lemma RestoreUndoesKill(v: StoreView, agent: Uuid)
    ensures FlagsCleared(KillRemoved(AgentKilled(v, agent), agent), agent) == v <==>
            UnkilledBefore(v, agent)
  {
    var w := FlagsCleared(KillRemoved(AgentKilled(v, agent), agent), agent);
    KilledExactly(v, agent);
    RestoredExactly(AgentKilled(v, agent), agent);
    if UnkilledBefore(v, agent) {
      assert w.killedAgents == v.killedAgents;
      assert w.sessions == v.sessions;
    }
  }

  /** Killing a session flags that session, and opening one makes it only if it is absent: fresh, unflagged, with full
      trust and nothing counted. Neither touches another session. */
  lemma OneSessionExactly(v: StoreView, id: string, agent: Uuid, principal: Option<Uuid>, now: Instant)
    ensures var w := SessionKilled(v, id);
            && w.limits == v.limits && w.killedAgents == v.killedAgents && w.sessions.Keys == v.sessions.Keys
            && forall k :: k in v.sessions ==>
                 w.sessions[k] == if k == id then v.sessions[k].(killed := true) else v.sessions[k]
    ensures var w := WithSession(v, id, agent, principal, now);
            && w.limits == v.limits && w.killedAgents == v.killedAgents && w.sessions.Keys == v.sessions.Keys + {id}
            && (forall k :: k in v.sessions ==> w.sessions[k] == v.sessions[k])
            && (id !in v.sessions ==>
                  var s := w.sessions[id];
                  && s.sessionId == id && s.agentId == agent && s.principalId == principal && !s.killed
                  && s.trajectory == [] && s.actionsCount == 0 && s.spendTotal == 0.0 && s.trustLevel == 1.0
                  && s.createdAt == now && s.lastActivity == now)
  {
  }

  // ── What a life adds up to ────────────────────────────────────────

  function ActionsTaken(turns: seq<Turn>): seq<TrajectoryEvent> {
    if turns == [] then [] else
      ActionsTaken(turns[..|turns| - 1])
      + (if turns[|turns| - 1].Acting? then [turns[|turns| - 1].event] else [])
  }

  function MoneySpent(turns: seq<Turn>): real {
    if turns == [] then 0.0 else
      MoneySpent(turns[..|turns| - 1]) + (if turns[|turns| - 1].Spending? then turns[|turns| - 1].amount else 0.0)
  }

  /** After any life of a session from its creation, in whatever order things happen, the counter is the number of
      actions, the spend their sum, and the trajectory the last thousand actions in order. */
  lemma {:induction false} LifeAddsUp(s: Session, threshold: int, rate: real, turns: seq<Turn>)
    requires threshold != 0 && s.trajectory == []
    ensures var t, actions := Lived(s, threshold, rate, turns), ActionsTaken(turns);
            && t.actionsCount == s.actionsCount + |actions| && t.spendTotal == s.spendTotal + MoneySpent(turns)
            && t.trajectory == actions[Max(0, |actions| - 1000)..]
            && t == s.(actionsCount := t.actionsCount, spendTotal := t.spendTotal, trajectory := t.trajectory,
                       trustLevel := t.trustLevel, lastActivity := t.lastActivity)
  {
    if turns != [] {
      LifeAddsUp(s, threshold, rate, turns[..|turns| - 1]);
    }
  }

  /** Activity holds trust: until a whole minute past the threshold has gone by since the last action, a decay does not
      apply and changes nothing; from then on it applies. */
  lemma ActivityHoldsTrust(s: Session, event: TrajectoryEvent, at: Instant, threshold: int, rate: real, now: Instant)
    requires 0 < threshold && at <= now
    ensures IdleMinutes(Recorded(s, event, at), now) > threshold <==> now - at >= (threshold + 1) * MINUTE
    ensures now - at < (threshold + 1) * MINUTE ==>
              Decayed(Recorded(s, event, at), threshold, rate, now) == Recorded(s, event, at)
  {
    assert (now - at) / MINUTE > threshold <==> now - at >= (threshold + 1) * MINUTE;
  }

  /** A decay finds k periods exactly past the threshold and when the idle minutes beyond it make k whole thresholds. */
  lemma PeriodsExactly(s: Session, threshold: int, now: Instant, k: nat)
    requires 0 < threshold
    ensures PeriodsIdle(s, threshold, now) == Some(k) <==>
            && IdleMinutes(s, now) > threshold
            && k * threshold <= IdleMinutes(s, now) - threshold < (k + 1) * threshold
  {
    var over := IdleMinutes(s, now) - threshold;
    if 0 < over {
      WholePeriods(over, threshold, k);
    }
  }

  // What a loss leaves of full trust.
  predicate Leaves(trust: real, k: nat, rate: real) {
    trust == if k as real * rate > 1.0 then 0.0 else 1.0 - k as real * rate
  }

  lemma TrustAfterLeaves(k: nat, rate: real)
    ensures Leaves(TrustAfter(k, rate), k, rate)
  {
  }

  /** And then leaves what k times the rate leaves of full trust, or nothing, and touches nothing but trust. */
  lemma DecayByPeriods(s: Session, threshold: int, rate: real, now: Instant, k: nat)
    requires 0 < threshold && PeriodsIdle(s, threshold, now) == Some(k)
    ensures var t := Decayed(s, threshold, rate, now);
            t == s.(trustLevel := t.trustLevel) && Leaves(t.trustLevel, k, rate)
  {
    var periods := DecayAssigns(s, threshold, rate, now);
    TrustAfterLeaves(k, rate);
  }

  lemma WholePeriods(over: int, threshold: int, k: nat)
    requires 0 < threshold && 0 <= over
    ensures Truncated(over, threshold) == k <==> k * threshold <= over < (k + 1) * threshold
  {
    var q := over / threshold;
    assert threshold * q <= over < threshold * q + threshold;
    if q < k {
      Scaled(threshold, q + 1, k);
    } else if q > k {
      Scaled(threshold, k + 1, q);
    }
  }

  lemma Scaled(d: int, a: int, b: int)
    requires 0 < d && a <= b
    ensures d * a <= d * b
  {
    assert d * (b - a) >= 0;
  }
}
