/** The action cap is exact: for every cap and every number of requests in flight some run reaches the bound. */
module CapReached {
  import opened Common
  import opened Sessions
  import opened Policy
  import opened Access

  const SID: string := "s"
  const CTX: PolicyContext := PolicyContext("a", Service, "act", "res", [], Some(SID))

  // A rule that allows everything up to n actions.
  function Capped(n: nat): Rule {
    Rule("cap", [], [], [], [], "allow", "", [], None, None, None, None, Some(n))
  }

  function Jti(id: nat): string {
    seq(id, _ => 'x')
  }

  function Ask(phase: Phase): Request {
    Request(CTX, SID, phase)
  }

  // Requests below `done` have returned an allow, those from there to `total` are past the session conditions.
  ghost predicate Shape(st: State, n: nat, done: nat, total: nat) {
    && st.rules == [Capped(n)] && st.store.killedAgents == {} && done <= total
    && (forall id: nat :: id in st.requests <==> id < total)
    && (forall id: nat :: id < done ==> st.requests[id] == Ask(Returned(Allow, Some(Jti(id)))))
    && (forall id: nat :: done <= id < total ==> st.requests[id] == Ask(RuleSeen(Capped(n))))
    && (SID in st.store.sessions ==> !st.store.sessions[SID].killed && st.store.sessions[SID].actionsCount == done)
    && (SID !in st.store.sessions ==> total == 0)
    && (forall id: nat :: done <= id ==> Jti(id) !in st.tokens)
  }

  function Set(st: State, id: nat, phase: Phase): State {
    st.(requests := st.requests[id := Ask(phase)])
  }

  function Opened(st: State): State {
    st.(store := WithSession(st.store, SID, CTX.agentId, None, 0))
  }

  function WithToken(st: State, id: nat): State {
    st.(tokens := st.tokens[Jti(id) := TokenRow(CTX.agentId, false)])
  }

  function WithAction(st: State): State {
    st.(store := ActionRecorded(st.store, SID, TrajectoryEvent(CTX.action, CTX.resource, Allow, 0), 0))
  }

  function Granted(n: nat): PolicyEvaluation {
    Concluded(Capped(n), CTX)
  }

  // What each step of a request makes of a state.
  lemma DoArrive(st: State, id: nat)
    requires id !in st.requests
    ensures Step(st, Arrive(id, CTX)) == Set(st, id, Arrived)
  {
  }

  lemma DoRead(st: State, id: nat)
    requires SID in st.store.sessions ==> !st.store.sessions[SID].killed
    ensures Step(Set(st, id, Arrived), ReadSession(id, None, 0)) == Set(Opened(st), id, SessionSeen)
  {
  }

  lemma DoCheckAgent(st: State, id: nat)
    requires st.store.killedAgents == {}
    ensures Step(Set(st, id, SessionSeen), CheckAgent(id)) == Set(st, id, AgentSeen)
  {
  }

  lemma CappedLetsPast(n: nat, session: Session)
    requires !session.killed && session.actionsCount < n
    ensures RuleOutcome([Capped(n)], CTX, Some(session)) == RuleSeen(Capped(n))
  {
    assert FirstMatch([Capped(n)], CTX) == Some(Capped(n));
  }

  lemma DoCheckRule(st: State, id: nat, n: nat)
    requires st.rules == [Capped(n)] && SID in st.store.sessions
    requires !st.store.sessions[SID].killed && st.store.sessions[SID].actionsCount < n
    ensures Step(Set(st, id, AgentSeen), CheckRule(id)) == Set(st, id, RuleSeen(Capped(n)))
  {
    CappedLetsPast(n, st.store.sessions[SID]);
  }

  lemma DoCheckLimit(st: State, id: nat, n: nat)
    requires At(st, id) && st.requests[id] == Ask(RuleSeen(Capped(n)))
    ensures Step(st, CheckLimit(id, 0)) == Set(st, id, Writing(Granted(n)))
  {
  }

  lemma DoWrite(st: State, id: nat, n: nat)
    requires Jti(id) !in st.tokens
    ensures Step(Set(st, id, Writing(Granted(n))), Write(id, Jti(id)))
         == Set(WithToken(st, id), id, Written(Granted(n), Some(Jti(id))))
  {
  }

  lemma DoCount(st: State, id: nat, n: nat)
    ensures Step(Set(st, id, Written(Granted(n), Some(Jti(id)))), Count(id, 0, 0))
         == Set(WithAction(st), id, Counted(Granted(n), Some(Jti(id))))
  {
  }

  lemma DoAudit(st: State, id: nat, n: nat)
    ensures Step(Set(st, id, Counted(Granted(n), Some(Jti(id)))), WriteAudit(id))
         == Set(st, id, Returned(Allow, Some(Jti(id))))
  {
  }

  // ── Runs, one event at a time ─────────────────────────────────────

  datatype Trace = Begin | Then(before: Trace, ev: Event)

  function StateOf(n: nat, t: Trace): State {
    match t
    case Begin => Start([Capped(n)])
    case Then(before, ev) => Step(StateOf(n, before), ev)
  }

  predicate Within(n: nat, t: Trace, k: nat) {
    |InFlight(StateOf(n, t), SID)| <= k && (t.Then? ==> !t.ev.Reload? && Within(n, t.before, k))
  }

  function Events(t: Trace): seq<Event> {
    match t
    case Begin => []
    case Then(before, ev) => Events(before) + [ev]
  }

  lemma {:induction false} TraceIsRun(n: nat, t: Trace, k: nat)
    requires Within(n, t, k)
    ensures After(Start([Capped(n)]), Events(t)) == StateOf(n, t)
    ensures AtMostInFlight(Start([Capped(n)]), Events(t), SID, k) && AlwaysCapped(Events(t), n)
  {
    if t.Then? {
      TraceIsRun(n, t.before, k);
      AfterOne(Start([Capped(n)]), Events(t.before), t.ev);
      assert Events(t)[..|Events(t)| - 1] == Events(t.before);
    }
  }

  lemma Extend(n: nat, t: Trace, ev: Event, next: State, k: nat)
    requires Within(n, t, k) && Step(StateOf(n, t), ev) == next && |InFlight(next, SID)| <= k && !ev.Reload?
    ensures StateOf(n, Then(t, ev)) == next && Within(n, Then(t, ev), k)
  {
  }

  function Range(from: nat, to: nat): (ids: set<nat>)
    ensures forall id :: id in ids <==> from <= id < to
  {
    if from >= to then {} else Range(from, to - 1) + {to - 1}
  }

  lemma {:induction false} RangeSize(from: nat, to: nat)
    requires from <= to
    ensures |Range(from, to)| == to - from
  {
    if from < to {
      RangeSize(from, to - 1);
    }
  }

  // Besides one request, those in flight are the ones from `done` to `total`.
  lemma InFlightWith(st: State, next: State, id: nat, phase: Phase, n: nat, done: nat, total: nat)
    requires Shape(st, n, done, total) && next.requests == st.requests[id := Ask(phase)] && done <= id <= total
    ensures |InFlight(next, SID)| <= (if id == total then total + 1 else total) - done
  {
    var to := if id == total then total + 1 else total;
    RangeSize(done, to);
    SubsetSize(InFlight(next, SID), Range(done, to));
  }

  // The trace ends in the state, with never more than k requests in flight.
  predicate Ends(n: nat, t: Trace, k: nat, st: State) {
    StateOf(n, t) == st && Within(n, t, k)
  }

  ghost predicate Reached(t: Trace, n: nat, k: nat, done: nat, total: nat) {
    Shape(StateOf(n, t), n, done, total) && Within(n, t, k)
  }

  // One more event, after which one request differs from a state of the shape.
  lemma Advance(t: Trace, n: nat, k: nat, from: State, ev: Event, st: State, next: State, id: nat, phase: Phase,
                done: nat, total: nat) returns (t': Trace)
    requires Ends(n, t, k, from) && Step(from, ev) == next && !ev.Reload?
    requires Shape(st, n, done, total) && next.requests == st.requests[id := Ask(phase)]
    requires done <= id <= total && (if id == total then total + 1 else total) - done <= k
    ensures Ends(n, t', k, next)
  {
    InFlightWith(st, next, id, phase, n, done, total);
    Extend(n, t, ev, next, k);
    t' := Then(t, ev);
  }

  // ── A request comes in ────────────────────────────────────────────

  lemma EnteredShape(st: State, n: nat, done: nat, total: nat)
    requires Shape(st, n, done, total)
    ensures Shape(Set(Opened(st), total, RuleSeen(Capped(n))), n, done, total + 1)
  {
  }

  lemma Arriving(t: Trace, st: State, n: nat, k: nat, done: nat, total: nat) returns (t': Trace)
    requires Ends(n, t, k, st) && Shape(st, n, done, total) && total - done < k
    ensures Ends(n, t', k, Set(st, total, Arrived))
  {
    DoArrive(st, total);
    t' := Advance(t, n, k, st, Arrive(total, CTX), st, Set(st, total, Arrived), total, Arrived, done, total);
  }

  lemma Reading(t: Trace, st: State, n: nat, k: nat, done: nat, total: nat) returns (t': Trace)
    requires Ends(n, t, k, Set(st, total, Arrived)) && Shape(st, n, done, total) && total - done < k
    ensures Ends(n, t', k, Set(Opened(st), total, SessionSeen))
  {
    DoRead(st, total);
    t' := Advance(t, n, k, Set(st, total, Arrived), ReadSession(total, None, 0), st,
                  Set(Opened(st), total, SessionSeen), total, SessionSeen, done, total);
  }

  lemma CheckingAgent(t: Trace, st: State, n: nat, k: nat, done: nat, total: nat) returns (t': Trace)
    requires Ends(n, t, k, Set(Opened(st), total, SessionSeen)) && Shape(st, n, done, total) && total - done < k
    ensures Ends(n, t', k, Set(Opened(st), total, AgentSeen))
  {
    DoCheckAgent(Opened(st), total);
    t' := Advance(t, n, k, Set(Opened(st), total, SessionSeen), CheckAgent(total), st,
                  Set(Opened(st), total, AgentSeen), total, AgentSeen, done, total);
  }

  lemma CheckingRule(t: Trace, st: State, n: nat, k: nat, done: nat, total: nat) returns (t': Trace)
    requires Ends(n, t, k, Set(Opened(st), total, AgentSeen)) && Shape(st, n, done, total)
    requires done < n && total - done < k
    ensures Ends(n, t', k, Set(Opened(st), total, RuleSeen(Capped(n))))
  {
    DoCheckRule(Opened(st), total, n);
    t' := Advance(t, n, k, Set(Opened(st), total, AgentSeen), CheckRule(total), st,
                  Set(Opened(st), total, RuleSeen(Capped(n))), total, RuleSeen(Capped(n)), done, total);
  }

  lemma EnterOne(t: Trace, n: nat, k: nat, done: nat, total: nat) returns (t': Trace)
    requires Reached(t, n, k, done, total) && done < n && total - done < k
    ensures Reached(t', n, k, done, total + 1)
  {
    var st := StateOf(n, t);
    t' := Arriving(t, st, n, k, done, total);
    t' := Reading(t', st, n, k, done, total);
    t' := CheckingAgent(t', st, n, k, done, total);
    t' := CheckingRule(t', st, n, k, done, total);
    EnteredShape(st, n, done, total);
  }

  // ── And one goes out ──────────────────────────────────────────────

  // The state once the request has been counted and answered.
  function Answered(st: State, id: nat): State {
    Set(WithAction(WithToken(st, id)), id, Returned(Allow, Some(Jti(id))))
  }

  lemma JtisDiffer(i: nat, j: nat)
    requires i != j
    ensures Jti(i) != Jti(j)
  {
    assert |Jti(i)| == i && |Jti(j)| == j;
  }

  lemma AnsweredShape(st: State, n: nat, done: nat, total: nat)
    requires Shape(st, n, done, total) && done < total
    ensures Shape(Answered(st, done), n, done + 1, total)
  {
    forall id: nat | done + 1 <= id ensures Jti(id) !in Answered(st, done).tokens {
      JtisDiffer(id, done);
    }
  }

  lemma CheckingLimit(t: Trace, st: State, n: nat, k: nat, done: nat, total: nat) returns (t': Trace)
    requires Ends(n, t, k, st) && Shape(st, n, done, total) && done < total <= done + k
    ensures Ends(n, t', k, Set(st, done, Writing(Granted(n))))
  {
    DoCheckLimit(st, done, n);
    t' := Advance(t, n, k, st, CheckLimit(done, 0), st, Set(st, done, Writing(Granted(n))),
                  done, Writing(Granted(n)), done, total);
  }

  lemma WritingToken(t: Trace, st: State, n: nat, k: nat, done: nat, total: nat) returns (t': Trace)
    requires Ends(n, t, k, Set(st, done, Writing(Granted(n)))) && Shape(st, n, done, total) && done < total <= done + k
    ensures Ends(n, t', k, Set(WithToken(st, done), done, Written(Granted(n), Some(Jti(done)))))
  {
    var phase := Written(Granted(n), Some(Jti(done)));
    DoWrite(st, done, n);
    t' := Advance(t, n, k, Set(st, done, Writing(Granted(n))), Write(done, Jti(done)), st,
                  Set(WithToken(st, done), done, phase), done, phase, done, total);
  }

  lemma CountingAction(t: Trace, st: State, n: nat, k: nat, done: nat, total: nat) returns (t': Trace)
    requires Ends(n, t, k, Set(WithToken(st, done), done, Written(Granted(n), Some(Jti(done)))))
    requires Shape(st, n, done, total) && done < total <= done + k
    ensures Ends(n, t', k, Set(WithAction(WithToken(st, done)), done, Counted(Granted(n), Some(Jti(done)))))
  {
    var phase := Counted(Granted(n), Some(Jti(done)));
    DoCount(WithToken(st, done), done, n);
    t' := Advance(t, n, k, Set(WithToken(st, done), done, Written(Granted(n), Some(Jti(done)))), Count(done, 0, 0), st,
                  Set(WithAction(WithToken(st, done)), done, phase), done, phase, done, total);
  }

  lemma Answering(t: Trace, st: State, n: nat, k: nat, done: nat, total: nat) returns (t': Trace)
    requires Ends(n, t, k, Set(WithAction(WithToken(st, done)), done, Counted(Granted(n), Some(Jti(done)))))
    requires Shape(st, n, done, total) && done < total <= done + k
    ensures Ends(n, t', k, Answered(st, done))
  {
    var before := WithAction(WithToken(st, done));
    DoAudit(before, done, n);
    t' := Advance(t, n, k, Set(before, done, Counted(Granted(n), Some(Jti(done)))), WriteAudit(done), st,
                  Answered(st, done), done, Returned(Allow, Some(Jti(done))), done, total);
  }

  lemma LeaveOne(t: Trace, n: nat, k: nat, done: nat, total: nat) returns (t': Trace)
    requires Reached(t, n, k, done, total) && done < total <= done + k
    ensures Reached(t', n, k, done + 1, total)
  {
    var st := StateOf(n, t);
    t' := CheckingLimit(t, st, n, k, done, total);
    t' := WritingToken(t', st, n, k, done, total);
    t' := CountingAction(t', st, n, k, done, total);
    t' := Answering(t', st, n, k, done, total);
    AnsweredShape(st, n, done, total);
  }

  // ── The run ───────────────────────────────────────────────────────

  lemma {:induction false} OneAfterTheOther(n: nat, k: nat, i: nat) returns (t: Trace)
    requires 1 <= k && i < n
    ensures Reached(t, n, k, i, i)
  {
    if i == 0 {
      t := Begin;
      assert InFlight(Start([Capped(n)]), SID) == {};
    } else {
      t := OneAfterTheOther(n, k, i - 1);
      t := EnterOne(t, n, k, i - 1, i - 1);
      t := LeaveOne(t, n, k, i - 1, i);
    }
  }

  lemma {:induction false} AllEnter(n: nat, k: nat, j: nat) returns (t: Trace)
    requires 1 <= n && 1 <= k && j <= k
    ensures Reached(t, n, k, n - 1, n - 1 + j)
  {
    if j == 0 {
      t := OneAfterTheOther(n, k, n - 1);
    } else {
      t := AllEnter(n, k, j - 1);
      t := EnterOne(t, n, k, n - 1, n - 2 + j);
    }
  }

  lemma {:induction false} AllLeave(n: nat, k: nat, j: nat) returns (t: Trace)
    requires 1 <= n && 1 <= k && j <= k
    ensures Reached(t, n, k, n - 1 + j, n - 1 + k)
  {
    if j == 0 {
      t := AllEnter(n, k, k);
    } else {
      t := AllLeave(n, k, j - 1);
      t := LeaveOne(t, n, k, n - 2 + j, n - 1 + k);
    }
  }

  lemma AllAllowed(st: State, n: nat, total: nat)
    requires Shape(st, n, total, total)
    ensures |AllowedOn(st, SID)| == total
  {
    assert AllowedOn(st, SID) == Range(0, total);
    RangeSize(0, total);
  }

  lemma NothingAllowed(k: nat) returns (evs: seq<Event>)
    ensures AlwaysCapped(evs, 0) && AtMostInFlight(Start([Capped(0)]), evs, SID, k)
    ensures |AllowedOn(After(Start([Capped(0)]), evs), SID)| == 0
  {
    evs := [];
    assert AllowedOn(Start([Capped(0)]), SID) == {} && InFlight(Start([Capped(0)]), SID) == {};
  }

  lemma AllAtOnce(n: nat, k: nat) returns (evs: seq<Event>)
    requires 1 <= n && 1 <= k
    ensures AlwaysCapped(evs, n) && AtMostInFlight(Start([Capped(n)]), evs, SID, k)
    ensures |AllowedOn(After(Start([Capped(n)]), evs), SID)| == n + k - 1
  {
    var t := AllLeave(n, k, k);
    TraceIsRun(n, t, k);
    AllAllowed(StateOf(n, t), n, n - 1 + k);
    evs := Events(t);
  }

  /** The bound on the action cap is exact: for every cap n and every k some run with at most k requests in flight
      reaches it, with n - 1 requests one after the other and then k that all pass the check before any is counted. */
  lemma CapIsReached(n: nat, k: nat)
    requires 1 <= k
    ensures CappedAt([Capped(n)], n)
    ensures exists evs :: AlwaysCapped(evs, n) && AtMostInFlight(Start([Capped(n)]), evs, SID, k)
                          && |AllowedOn(After(Start([Capped(n)]), evs), SID)| == CapBound(n, k)
  {
    if n == 0 {
      var evs := NothingAllowed(k);
      assert |AllowedOn(After(Start([Capped(n)]), evs), SID)| == CapBound(n, k);
    } else {
      var evs := AllAtOnce(n, k);
      assert |AllowedOn(After(Start([Capped(n)]), evs), SID)| == CapBound(n, k);
    }
  }
}
