/** The audit log under concurrency: the interleaved runs of Access, with the rows their requests and everything else
    append. */
module AuditedRuns {
  import opened Common
  import opened Policy
  import opened Access
  import opened Audit

  // The digest, and the text of a reason.
  datatype World = World(hash: string -> string, text: Reason -> string)

  datatype LogEvent =
    // a step of the protocol other than an audit write
    | Protocol(ev: Event)
    // a request's audit write, with the principal and the presented chain it carries
    | AuditWrite(id: nat, principal: Option<Uuid>, chain: Option<string>, timestamp: string)
    // a row of another handler
    | OtherWrite(entry: CreateEntry, timestamp: string)

  // The log beside the protocol's state; for each row the request that wrote it, if one did; and the requests that
  // have passed both kill checks.
  datatype Logged = Logged(st: State, log: seq<Entry>, writers: seq<Option<nat>>, admitted: set<nat>)

  predicate Passes(st: State, ev: Event) {
    Enabled(st, ev) && ev.CheckAgent? && st.requests[ev.id].ctx.agentId !in st.store.killedAgents
  }

  function RowFor(w: World, r: Request, principal: Option<Uuid>, chain: Option<string>): CreateEntry
    requires r.phase.Counted?
  {
    CreateEntry(r.ctx.agentId, principal, r.ctx.action, r.ctx.resource,
                r.phase.eval.decision, w.text(r.phase.eval.reason), chain, r.phase.token, false)
  }

  function Appended(w: World, l: Logged, c: CreateEntry, timestamp: string, writer: Option<nat>): Logged {
    l.(log := l.log + [Chained(l.log, w.hash, |l.log| + 1, c, timestamp)], writers := l.writers + [writer])
  }

  function LogStep(w: World, l: Logged, e: LogEvent): Logged {
    match e
    case Protocol(ev) =>
      if ev.WriteAudit? then l
      else l.(st := Step(l.st, ev), admitted := if Passes(l.st, ev) then l.admitted + {ev.id} else l.admitted)
    case AuditWrite(id, principal, chain, timestamp) =>
      if !Enabled(l.st, WriteAudit(id)) then l
      else
        var row := RowFor(w, l.st.requests[id], principal, chain);
        Appended(w, l, row, timestamp, Some(id)).(st := Step(l.st, WriteAudit(id)))
    case OtherWrite(entry, timestamp) => Appended(w, l, entry, timestamp, None)
  }

  function LogAfter(w: World, rules: seq<Rule>, es: seq<LogEvent>): Logged {
    if es == [] then Logged(Start(rules), [], [], {})
    else LogStep(w, LogAfter(w, rules, es[..|es| - 1]), es[|es| - 1])
  }

  function Steps(e: LogEvent): seq<Event> {
    match e
    case Protocol(ev) => if ev.WriteAudit? then [] else [ev]
    case AuditWrite(id, _, _, _) => [WriteAudit(id)]
    case OtherWrite(_, _) => []
  }

  function AllSteps(es: seq<LogEvent>): seq<Event> {
    if es == [] then [] else AllSteps(es[..|es| - 1]) + Steps(es[|es| - 1])
  }

  lemma OneStep(w: World, l: Logged, e: LogEvent)
    ensures LogStep(w, l, e).st == if Steps(e) == [] then l.st else Step(l.st, Steps(e)[0])
    ensures |Steps(e)| <= 1
  {
  }

  /** Keeping the log changes nothing else: beside it stands a run of the protocol. */
  lemma {:induction false} LogIsBesideTheRun(w: World, rules: seq<Rule>, es: seq<LogEvent>)
    ensures LogAfter(w, rules, es).st == After(Start(rules), AllSteps(es))
  {
    if es != [] {
      var front, e := es[..|es| - 1], es[|es| - 1];
      LogIsBesideTheRun(w, rules, front);
      OneStep(w, LogAfter(w, rules, front), e);
      StepsFollow(Start(rules), AllSteps(front), Steps(e));
    }
  }

  lemma StepsFollow(st: State, before: seq<Event>, evs: seq<Event>)
    requires |evs| <= 1
    ensures After(st, before + evs) == if evs == [] then After(st, before) else Step(After(st, before), evs[0])
  {
    if evs == [] {
      assert before + evs == before;
    } else {
      AfterOne(st, before, evs[0]);
      assert evs == [evs[0]];
    }
  }

  // ── What every run keeps ──────────────────────────────────────────

  // Where a request can stand, before and after it is admitted.
  predicate Standing(p: Phase, admitted: bool) {
    if admitted then !p.Arrived? && !p.SessionSeen?
    else p.Arrived? || p.SessionSeen? || p == REFUSED || p.Failed?
  }

  ghost predicate AllStand(l: Logged) {
    && (forall id :: id in l.admitted ==> At(l.st, id))
    && (forall id :: At(l.st, id) ==> Standing(l.st.requests[id].phase, id in l.admitted))
  }

  // The request has passed the kill checks and its row is committed, whether or not anyone still waits for the answer.
  predicate Answered(l: Logged, id: nat) {
    id in l.admitted && At(l.st, id) && l.st.requests[id].phase.Returned?
  }

  function RowsOf(l: Logged, id: nat): nat {
    multiset(l.writers)[Some(id)]
  }

  ghost predicate OneRowEach(l: Logged) {
    forall id: nat :: RowsOf(l, id) == if Answered(l, id) then 1 else 0
  }

  // The row tells what the request asked for and how it was answered.
  predicate Tells(e: Entry, r: Request) {
    && r.phase.Returned? && e.agentId == r.ctx.agentId && e.action == r.ctx.action && e.resource == r.ctx.resource
    && SaysDecision(e, r.phase.decision) && e.tokenJti == r.phase.token && !e.dryRun
  }

  ghost predicate RowsTell(l: Logged) {
    && |l.log| == |l.writers|
    && forall i :: 0 <= i < |l.writers| && l.writers[i].Some? ==>
         At(l.st, l.writers[i].value) && Tells(l.log[i], l.st.requests[l.writers[i].value])
  }

  ghost predicate LogInv(w: World, l: Logged) {
    AllStand(l) && OneRowEach(l) && RowsTell(l) && Intact(l.log, w.hash)
  }

  // A step other than an audit write neither answers an admitted request nor undoes an answer.
  lemma StandingStepped(st: State, ev: Event, id: nat, after: Request, admitted: bool)
    requires !ev.WriteAudit? && Stepped(st, ev, id, after)
    requires if At(st, id) then Standing(st.requests[id].phase, admitted) else !admitted
    ensures var now := admitted || (Passes(st, ev) && ev.id == id);
            && Standing(after.phase, now)
            && (now && after.phase.Returned? <==> admitted && At(st, id) && st.requests[id].phase.Returned?)
    ensures At(st, id) && st.requests[id].phase.Returned? ==> after == st.requests[id]
  {
  }

  lemma RequestKeeps(l: Logged, ev: Event, id: nat)
    requires AllStand(l) && !ev.WriteAudit? && At(Step(l.st, ev), id)
    ensures var after, now := Step(l.st, ev).requests[id], id in l.admitted || (Passes(l.st, ev) && ev.id == id);
            && Standing(after.phase, now)
            && (now && after.phase.Returned? <==> Answered(l, id))
            && (At(l.st, id) && l.st.requests[id].phase.Returned? ==> after == l.st.requests[id])
  {
    RequestMoves(l.st, ev, id);
    StandingStepped(l.st, ev, id, Step(l.st, ev).requests[id], id in l.admitted);
  }

  lemma ProtocolKeeps(w: World, l: Logged, ev: Event, id: nat)
    requires AllStand(l) && !ev.WriteAudit?
    ensures var next := LogStep(w, l, Protocol(ev));
            && (id in next.admitted ==> At(next.st, id))
            && (At(next.st, id) ==> Standing(next.st.requests[id].phase, id in next.admitted))
            && (Answered(next, id) <==> Answered(l, id))
            && (At(l.st, id) && l.st.requests[id].phase.Returned? ==>
                  At(next.st, id) && next.st.requests[id] == l.st.requests[id])
  {
    if At(l.st, id) {
      RequestKept(l.st, ev, id);
    }
    if At(Step(l.st, ev), id) {
      RequestKeeps(l, ev, id);
    }
  }

  lemma ProtocolStep(w: World, l: Logged, ev: Event)
    requires LogInv(w, l) && !ev.WriteAudit?
    ensures LogInv(w, LogStep(w, l, Protocol(ev)))
  {
    forall id: nat {
      ProtocolKeeps(w, l, ev, id);
    }
  }

  lemma AppendedIntact(w: World, l: Logged, c: CreateEntry, timestamp: string, writer: Option<nat>)
    requires Intact(l.log, w.hash)
    ensures Intact(Appended(w, l, c, timestamp, writer).log, w.hash)
  {
    AppendKeepsIntact(l.log, Chained(l.log, w.hash, |l.log| + 1, c, timestamp), w.hash);
  }

  lemma RowsAppended(w: World, l: Logged, c: CreateEntry, timestamp: string, writer: Option<nat>, id: nat)
    ensures RowsOf(Appended(w, l, c, timestamp, writer), id) == RowsOf(l, id) + if writer == Some(id) then 1 else 0
  {
    assert multiset(l.writers + [writer]) == multiset(l.writers) + multiset{writer};
  }

  lemma OtherRows(w: World, l: Logged, c: CreateEntry, timestamp: string)
    requires OneRowEach(l)
    ensures OneRowEach(Appended(w, l, c, timestamp, None))
  {
    var next := Appended(w, l, c, timestamp, None);
    forall id: nat ensures RowsOf(next, id) == if Answered(next, id) then 1 else 0 {
      RowsAppended(w, l, c, timestamp, None, id);
      assert Answered(next, id) == Answered(l, id);
    }
  }

  lemma OtherStep(w: World, l: Logged, c: CreateEntry, timestamp: string)
    requires LogInv(w, l)
    ensures LogInv(w, LogStep(w, l, OtherWrite(c, timestamp)))
  {
    AppendedIntact(w, l, c, timestamp, None);
    OtherRows(w, l, c, timestamp);
  }

  lemma AuditMoves(st: State, id: nat)
    requires Enabled(st, WriteAudit(id))
    ensures Step(st, WriteAudit(id)) == st.(requests := st.requests[id := AnsweredAs(st.requests[id])])
  {
  }

  // The request once its row is written.
  function AnsweredAs(r: Request): Request
    requires r.phase.Counted?
  {
    r.(phase := Returned(r.phase.eval.decision, r.phase.token))
  }

  function AfterAudit(w: World, l: Logged, id: nat, principal: Option<Uuid>, chain: Option<string>,
                      timestamp: string): Logged
    requires At(l.st, id) && l.st.requests[id].phase.Counted?
  {
    Appended(w, l, RowFor(w, l.st.requests[id], principal, chain), timestamp, Some(id))
      .(st := l.st.(requests := l.st.requests[id := AnsweredAs(l.st.requests[id])]))
  }

  lemma AuditRows(w: World, l: Logged, id: nat, principal: Option<Uuid>, chain: Option<string>, timestamp: string)
    requires At(l.st, id) && l.st.requests[id].phase.Counted? && AllStand(l) && OneRowEach(l)
    ensures OneRowEach(AfterAudit(w, l, id, principal, chain, timestamp))
  {
    var next := AfterAudit(w, l, id, principal, chain, timestamp);
    assert id in l.admitted;
    forall other: nat ensures RowsOf(next, other) == if Answered(next, other) then 1 else 0 {
      RowsAppended(w, l, RowFor(w, l.st.requests[id], principal, chain), timestamp, Some(id), other);
      assert Answered(next, other) <==> other == id || Answered(l, other);
    }
  }

  lemma AuditTells(w: World, l: Logged, id: nat, principal: Option<Uuid>, chain: Option<string>, timestamp: string)
    requires At(l.st, id) && l.st.requests[id].phase.Counted? && RowsTell(l)
    ensures RowsTell(AfterAudit(w, l, id, principal, chain, timestamp))
  {
    var next := AfterAudit(w, l, id, principal, chain, timestamp);
    forall i | 0 <= i < |next.writers| && next.writers[i].Some?
      ensures At(next.st, next.writers[i].value) && Tells(next.log[i], next.st.requests[next.writers[i].value])
    {
      if i < |l.writers| {
        assert next.writers[i] == l.writers[i] && next.log[i] == l.log[i];
        assert l.writers[i] != Some(id);
      } else {
        assert next.writers[i] == Some(id);
      }
    }
  }

  lemma AuditStep(w: World, l: Logged, id: nat, principal: Option<Uuid>, chain: Option<string>, timestamp: string)
    requires LogInv(w, l)
    ensures LogInv(w, LogStep(w, l, AuditWrite(id, principal, chain, timestamp)))
  {
    if Enabled(l.st, WriteAudit(id)) {
      AuditMoves(l.st, id);
      AppendedIntact(w, l, RowFor(w, l.st.requests[id], principal, chain), timestamp, Some(id));
      AuditRows(w, l, id, principal, chain, timestamp);
      AuditTells(w, l, id, principal, chain, timestamp);
      assert LogStep(w, l, AuditWrite(id, principal, chain, timestamp))
             == AfterAudit(w, l, id, principal, chain, timestamp);
    }
  }

  lemma {:induction false} LogInvAlways(w: World, rules: seq<Rule>, es: seq<LogEvent>)
    ensures LogInv(w, LogAfter(w, rules, es))
  {
    if es != [] {
      var l := LogAfter(w, rules, es[..|es| - 1]);
      LogInvAlways(w, rules, es[..|es| - 1]);
      match es[|es| - 1] {
        case Protocol(ev) => if !ev.WriteAudit? { ProtocolStep(w, l, ev); }
        case AuditWrite(id, principal, chain, timestamp) => AuditStep(w, l, id, principal, chain, timestamp);
        case OtherWrite(c, timestamp) => OtherStep(w, l, c, timestamp);
      }
    }
  }

  /** In every interleaving the chain is intact; a request that has passed the kill checks has exactly one row once it
      is answered and none before or if it fails; and that row tells its agent, action, resource, decision and token.
      Answered means that the row is committed: a client that leaves during the audit write leaves its row all the
      same, and a request fails without one only when it stops before that write is handed over, or when the write
      itself fails. */
  lemma OneRowPerAnswer(w: World, rules: seq<Rule>, es: seq<LogEvent>, id: nat)
    ensures var l := LogAfter(w, rules, es);
            && Intact(l.log, w.hash) && |l.log| == |l.writers|
            && RowsOf(l, id) == (if Answered(l, id) then 1 else 0)
            && forall i :: 0 <= i < |l.writers| && l.writers[i] == Some(id) ==>
                 At(l.st, id) && Tells(l.log[i], l.st.requests[id])
  {
    LogInvAlways(w, rules, es);
  }

  /** A request refused by a kill check leaves no row. */
  lemma RefusalsLeaveNoRow(w: World, rules: seq<Rule>, es: seq<LogEvent>, id: nat)
    ensures var l := LogAfter(w, rules, es);
            At(l.st, id) && id !in l.admitted && l.st.requests[id].phase.Returned? ==>
              l.st.requests[id].phase == REFUSED && RowsOf(l, id) == 0 && Some(id) !in l.writers
  {
    LogInvAlways(w, rules, es);
  }

  /** An audit write appends the row of its request, chained to the last, with the principal, the presented chain, the
      reason and the time it carries, and answers the request as evaluated. */
  lemma AuditWriteAppends(w: World, l: Logged, id: nat, principal: Option<Uuid>, chain: Option<string>,
                          timestamp: string)
    requires Enabled(l.st, WriteAudit(id))
    ensures var next, r := LogStep(w, l, AuditWrite(id, principal, chain, timestamp)), l.st.requests[id];
            && |next.log| == |l.log| + 1 && next.log[..|l.log|] == l.log && next.admitted == l.admitted
            && next.writers == l.writers + [Some(id)]
            && At(next.st, id) && next.st.requests[id].phase == Returned(r.phase.eval.decision, r.phase.token)
            && var row := next.log[|l.log|];
               && row.prevHash == Head(l.log) && RowOk(row, w.hash) && row.principalId == principal
               && row.delegationChain == chain && row.timestamp == timestamp
               && row.reason == w.text(r.phase.eval.reason)
               && Tells(row, next.st.requests[id])
  {
    AuditMoves(l.st, id);
  }
}
