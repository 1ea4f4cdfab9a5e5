/** The limiter under concurrency: the requests and dry runs of a whole interleaved run share it, and the bound on
    one minute holds of the requests it lets past. */
module LimitedRuns {
  import opened Common
  import opened Policy
  import opened Access
  import RateLimits

  // The call an event makes to the limiter, if it makes one.
  function CallOf(st: State, ev: Event): Option<RateLimits.Call> {
    if !Enabled(st, ev) then None else
      match ev
      case CheckLimit(id, now) =>
        var r := st.requests[id];
        if r.phase.rule.rateLimitPerMinute.Some? && r.ctx.sessionId.Some? then
          var key := RateKey(r.ctx.sessionId.value, r.ctx.action, r.ctx.resource);
          Some(RateLimits.Call(key, r.phase.rule.rateLimitPerMinute.value, now))
        else None
      case DryRun(key, max, now) => Some(RateLimits.Call(key, max, now))
      case _ => None
  }

  function Listed(call: Option<RateLimits.Call>): seq<RateLimits.Call> {
    if call.Some? then [call.value] else []
  }

  // The calls of a run, in the order in which they hold the lock.
  function Calls(rules: seq<Rule>, evs: seq<Event>): seq<RateLimits.Call> {
    if evs == [] then []
    else Calls(rules, evs[..|evs| - 1]) + Listed(CallOf(After(Start(rules), evs[..|evs| - 1]), evs[|evs| - 1]))
  }

  // The event is a request's limiter check, for the key, under a limit of at most m and in the span, and the request
  // goes on.
  predicate LetsPast(st: State, ev: Event, key: string, m: nat, from: Instant, to: Instant) {
    && ev.CheckLimit? && Enabled(st, ev) && LimitCheck(st, ev.id, ev.now).1.None?
    && CallOf(st, ev).Some? && CallOf(st, ev).value.key == key && CallOf(st, ev).value.max <= m && from <= ev.now <= to
  }

  // How many requests of a run the limiter so lets past.
  function LetPastIn(rules: seq<Rule>, evs: seq<Event>, key: string, m: nat, from: Instant, to: Instant): nat {
    if evs == [] then 0 else
      var front, ev := evs[..|evs| - 1], evs[|evs| - 1];
      LetPastIn(rules, front, key, m, from, to)
      + (if LetsPast(After(Start(rules), front), ev, key, m, from, to) then 1 else 0)
  }

  // The limiter after an event's call, if it makes one.
  function Charged(limits: RateLimits.Limits, call: Option<RateLimits.Call>): RateLimits.Limits {
    if call.Some? then RateLimits.Charge(limits, call.value.key, call.value.max, call.value.now).0 else limits
  }

  lemma StoreCharges(st: State, ev: Event)
    requires Enabled(st, ev)
    ensures NextStore(st, ev).limits == Charged(st.store.limits, CallOf(st, ev))
  {
  }

  // A step does to the limiter what its call does.
  lemma StepCharges(st: State, ev: Event)
    ensures Step(st, ev).store.limits == Charged(st.store.limits, CallOf(st, ev))
  {
    if Enabled(st, ev) {
      StoreCharges(st, ev);
    }
  }

  lemma PastMeansAccepted(st: State, ev: Event, key: string, m: nat, from: Instant, to: Instant)
    requires LetsPast(st, ev, key, m, from, to)
    ensures CallOf(st, ev).Some?
    ensures var c := CallOf(st, ev).value;
            && c.key == key && c.max <= m && from <= c.now <= to
            && RateLimits.Charge(st.store.limits, c.key, c.max, c.now).1
  {
  }

  lemma {:induction false} RunCharges(rules: seq<Rule>, evs: seq<Event>, key: string, m: nat, from: Instant,
                                      to: Instant)
    ensures var calls := Calls(rules, evs);
            && After(Start(rules), evs).store.limits == RateLimits.After(calls, |calls|)
            && LetPastIn(rules, evs, key, m, from, to) <= RateLimits.AcceptedIn(calls, |calls|, key, m, from, to)
  {
    if evs != [] {
      var front, ev := evs[..|evs| - 1], evs[|evs| - 1];
      RunCharges(rules, front, key, m, from, to);
      OneEvent(After(Start(rules), front), ev, Calls(rules, front), key, m, from, to);
    }
  }

  // What one event adds to the calls, and to the requests let past.
  lemma OneEvent(st: State, ev: Event, before: seq<RateLimits.Call>, key: string, m: nat, from: Instant, to: Instant)
    requires st.store.limits == RateLimits.After(before, |before|)
    ensures var calls := before + Listed(CallOf(st, ev));
            && Step(st, ev).store.limits == RateLimits.After(calls, |calls|)
            && RateLimits.AcceptedIn(calls, |calls|, key, m, from, to)
               >= RateLimits.AcceptedIn(before, |before|, key, m, from, to)
                  + if LetsPast(st, ev, key, m, from, to) then 1 else 0
  {
    StepCharges(st, ev);
    if CallOf(st, ev).Some? {
      RateLimits.OnlyPastCounts(before, [CallOf(st, ev).value], |before|, key, m, from, to);
    } else {
      assert before + [] == before;
    }
    if LetsPast(st, ev, key, m, from, to) {
      PastMeansAccepted(st, ev, key, m, from, to);
    }
  }

  /** In every interleaving, in any closed minute at most 2 * max(1, m) - 1 requests for one key are let past limits of
      at most m, whatever else is charged to that key in between, under whatever limits: by dry runs, by other rules,
      or by the rules before or after a reload. */
  lemma RequestsPerMinute(rules: seq<Rule>, evs: seq<Event>, key: string, m: nat, t: Instant)
    requires RateLimits.ClockNeverBack(Calls(rules, evs))
    ensures LetPastIn(rules, evs, key, m, t, t + MINUTE) <= 2 * Max(1, m) - 1
  {
    RunCharges(rules, evs, key, m, t, t + MINUTE);
    RateLimits.SpanBound(Calls(rules, evs), key, m, t);
  }
}
