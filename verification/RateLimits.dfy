/** The fixed-window rate limiter: one counter per key, reset when more than a minute has passed. */
module RateLimits {
  import opened Common

  datatype Window = Window(start: Instant, count: nat)

  type Limits = map<string, Window>

  // One call: the limiter afterwards and whether the call is let through. The first call of a
  // window always is.
  function Charge(limits: Limits, key: string, max: nat, now: Instant): (Limits, bool) {
    if key !in limits || now - limits[key].start > MINUTE then
      (limits[key := Window(now, 1)], true)
    else
      var count := limits[key].count + 1;
      (limits[key := Window(limits[key].start, count)], count <= max)
  }

  // ── Every sequence of calls ───────────────────────────────────────

  datatype Call = Call(key: string, max: nat, now: Instant)

  // The limiter after the first n calls.
  function After(calls: seq<Call>, n: nat): Limits
    requires n <= |calls|
  {
    if n == 0 then map[] else
      var c := calls[n - 1];
      Charge(After(calls, n - 1), c.key, c.max, c.now).0
  }

  predicate Accepted(calls: seq<Call>, i: nat)
    requires i < |calls|
  {
    Charge(After(calls, i), calls[i].key, calls[i].max, calls[i].now).1
  }

  // Of the first n calls, how many for the key under a limit of at most m, between two instants, both included, were
  // let through.
  function AcceptedIn(calls: seq<Call>, n: nat, key: string, m: nat, from: Instant, to: Instant): nat
    requires n <= |calls|
  {
    if n == 0 then 0 else
      var c := calls[n - 1];
      AcceptedIn(calls, n - 1, key, m, from, to)
      + (if c.key == key && c.max <= m && from <= c.now <= to && Accepted(calls, n - 1) then 1 else 0)
  }

  // Of the first n calls, how many for the key were let through since its current window opened.
  function AcceptedInWindow(calls: seq<Call>, n: nat, key: string): nat
    requires n <= |calls|
  {
    if n == 0 then 0 else
      var before, c := After(calls, n - 1), calls[n - 1];
      if c.key != key then AcceptedInWindow(calls, n - 1, key)
      else if key !in before || c.now - before[key].start > MINUTE then 1
      else AcceptedInWindow(calls, n - 1, key) + (if Accepted(calls, n - 1) then 1 else 0)
  }

  predicate ClockNeverBack(calls: seq<Call>) {
    forall i, j :: 0 <= i < j < |calls| ==> calls[i].now <= calls[j].now
  }

  predicate ConstantLimit(calls: seq<Call>, key: string, m: nat) {
    forall i :: 0 <= i < |calls| && calls[i].key == key ==> calls[i].max == m
  }

  /** A window lets through exactly as many calls as it has seen, up to the limit, and never none. */
  lemma {:induction false} WindowBound(calls: seq<Call>, n: nat, key: string, m: nat)
    requires ConstantLimit(calls, key, m) && n <= |calls| && key in After(calls, n)
    ensures AcceptedInWindow(calls, n, key) == Min(After(calls, n)[key].count, Max(1, m)) >= 1
  {
    if key in After(calls, n - 1) {
      WindowBound(calls, n - 1, key, m);
    }
  }

  // Where the current window stands relative to the span decides how much of the span is used up.
  lemma {:induction false} SpanInvariant(calls: seq<Call>, n: nat, key: string, m: nat, t: Instant)
    requires ClockNeverBack(calls) && n <= |calls|
    ensures var used, top := AcceptedIn(calls, n, key, m, t, t + MINUTE), Max(1, m);
            if key !in After(calls, n) then used == 0
            else
              var w := After(calls, n)[key];
              && n > 0 && 1 <= w.count && w.start <= calls[n - 1].now
              && (w.start < t ==> used <= Min(w.count, top) - 1)
              && (t <= w.start <= t + MINUTE ==> used <= top - 1 + Min(w.count, top))
              && (t + MINUTE < w.start ==> used <= 2 * top - 1)
              && (calls[n - 1].now < t ==> used == 0)
  {
    if n > 0 {
      SpanInvariant(calls, n - 1, key, m, t);
    }
  }

  /** In any closed one-minute span at most 2 * max(1, m) - 1 calls for one key are let through under limits of at most
      m, whatever limits the other calls for it carry. */
  lemma SpanBound(calls: seq<Call>, key: string, m: nat, t: Instant)
    requires ClockNeverBack(calls)
    ensures AcceptedIn(calls, |calls|, key, m, t, t + MINUTE) <= 2 * Max(1, m) - 1
  {
    SpanInvariant(calls, |calls|, key, m, t);
  }

  // One call to open a window, the rest of its allowance a minute later and then, just past the
  // minute, a whole new allowance.
  function Burst(key: string, m: nat): seq<Call> {
    seq(2 * Max(1, m), i => Call(key, m, if i == 0 then 0 else if i < Max(1, m) then MINUTE else MINUTE + 1))
  }

  lemma {:induction false} BurstProgress(key: string, m: nat, n: nat)
    requires 1 <= n <= 2 * Max(1, m)
    ensures var calls, top := Burst(key, m), Max(1, m);
            && key in After(calls, n)
            && After(calls, n)[key] == (if n <= top then Window(0, n) else Window(MINUTE + 1, n - top))
            && AcceptedIn(calls, n, key, m, 1, 1 + MINUTE) == n - 1
  {
    if n == 1 {
      assert After(Burst(key, m), 0) == map[];
    } else {
      BurstProgress(key, m, n - 1);
    }
  }

  /** The span bound is reached, for every limit. */
  lemma SpanBoundReached(key: string, m: nat)
    ensures ClockNeverBack(Burst(key, m)) && ConstantLimit(Burst(key, m), key, m)
    ensures AcceptedIn(Burst(key, m), |Burst(key, m)|, key, m, 1, 1 + MINUTE) == 2 * Max(1, m) - 1
  {
    BurstProgress(key, m, 2 * Max(1, m));
  }

  function CallsFor(calls: seq<Call>, n: nat, key: string): seq<Call>
    requires n <= |calls|
  {
    if n == 0 then []
    else CallsFor(calls, n - 1, key) + (if calls[n - 1].key == key then [calls[n - 1]] else [])
  }

  lemma {:induction false} OnlyPastCounts(calls: seq<Call>, more: seq<Call>, n: nat, key: string, m: nat,
                                          from: Instant, to: Instant)
    requires n <= |calls|
    ensures After(calls + more, n) == After(calls, n)
    ensures AcceptedIn(calls + more, n, key, m, from, to) == AcceptedIn(calls, n, key, m, from, to)
  {
    if n > 0 {
      OnlyPastCounts(calls, more, n - 1, key, m, from, to);
    }
  }

  // To a key, the first n calls are as the calls `mine`.
  ghost predicate SameForKey(calls: seq<Call>, n: nat, mine: seq<Call>, key: string, m: nat, from: Instant, to: Instant)
    requires n <= |calls|
  {
    && (key in After(calls, n) <==> key in After(mine, |mine|))
    && (key in After(calls, n) ==> After(calls, n)[key] == After(mine, |mine|)[key])
    && AcceptedIn(calls, n, key, m, from, to) == AcceptedIn(mine, |mine|, key, m, from, to)
  }

  // A charge depends on the window of its own key only, and touches no other.
  lemma ChargeIsLocal(limits: Limits, others: Limits, key: string, max: nat, now: Instant)
    requires key in limits <==> key in others
    requires key in limits ==> limits[key] == others[key]
    ensures Charge(limits, key, max, now).1 == Charge(others, key, max, now).1
    ensures key in Charge(limits, key, max, now).0 && key in Charge(others, key, max, now).0
    ensures Charge(limits, key, max, now).0[key] == Charge(others, key, max, now).0[key]
    ensures forall k :: k != key ==> (k in Charge(limits, key, max, now).0 <==> k in limits)
                                     && (k in limits ==> Charge(limits, key, max, now).0[k] == limits[k])
  {
  }

  lemma OwnCallSame(calls: seq<Call>, n: nat, mine: seq<Call>, key: string, m: nat, from: Instant, to: Instant)
    requires n < |calls| && calls[n].key == key && SameForKey(calls, n, mine, key, m, from, to)
    ensures SameForKey(calls, n + 1, mine + [calls[n]], key, m, from, to)
  {
    var c := calls[n];
    OnlyPastCounts(mine, [c], |mine|, key, m, from, to);
    ChargeIsLocal(After(calls, n), After(mine, |mine|), key, c.max, c.now);
  }

  lemma OtherCallSame(calls: seq<Call>, n: nat, mine: seq<Call>, key: string, m: nat, from: Instant, to: Instant)
    requires n < |calls| && calls[n].key != key && SameForKey(calls, n, mine, key, m, from, to)
    ensures SameForKey(calls, n + 1, mine, key, m, from, to)
  {
    ChargeIsLocal(After(calls, n), After(calls, n), calls[n].key, calls[n].max, calls[n].now);
  }

  /** Calls for other keys are invisible to a key: its window and its acceptances are those of its own calls. */
  lemma {:induction false} KeysIndependent(calls: seq<Call>, n: nat, key: string, m: nat, from: Instant, to: Instant)
    requires n <= |calls|
    ensures SameForKey(calls, n, CallsFor(calls, n, key), key, m, from, to)
  {
    if n > 0 {
      KeysIndependent(calls, n - 1, key, m, from, to);
      var before := CallsFor(calls, n - 1, key);
      if calls[n - 1].key == key {
        OwnCallSame(calls, n - 1, before, key, m, from, to);
      } else {
        OtherCallSame(calls, n - 1, before, key, m, from, to);
        assert before + [] == before;
      }
    }
  }

  // ── Fixed windows, without the limiter's state ────────────────────

  // Call i opens a window: every earlier opening for its key lies more than a minute before it.
  predicate Opens(calls: seq<Call>, i: nat)
    requires i < |calls|
    decreases i
  {
    forall j :: 0 <= j < i && calls[j].key == calls[i].key && Opens(calls, j) ==> calls[i].now - calls[j].now > MINUTE
  }

  // How many of the calls from position i up to position n are for the key.
  function CallsIn(calls: seq<Call>, i: nat, n: nat, key: string): nat
    requires i <= n <= |calls|
  {
    if i == n then 0 else CallsIn(calls, i, n - 1, key) + (if calls[n - 1].key == key then 1 else 0)
  }

  // Call j opened the latest window for the key among the first n calls.
  predicate LatestOpening(calls: seq<Call>, n: nat, key: string, j: nat)
    requires n <= |calls|
  {
    && j < n && calls[j].key == key && Opens(calls, j)
    && forall i :: 0 <= i < n && i != j && calls[i].key == key && Opens(calls, i) ==>
         i < j && calls[j].now - calls[i].now > MINUTE
  }

  // The window kept for a key is the latest one opened, with the calls it has seen.
  lemma {:induction false} KeptWindow(calls: seq<Call>, n: nat, key: string) returns (j: nat)
    requires n <= |calls|
    ensures key !in After(calls, n) ==> forall i :: 0 <= i < n ==> calls[i].key != key
    ensures key in After(calls, n) ==>
              && LatestOpening(calls, n, key, j)
              && After(calls, n)[key] == Window(calls[j].now, CallsIn(calls, j, n, key))
  {
    j := 0;
    if n > 0 {
      j := KeptWindow(calls, n - 1, key);
      if calls[n - 1].key == key {
        j := OwnCallKept(calls, n - 1, key, j);
      }
    }
  }

  lemma OpensExactly(calls: seq<Call>, n: nat, j: nat)
    requires n < |calls| && LatestOpening(calls, n, calls[n].key, j)
    ensures Opens(calls, n) <==> calls[n].now - calls[j].now > MINUTE
  {
  }

  lemma OwnCallKept(calls: seq<Call>, n: nat, key: string, j: nat) returns (j': nat)
    requires n < |calls| && calls[n].key == key
    requires key !in After(calls, n) ==> forall i :: 0 <= i < n ==> calls[i].key != key
    requires key in After(calls, n) ==>
               && LatestOpening(calls, n, key, j)
               && After(calls, n)[key] == Window(calls[j].now, CallsIn(calls, j, n, key))
    ensures key in After(calls, n + 1) && LatestOpening(calls, n + 1, key, j')
    ensures After(calls, n + 1)[key] == Window(calls[j'].now, CallsIn(calls, j', n + 1, key))
  {
    if key in After(calls, n) {
      OpensExactly(calls, n, j);
    }
    j' := if Opens(calls, n) then n else j;
    if j' == n {
      assert CallsIn(calls, n, n, key) == 0;
    }
  }

  lemma {:induction false} EarlierCountsMore(calls: seq<Call>, i: nat, j: nat, n: nat, key: string)
    requires i <= j <= n <= |calls|
    ensures CallsIn(calls, i, n, key) >= CallsIn(calls, j, n, key)
  {
    if j < n {
      EarlierCountsMore(calls, i, j, n - 1, key);
    }
  }

  // The call is within its allowance of the window that call j opened.
  predicate WithinAllowance(calls: seq<Call>, i: nat, j: nat)
    requires i < |calls|
  {
    && j < i && calls[j].key == calls[i].key && Opens(calls, j) && calls[i].now - calls[j].now <= MINUTE
    && CallsIn(calls, j, i + 1, calls[i].key) <= calls[i].max
  }

  /** A call is let through exactly when it opens a window, or when the calls for its key from the opening of a window
      that is at most a minute old, itself and refused ones included, are no more than its limit. */
  lemma LetThroughExactly(calls: seq<Call>, i: nat)
    requires i < |calls|
    ensures Accepted(calls, i) <==> Opens(calls, i) || exists j :: WithinAllowance(calls, i, j)
  {
    var key := calls[i].key;
    var j := KeptWindow(calls, i, key);
    if key in After(calls, i) {
      OpensExactly(calls, i, j);
      if !Opens(calls, i) {
        assert Accepted(calls, i) <==> WithinAllowance(calls, i, j);
        forall k | WithinAllowance(calls, i, k) ensures WithinAllowance(calls, i, j) {
          EarlierCountsMore(calls, k, j, i + 1, key);
        }
      }
    }
  }

  /** Refusals never prolong a window: a refused call comes at most a minute after a call for its key that was let
      through, since when the key has seen at least the limit. */
  lemma RefusedExactly(calls: seq<Call>, i: nat)
    requires i < |calls| && !Accepted(calls, i)
    ensures exists j :: 0 <= j < i && calls[j].key == calls[i].key && Accepted(calls, j)
                        && calls[i].now - calls[j].now <= MINUTE
                        && CallsIn(calls, j, i, calls[i].key) >= Max(1, calls[i].max)
  {
    var key := calls[i].key;
    LetThroughExactly(calls, i);
    var j := KeptWindow(calls, i, key);
    OpensExactly(calls, i, j);
    LetThroughExactly(calls, j);
    assert !WithinAllowance(calls, i, j);
    CountsOpening(calls, j, i, key);
  }

  lemma {:induction false} CountsOpening(calls: seq<Call>, j: nat, n: nat, key: string)
    requires j < n <= |calls| && calls[j].key == key
    ensures CallsIn(calls, j, n, key) >= 1
    decreases n
  {
    if j + 1 < n {
      CountsOpening(calls, j, n - 1, key);
    } else {
      assert CallsIn(calls, j, j, key) == 0;
    }
  }
}
