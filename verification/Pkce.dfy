/** The store of pending logins: single use, ten minutes, pruned on every insertion. */
module Pkce {
  import opened Common

  const STATE_TTL: int := 600 * SECOND

  datatype Transaction = Transaction(providerName: string, codeVerifier: string, createdAt: Instant)

  type Pending = map<string, Transaction>

  predicate Live(t: Transaction, now: Instant) {
    now - t.createdAt < STATE_TTL
  }

  function Inserted(txns: Pending, state: string, t: Transaction, now: Instant): Pending {
    (map s | s in txns && Live(txns[s], now) :: txns[s])[state := t]
  }

  function Consumed(txns: Pending, state: string): Pending {
    txns - {state}
  }

  function Answer(txns: Pending, state: string, now: Instant): Option<Transaction> {
    if state in txns && Live(txns[state], now) then Some(txns[state]) else None
  }

  class PkceStore {
    var transactions: Pending

    constructor ()
      ensures transactions == map[]
    {
      transactions := map[];
    }

    /** Records a login; everything then stored is live. */
    method Insert(state: string, providerName: string, codeVerifier: string, now: Instant)
      modifies this
      ensures transactions == Inserted(old(transactions), state, Transaction(providerName, codeVerifier, now), now)
      ensures forall s :: s in transactions ==> Live(transactions[s], now)
    {
      transactions := map s | s in transactions && Live(transactions[s], now) :: transactions[s];
      transactions := transactions[state := Transaction(providerName, codeVerifier, now)];
    }

    /** Takes a login out, whether or not it has expired. */
    method Consume(state: string, now: Instant) returns (txn: Option<Transaction>)
      modifies this
      ensures txn == Answer(old(transactions), state, now)
      ensures transactions == Consumed(old(transactions), state)
    {
      if state !in transactions {
        assert transactions == Consumed(transactions, state);
        return None;
      }
      var taken := transactions[state];
      transactions := transactions - {state};
      var age := now - taken.createdAt;
      txn := if age < STATE_TTL then Some(taken) else None;
    }
  }

  // ── Every history ─────────────────────────────────────────────────

  datatype Op =
    | Insert(state: string, providerName: string, codeVerifier: string, now: Instant)
    | Consume(state: string, now: Instant)

  function Apply(txns: Pending, op: Op): Pending {
    match op
    case Insert(state, provider, verifier, now) => Inserted(txns, state, Transaction(provider, verifier, now), now)
    case Consume(state, _) => Consumed(txns, state)
  }

  function After(ops: seq<Op>): Pending {
    if ops == [] then map[] else Apply(After(ops[..|ops| - 1]), ops[|ops| - 1])
  }

  predicate ClockNeverBack(ops: seq<Op>) {
    forall i, j :: 0 <= i < j < |ops| ==> ops[i].now <= ops[j].now
  }

  // Reference: nothing is ever pruned; only the latest operation on a state matters.
  function Latest(ops: seq<Op>, state: string): Option<Op> {
    if ops == [] then None
    else if ops[|ops| - 1].state == state then Some(ops[|ops| - 1])
    else Latest(ops[..|ops| - 1], state)
  }

  function Expected(ops: seq<Op>, state: string, now: Instant): Option<Transaction> {
    match Latest(ops, state)
    case Some(Insert(_, provider, verifier, at)) =>
      if now - at < 600 * SECOND then Some(Transaction(provider, verifier, at)) else None
    case _ => None
  }

  lemma {:induction false} StoreTracksLatest(ops: seq<Op>, s: string)
    requires ClockNeverBack(ops)
    ensures s in After(ops) ==>
              && Latest(ops, s).Some? && Latest(ops, s).value.Insert?
              && var i := Latest(ops, s).value;
                 After(ops)[s] == Transaction(i.providerName, i.codeVerifier, i.now)
    ensures s !in After(ops) && Latest(ops, s).Some? && Latest(ops, s).value.Insert? ==>
              ops[|ops| - 1].now - Latest(ops, s).value.now >= STATE_TTL
  {
    if ops != [] {
      StoreTracksLatest(ops[..|ops| - 1], s);
    }
  }

  /** Pruning is invisible: a login is consumed successfully exactly when the latest operation on its
      state is an insertion less than ten minutes old, and then that insertion is what is returned. */
  lemma PruningInvisible(ops: seq<Op>, state: string, now: Instant)
    requires ClockNeverBack(ops + [Consume(state, now)])
    ensures Answer(After(ops), state, now) == Expected(ops, state, now)
  {
    var all := ops + [Consume(state, now)];
    forall i, j | 0 <= i < j < |ops| ensures ops[i].now <= ops[j].now {
      assert all[i] == ops[i] && all[j] == ops[j];
    }
    StoreTracksLatest(ops, state);
    if ops != [] {
      assert all[|ops| - 1].now <= all[|ops|].now;
    }
  }

  // The i-th operation is a consumption that succeeded.
  predicate Succeeded(ops: seq<Op>, i: nat) {
    i < |ops| && ops[i].Consume? && Answer(After(ops[..i]), ops[i].state, ops[i].now).Some?
  }

  /** No insertion is consumed twice: between two successes on one state there is another insertion. */
  lemma ConsumedAtMostOnce(ops: seq<Op>, i: nat, j: nat)
    requires ClockNeverBack(ops) && i < j && Succeeded(ops, i) && Succeeded(ops, j) && ops[i].state == ops[j].state
    ensures exists k :: i < k < j && ops[k].Insert? && ops[k].state == ops[i].state
  {
    StoreTracksLatest(ops[..j], ops[j].state);
    LatestIsLaterThan(ops, i, j, ops[i].state);
  }

  lemma {:induction false} LatestIsLaterThan(ops: seq<Op>, i: nat, j: nat, state: string)
    requires i < j <= |ops| && ops[i].state == state
    ensures exists k :: i <= k < j && Latest(ops[..j], state) == Some(ops[k]) && ops[k].state == state
  {
    var upto := ops[..j];
    assert upto[j - 1] == ops[j - 1];
    if ops[j - 1].state != state {
      assert upto[..j - 1] == ops[..j - 1];
      LatestIsLaterThan(ops, i, j - 1, state);
    }
  }
}
