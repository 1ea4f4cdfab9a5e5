/** The hash-chained audit log: its appender, its verifier, and what an intact chain binds.
    The digest is a parameter; its quality is a hypothesis on the payloads in play. */
module Audit {
  import opened Common

  // The hash the first row points back to: sixty-four zeros.
  const GENESIS: string := Zeros(64)

  function Zeros(n: nat): string {
    seq(n, _ => '0')
  }

  // A stored row. Identifiers, the timestamp and the JSON chain appear in their printed form.
  datatype Entry = Entry(
    id: int, prevHash: string, rowHash: string,
    agentId: Uuid, principalId: Option<Uuid>,
    action: string, resource: string, decision: string, reason: string,
    delegationChain: Option<string>, tokenJti: Option<string>, dryRun: bool, timestamp: string)

  datatype CreateEntry = CreateEntry(
    agentId: Uuid, principalId: Option<Uuid>,
    action: string, resource: string, decision: Decision, reason: string,
    delegationChain: Option<string>, tokenJti: Option<string>, dryRun: bool)

  function OrEmpty(s: Option<string>): string {
    if s.Some? then s.value else ""
  }

  function Flag(b: bool): string {
    if b then ['\U{0001}'] else ['\U{0000}']
  }

  // Everything hashed after the predecessor's hash: the fields in order, without separators.
  function Body(e: Entry): string {
    e.agentId + FromPrincipal(e)
  }

  function FromPrincipal(e: Entry): string {
    OrEmpty(e.principalId) + FromAction(e)
  }

  function FromAction(e: Entry): string {
    e.action + FromResource(e)
  }

  function FromResource(e: Entry): string {
    e.resource + FromDecision(e)
  }

  function FromDecision(e: Entry): string {
    e.decision + FromReason(e)
  }

  function FromReason(e: Entry): string {
    e.reason + FromTimestamp(e)
  }

  function FromTimestamp(e: Entry): string {
    e.timestamp + FromChain(e)
  }

  function FromChain(e: Entry): string {
    OrEmpty(e.delegationChain) + FromToken(e)
  }

  function FromToken(e: Entry): string {
    OrEmpty(e.tokenJti) + Flag(e.dryRun)
  }

  function Payload(e: Entry): string {
    e.prevHash + Body(e)
  }

  function IfPresent(s: Option<string>): seq<string> {
    if s.Some? then [s.value] else []
  }

  function Concat(parts: seq<string>): string {
    if parts == [] then "" else parts[0] + Concat(parts[1..])
  }

  lemma ConcatOne(part: string, rest: seq<string>)
    ensures Concat([part] + rest) == part + Concat(rest)
  {
    assert ([part] + rest)[1..] == rest;
  }

  lemma ConcatOptional(part: Option<string>, rest: seq<string>)
    ensures Concat(IfPresent(part) + rest) == OrEmpty(part) + Concat(rest)
  {
    if part.Some? {
      ConcatOne(part.value, rest);
    } else {
      assert [] + rest == rest;
    }
  }

  // The fields of a row in the order they are hashed, absent ones left out.
  function Fields(e: Entry): seq<string> {
    [e.prevHash] + ([e.agentId] + (IfPresent(e.principalId) + ([e.action] + ([e.resource] + ([e.decision]
    + ([e.reason] + ([e.timestamp] + LastFields(e))))))))
  }

  function LastFields(e: Entry): seq<string> {
    IfPresent(e.delegationChain) + (IfPresent(e.tokenJti) + [Flag(e.dryRun)])
  }

  lemma LastFieldsInOrder(e: Entry)
    ensures FromChain(e) == Concat(LastFields(e))
  {
    ConcatOne(Flag(e.dryRun), []);
    assert [Flag(e.dryRun)] + [] == [Flag(e.dryRun)];
    ConcatOptional(e.tokenJti, [Flag(e.dryRun)]);
    ConcatOptional(e.delegationChain, IfPresent(e.tokenJti) + [Flag(e.dryRun)]);
  }

  /** The payload is the present fields, in that order, with nothing in between. */
  lemma PayloadIsFieldsInOrder(e: Entry)
    ensures Payload(e) == Concat(Fields(e))
  {
    LastFieldsInOrder(e);
    var f7 := [e.timestamp] + LastFields(e);
    var f6 := [e.reason] + f7;
    var f5 := [e.decision] + f6;
    var f4 := [e.resource] + f5;
    var f3 := [e.action] + f4;
    var f2 := IfPresent(e.principalId) + f3;
    ConcatOne(e.timestamp, LastFields(e));
    ConcatOne(e.reason, f7);
    ConcatOne(e.decision, f6);
    ConcatOne(e.resource, f5);
    ConcatOne(e.action, f4);
    ConcatOptional(e.principalId, f3);
    ConcatOne(e.agentId, f2);
    ConcatOne(e.prevHash, [e.agentId] + f2);
  }

  lemma Regroup(fed: string, field: string, rest: string)
    ensures fed + (field + rest) == (fed + field) + rest
  {
  }

  /** The digest of a row: the fields fed to the hasher one after the other, absent ones skipped. */
  method ComputeHash(e: Entry, hash: string -> string) returns (digest: string)
    ensures digest == hash(Payload(e))
  {
    var hasher := e.prevHash;
    Regroup(hasher, e.agentId, FromPrincipal(e));
    hasher := hasher + e.agentId;
    Regroup(hasher, OrEmpty(e.principalId), FromAction(e));
    hasher := FeedOptional(hasher, e.principalId);
    Regroup(hasher, e.action, FromResource(e));
    hasher := hasher + e.action;
    Regroup(hasher, e.resource, FromDecision(e));
    hasher := hasher + e.resource;
    Regroup(hasher, e.decision, FromReason(e));
    hasher := hasher + e.decision;
    Regroup(hasher, e.reason, FromTimestamp(e));
    hasher := hasher + e.reason;
    Regroup(hasher, e.timestamp, FromChain(e));
    hasher := hasher + e.timestamp;
    Regroup(hasher, OrEmpty(e.delegationChain), FromToken(e));
    hasher := FeedOptional(hasher, e.delegationChain);
    Regroup(hasher, OrEmpty(e.tokenJti), Flag(e.dryRun));
    hasher := FeedOptional(hasher, e.tokenJti);
    hasher := hasher + Flag(e.dryRun);
    digest := hash(hasher);
  }

  method FeedOptional(hasher: string, field: Option<string>) returns (fed: string)
    ensures fed == hasher + OrEmpty(field)
  {
    fed := hasher;
    if field.Some? {
      fed := hasher + field.value;
    }
  }

  // ── The two commitments of a row ──────────────────────────────────

  // The hash the row at position i must point back to.
  function ExpectedPrev(es: seq<Entry>, i: nat): string
    requires i <= |es|
  {
    if i == 0 then GENESIS else es[i - 1].rowHash
  }

  // The hash the next appended row points back to.
  function Head(es: seq<Entry>): string {
    ExpectedPrev(es, |es|)
  }

  predicate PrevOk(es: seq<Entry>, i: nat)
    requires i < |es|
  {
    es[i].prevHash == ExpectedPrev(es, i)
  }

  predicate RowOk(e: Entry, hash: string -> string) {
    hash(Payload(e)) == e.rowHash
  }

  predicate LinkOk(es: seq<Entry>, i: nat, hash: string -> string)
    requires i < |es|
  {
    PrevOk(es, i) && RowOk(es[i], hash)
  }

  predicate Intact(es: seq<Entry>, hash: string -> string) {
    forall i :: 0 <= i < |es| ==> LinkOk(es, i, hash)
  }

  datatype BrokenLinkReason = RowHashMismatch | PrevHashMismatch

  datatype BrokenLink = BrokenLink(rowId: int, reason: BrokenLinkReason)

  datatype ChainVerification = ChainVerification(entriesChecked: nat, firstBrokenLink: Option<BrokenLink>)

  // The first broken row is at position i; the back link is examined before the row's own hash.
  predicate FirstBrokenAt(es: seq<Entry>, hash: string -> string, i: nat, reason: BrokenLinkReason) {
    && i < |es|
    && (forall j :: 0 <= j < i ==> LinkOk(es, j, hash))
    && !LinkOk(es, i, hash)
    && reason == (if PrevOk(es, i) then RowHashMismatch else PrevHashMismatch)
  }

  /** The verifier reports the least position at which a commitment fails, and nothing iff none does. */
  method VerifyChain(entries: seq<Entry>, hash: string -> string) returns (v: ChainVerification)
    ensures v.firstBrokenLink.None? <==> Intact(entries, hash)
    ensures v.firstBrokenLink.None? ==> v.entriesChecked == |entries|
    ensures v.firstBrokenLink.Some? ==>
              && 0 < v.entriesChecked <= |entries|
              && FirstBrokenAt(entries, hash, v.entriesChecked - 1, v.firstBrokenLink.value.reason)
              && v.firstBrokenLink.value.rowId == entries[v.entriesChecked - 1].id
  {
    var prevStoredHash: Option<string> := None;
    var index := 0;
    while index < |entries|
      invariant 0 <= index <= |entries|
      invariant prevStoredHash == if index == 0 then None else Some(entries[index - 1].rowHash)
      invariant forall j :: 0 <= j < index ==> LinkOk(entries, j, hash)
    {
      var entry := entries[index];
      var expectedPrev := if prevStoredHash.None? then GENESIS else prevStoredHash.value;
      if entry.prevHash != expectedPrev {
        assert !LinkOk(entries, index, hash);
        return ChainVerification(index + 1, Some(BrokenLink(entry.id, PrevHashMismatch)));
      }
      var digest := ComputeHash(entry, hash);
      if digest != entry.rowHash {
        assert !LinkOk(entries, index, hash);
        return ChainVerification(index + 1, Some(BrokenLink(entry.id, RowHashMismatch)));
      }
      prevStoredHash := Some(entry.rowHash);
      index := index + 1;
    }
    v := ChainVerification(|entries|, None);
  }

  // ── The appender ──────────────────────────────────────────────────

  function DecisionText(d: Decision): string {
    match d
    case Allow => "allow"
    case Deny => "deny"
    case RequireApproval(_, _) => "require_approval"
  }

  // The row the appender stores after `es`.
  function Chained(es: seq<Entry>, hash: string -> string, id: int, c: CreateEntry, timestamp: string): Entry {
    var e := Entry(id, Head(es), "", c.agentId, c.principalId, c.action, c.resource, DecisionText(c.decision),
                   c.reason, c.delegationChain, c.tokenJti, c.dryRun, timestamp);
    e.(rowHash := hash(Payload(e)))
  }

  class AuditLog {
    const hash: string -> string
    var rows: seq<Entry>
    var nextId: int

    constructor (hash: string -> string)
      ensures this.hash == hash && rows == [] && nextId == 1
    {
      this.hash := hash;
      rows := [];
      nextId := 1;
    }

    /** Appending neither breaks an intact log nor repairs a broken one. */
    method CreateAuditEntry(c: CreateEntry, timestamp: string) returns (audit: Entry)
      modifies this
      ensures audit == Chained(old(rows), hash, old(nextId), c, timestamp)
      ensures rows == old(rows) + [audit] && nextId == old(nextId) + 1
      ensures Intact(rows, hash) <==> Intact(old(rows), hash)
    {
      var prevHash := if |rows| == 0 then GENESIS else rows[|rows| - 1].rowHash;
      var decision := match c.decision
        case Allow => "allow"
        case Deny => "deny"
        case RequireApproval(_, _) => "require_approval";
      audit := Entry(nextId, prevHash, "", c.agentId, c.principalId, c.action, c.resource, decision,
                     c.reason, c.delegationChain, c.tokenJti, c.dryRun, timestamp);
      var digest := ComputeHash(audit, hash);
      audit := audit.(rowHash := digest);
      AppendKeepsIntact(rows, audit, hash);
      rows := rows + [audit];
      nextId := nextId + 1;
    }
  }

  lemma AppendKeepsIntact(es: seq<Entry>, e: Entry, hash: string -> string)
    requires e.prevHash == Head(es) && RowOk(e, hash)
    ensures Intact(es + [e], hash) <==> Intact(es, hash)
  {
    var fs := es + [e];
    assert forall i :: 0 <= i < |es| ==> (LinkOk(fs, i, hash) <==> LinkOk(es, i, hash));
  }

  // The log left by appending the given entries, each with its timestamp, to an empty one.
  function Built(cs: seq<(CreateEntry, string)>, hash: string -> string): seq<Entry> {
    if cs == [] then []
    else
      var last := cs[|cs| - 1];
      var es := Built(cs[..|cs| - 1], hash);
      es + [Chained(es, hash, |cs|, last.0, last.1)]
  }

  /** Every log the appender builds verifies, whatever the digest. */
  lemma {:induction false} BuiltLogVerifies(cs: seq<(CreateEntry, string)>, hash: string -> string)
    ensures Intact(Built(cs, hash), hash)
  {
    if cs != [] {
      var front, last := cs[..|cs| - 1], cs[|cs| - 1];
      BuiltLogVerifies(front, hash);
      var es := Built(front, hash);
      AppendKeepsIntact(es, Chained(es, hash, |cs|, last.0, last.1), hash);
    }
  }

  // The words for a decision.
  predicate SaysDecision(e: Entry, d: Decision) {
    && (d == Allow ==> e.decision == "allow")
    && (d == Deny ==> e.decision == "deny")
    && (d.RequireApproval? ==> e.decision == "require_approval")
  }

  // The row records the entry.
  predicate Records(e: Entry, c: CreateEntry, timestamp: string) {
    && e.agentId == c.agentId && e.principalId == c.principalId && e.action == c.action && e.resource == c.resource
    && e.reason == c.reason && e.delegationChain == c.delegationChain && SaysDecision(e, c.decision)
    && e.tokenJti == c.tokenJti && e.dryRun == c.dryRun && e.timestamp == timestamp
  }

  lemma ChainedRecords(es: seq<Entry>, hash: string -> string, id: int, c: CreateEntry, timestamp: string)
    ensures Records(Chained(es, hash, id, c, timestamp), c, timestamp) && Chained(es, hash, id, c, timestamp).id == id
  {
  }

  /** The built log records every entry, in order and under ascending ids. */
  lemma {:induction false} BuiltLogRecords(cs: seq<(CreateEntry, string)>, hash: string -> string)
    ensures |Built(cs, hash)| == |cs|
    ensures forall i :: 0 <= i < |cs| ==>
              Records(Built(cs, hash)[i], cs[i].0, cs[i].1) && Built(cs, hash)[i].id == i + 1
  {
    if cs != [] {
      BuiltLogRecords(cs[..|cs| - 1], hash);
      ChainedRecords(Built(cs[..|cs| - 1], hash), hash, |cs|, cs[|cs| - 1].0, cs[|cs| - 1].1);
    }
  }

  /** The first row of a log that was built points back to sixty-four zeros, and every later one to the row before. */
  lemma BuiltLogChains(cs: seq<(CreateEntry, string)>, hash: string -> string, i: nat)
    requires i < |Built(cs, hash)|
    ensures i == 0 ==> |Built(cs, hash)[0].prevHash| == 64
    ensures i == 0 ==> forall k :: 0 <= k < 64 ==> Built(cs, hash)[0].prevHash[k] == '0'
    ensures i > 0 ==> Built(cs, hash)[i].prevHash == Built(cs, hash)[i - 1].rowHash
  {
    BuiltLogVerifies(cs, hash);
    assert LinkOk(Built(cs, hash), i, hash);
  }

  // ── What an intact chain binds ────────────────────────────────────

  function Payloads(es: seq<Entry>): set<string> {
    set i | 0 <= i < |es| :: Payload(es[i])
  }

  // On these payloads the digest has full length, never gives the genesis value and never collides.
  ghost predicate Reliable(hash: string -> string, payloads: set<string>) {
    && (forall p :: p in payloads ==> |hash(p)| == |GENESIS| && hash(p) != GENESIS)
    && (forall p, q :: p in payloads && q in payloads && hash(p) == hash(q) ==> p == q)
  }

  lemma HeadShape(es: seq<Entry>, i: nat, hash: string -> string)
    requires Intact(es, hash) && i <= |es| && Reliable(hash, Payloads(es))
    ensures |ExpectedPrev(es, i)| == |GENESIS|
    ensures ExpectedPrev(es, i) == GENESIS <==> i == 0
  {
    if i > 0 {
      assert LinkOk(es, i - 1, hash);
      assert Payload(es[i - 1]) in Payloads(es);
    }
  }

  // Two rows with the same hash hash the same bytes and point back to the same hash.
  lemma SameHashSameRow(a: seq<Entry>, b: seq<Entry>, i: nat, j: nat, hash: string -> string)
    requires Intact(a, hash) && Intact(b, hash) && Reliable(hash, Payloads(a) + Payloads(b))
    requires i < |a| && j < |b| && a[i].rowHash == b[j].rowHash
    ensures Payload(a[i]) == Payload(b[j])
    ensures ExpectedPrev(a, i) == ExpectedPrev(b, j)
  {
    assert LinkOk(a, i, hash) && LinkOk(b, j, hash);
    assert Payload(a[i]) in Payloads(a) && Payload(b[j]) in Payloads(b);
    HeadShape(a, i, hash);
    HeadShape(b, j, hash);
    SplitEqual(a[i].prevHash, Body(a[i]), b[j].prevHash, Body(b[j]));
  }

  predicate NoGenesis(es: seq<Entry>) {
    forall i :: 0 <= i < |es| ==> es[i].rowHash != GENESIS
  }

  lemma NeverGenesis(es: seq<Entry>, hash: string -> string)
    requires Intact(es, hash) && Reliable(hash, Payloads(es))
    ensures NoGenesis(es)
  {
    forall i | 0 <= i < |es| ensures es[i].rowHash != GENESIS {
      HeadShape(es, i + 1, hash);
    }
  }

  // Equal hashes are followed back in step, and to the start of both chains together.
  ghost predicate InStep(a: seq<Entry>, b: seq<Entry>) {
    && (forall i, j :: 0 <= i < |a| && 0 <= j < |b| && a[i].rowHash == b[j].rowHash ==>
        ExpectedPrev(a, i) == ExpectedPrev(b, j))
    && NoGenesis(a) && NoGenesis(b)
  }

  lemma ReliableChainsInStep(a: seq<Entry>, b: seq<Entry>, hash: string -> string)
    requires Intact(a, hash) && Intact(b, hash) && Reliable(hash, Payloads(a) + Payloads(b))
    ensures InStep(a, b)
  {
    forall i, j | 0 <= i < |a| && 0 <= j < |b| && a[i].rowHash == b[j].rowHash
      ensures ExpectedPrev(a, i) == ExpectedPrev(b, j)
    {
      SameHashSameRow(a, b, i, j, hash);
    }
    NeverGenesis(a, hash);
    NeverGenesis(b, hash);
  }

  lemma {:induction false} InStepSamePast(a: seq<Entry>, b: seq<Entry>, i: nat, j: nat)
    requires InStep(a, b) && i <= |a| && j <= |b| && ExpectedPrev(a, i) == ExpectedPrev(b, j)
    ensures i == j
    ensures forall k :: 0 <= k < i ==> a[k].rowHash == b[k].rowHash
  {
    if i > 0 && j > 0 {
      assert a[i - 1].rowHash == b[j - 1].rowHash;
      InStepSamePast(a, b, i - 1, j - 1);
    }
  }

  /** A hash found in two intact chains stands at the same position in both, after the same hashes. */
  lemma SameHashSamePast(a: seq<Entry>, b: seq<Entry>, i: nat, j: nat, hash: string -> string)
    requires Intact(a, hash) && Intact(b, hash) && Reliable(hash, Payloads(a) + Payloads(b))
    requires i <= |a| && j <= |b| && ExpectedPrev(a, i) == ExpectedPrev(b, j)
    ensures i == j
    ensures forall k :: 0 <= k < i ==> a[k].rowHash == b[k].rowHash
  {
    ReliableChainsInStep(a, b, hash);
    InStepSamePast(a, b, i, j);
  }

  lemma SplitEqual(a: string, x: string, b: string, y: string)
    requires |a| == |b| && a + x == b + y
    ensures a == b && x == y
  {
    assert a == (a + x)[..|a|] && x == (a + x)[|a|..];
    assert b == (b + y)[..|b|] && y == (b + y)[|b|..];
  }

  /** Two intact logs agree on the last hash exactly when they hash the same byte strings row by row. */
  lemma ChainBinding(a: seq<Entry>, b: seq<Entry>, hash: string -> string)
    requires Intact(a, hash) && Intact(b, hash) && Reliable(hash, Payloads(a) + Payloads(b))
    ensures Head(a) == Head(b) <==>
            |a| == |b| && forall k :: 0 <= k < |a| ==> Payload(a[k]) == Payload(b[k])
  {
    if Head(a) == Head(b) {
      SameHashSamePast(a, b, |a|, |b|, hash);
      forall k | 0 <= k < |a| ensures Payload(a[k]) == Payload(b[k]) {
        SameHashSameRow(a, b, k, k, hash);
      }
    } else if |a| == |b| > 0 {
      assert LinkOk(a, |a| - 1, hash) && LinkOk(b, |b| - 1, hash);
    }
  }

  /** The byte string does not delimit its fields. Whatever is logged, and after whatever log, a character
      may end the action or begin the resource: the two rows differ in both fields and have the same hash, so neither
      leaves a trace in the chain, whatever the digest. */
  lemma FieldBoundariesAreNotBound(es: seq<Entry>, hash: string -> string, id: int, c: CreateEntry, ch: char,
                                   timestamp: string)
    ensures var a := Chained(es, hash, id, c.(action := c.action + [ch]), timestamp);
            var b := Chained(es, hash, id, c.(resource := [ch] + c.resource), timestamp);
            && a.rowHash == b.rowHash && Head(es + [a]) == Head(es + [b])
            && a.action != b.action && a.resource != b.resource
            && (Intact(es + [a], hash) <==> Intact(es, hash)) && (Intact(es + [b], hash) <==> Intact(es, hash))
  {
    var a := Chained(es, hash, id, c.(action := c.action + [ch]), timestamp);
    var b := Chained(es, hash, id, c.(resource := [ch] + c.resource), timestamp);
    BoundaryMoved(a, b, c.action, ch, c.resource);
    AppendKeepsIntact(es, a, hash);
    AppendKeepsIntact(es, b, hash);
    assert |a.action| != |b.action| && |a.resource| != |b.resource|;
  }

  lemma BoundaryMoved(a: Entry, b: Entry, action: string, ch: char, resource: string)
    requires a.action == action + [ch] && b.action == action && a.resource == resource && b.resource == [ch] + resource
    requires b.(action := a.action, resource := a.resource, rowHash := a.rowHash) == a
    ensures Payload(a) == Payload(b)
  {
    assert FromDecision(a) == FromDecision(b);
    assert (action + [ch]) + (resource + FromDecision(a)) == action + (([ch] + resource) + FromDecision(a));
  }

  // Two rows cut their byte strings at the same places.
  predicate SameBoundaries(a: Entry, b: Entry) {
    && |a.prevHash| == |b.prevHash| && |a.agentId| == |b.agentId|
    && |OrEmpty(a.principalId)| == |OrEmpty(b.principalId)|
    && |a.action| == |b.action| && |a.resource| == |b.resource|
    && |a.decision| == |b.decision| && |a.reason| == |b.reason| && |a.timestamp| == |b.timestamp|
    && |OrEmpty(a.delegationChain)| == |OrEmpty(b.delegationChain)|
    && |OrEmpty(a.tokenJti)| == |OrEmpty(b.tokenJti)|
    && a.principalId.Some? == b.principalId.Some?
    && a.delegationChain.Some? == b.delegationChain.Some?
    && a.tokenJti.Some? == b.tokenJti.Some?
  }

  /** Equal byte strings mean equal fields exactly when the fields are cut at the same places. */
  lemma PayloadBindsFields(a: Entry, b: Entry)
    requires Payload(a) == Payload(b)
    ensures SameBoundaries(a, b) <==> a == b.(id := a.id, rowHash := a.rowHash)
  {
    if SameBoundaries(a, b) {
      SplitEqual(a.prevHash, Body(a), b.prevHash, Body(b));
      SplitEqual(a.agentId, FromPrincipal(a), b.agentId, FromPrincipal(b));
      SplitEqual(OrEmpty(a.principalId), FromAction(a), OrEmpty(b.principalId), FromAction(b));
      SplitEqual(a.action, FromResource(a), b.action, FromResource(b));
      SplitEqual(a.resource, FromDecision(a), b.resource, FromDecision(b));
      SplitEqual(a.decision, FromReason(a), b.decision, FromReason(b));
      SplitEqual(a.reason, FromTimestamp(a), b.reason, FromTimestamp(b));
      SplitEqual(a.timestamp, FromChain(a), b.timestamp, FromChain(b));
      SplitEqual(OrEmpty(a.delegationChain), FromToken(a), OrEmpty(b.delegationChain), FromToken(b));
      SplitEqual(OrEmpty(a.tokenJti), Flag(a.dryRun), OrEmpty(b.tokenJti), Flag(b.dryRun));
    }
  }

  // ── Tamper evidence ───────────────────────────────────────────────

  lemma HashesNeverRepeat(es: seq<Entry>, i: nat, k: nat, hash: string -> string)
    requires Intact(es, hash) && Reliable(hash, Payloads(es)) && i <= |es| && k <= |es|
    requires ExpectedPrev(es, i) == ExpectedPrev(es, k)
    ensures i == k
  {
    assert Payloads(es) + Payloads(es) == Payloads(es);
    SameHashSamePast(es, es, i, k, hash);
  }

  /** In an intact chain a row fits one place only: the row hashes are pairwise distinct. */
  lemma RowFitsOnePlace(es: seq<Entry>, i: nat, k: nat, hash: string -> string)
    requires Intact(es, hash) && Reliable(hash, Payloads(es)) && i < |es| && k <= |es|
    ensures es[i].prevHash == ExpectedPrev(es, k) <==> i == k
    ensures k < |es| && es[i].rowHash == es[k].rowHash ==> i == k
  {
    assert LinkOk(es, i, hash);
    if ExpectedPrev(es, i) == ExpectedPrev(es, k) {
      HashesNeverRepeat(es, i, k, hash);
    }
    if k < |es| && es[i].rowHash == es[k].rowHash {
      HashesNeverRepeat(es, i + 1, k + 1, hash);
    }
  }

  lemma PrefixIntact(es: seq<Entry>, fs: seq<Entry>, hash: string -> string)
    requires Intact(es, hash) && fs <= es
    ensures Intact(fs, hash)
  {
    forall i | 0 <= i < |fs| ensures LinkOk(fs, i, hash) {
      assert LinkOk(es, i, hash);
    }
  }

  // After a prefix only the row that comes next fits.
  lemma OnlyNextRowFits(es: seq<Entry>, front: seq<Entry>, e: Entry, hash: string -> string)
    requires Intact(es, hash) && Reliable(hash, Payloads(es))
    requires front <= es && e in es && e.prevHash == Head(front)
    ensures front + [e] <= es
  {
    var i :| 0 <= i < |es| && es[i] == e;
    RowFitsOnePlace(es, i, |front|, hash);
  }

  /** Of all the sequences made of rows of an intact log, dropped, repeated or reordered in any way,
      exactly its prefixes verify. */
  lemma {:induction false} OnlyPrefixesVerify(es: seq<Entry>, fs: seq<Entry>, hash: string -> string)
    requires Intact(es, hash) && Reliable(hash, Payloads(es))
    requires forall k :: 0 <= k < |fs| ==> fs[k] in es
    ensures Intact(fs, hash) <==> fs <= es
  {
    if fs <= es {
      PrefixIntact(es, fs, hash);
    }
    if Intact(fs, hash) && fs != [] {
      var n := |fs| - 1;
      var front := fs[..n];
      PrefixIntact(fs, front, hash);
      OnlyPrefixesVerify(es, front, hash);
      assert LinkOk(fs, n, hash);
      OnlyNextRowFits(es, front, fs[n], hash);
      assert fs == front + [fs[n]];
    }
  }

  /** Deleting a block before a surviving row is reported at the first surviving row. */
  lemma DeletionDetected(es: seq<Entry>, i: nat, j: nat, hash: string -> string)
    requires Intact(es, hash) && Reliable(hash, Payloads(es)) && i < j < |es|
    ensures FirstBrokenAt(es[..i] + es[j..], hash, i, PrevHashMismatch)
  {
    DisplacedRowDetected(es, es[..i] + es[j..], i, j, hash);
  }

  /** Swapping two rows is reported at the earlier of their places. */
  lemma SwapDetected(es: seq<Entry>, i: nat, j: nat, hash: string -> string)
    requires Intact(es, hash) && Reliable(hash, Payloads(es)) && i < j < |es|
    ensures FirstBrokenAt(es[i := es[j]][j := es[i]], hash, i, PrevHashMismatch)
  {
    DisplacedRowDetected(es, es[i := es[j]][j := es[i]], i, j, hash);
  }

  /** A copy of a row inserted anywhere is reported there, or one place later where the original stands. */
  lemma DuplicateDetected(es: seq<Entry>, i: nat, k: nat, hash: string -> string)
    requires Intact(es, hash) && Reliable(hash, Payloads(es)) && i < |es| && k <= |es|
    ensures FirstBrokenAt(es[..k] + [es[i]] + es[k..], hash, if i == k then k + 1 else k, PrevHashMismatch)
  {
    var fs := es[..k] + [es[i]] + es[k..];
    if i == k {
      DisplacedRowDetected(es, fs, k + 1, k, hash);
    } else {
      DisplacedRowDetected(es, fs, k, i, hash);
    }
  }

  lemma DisplacedRowDetected(es: seq<Entry>, fs: seq<Entry>, at: nat, from: nat, hash: string -> string)
    requires Intact(es, hash) && Reliable(hash, Payloads(es))
    requires at < |fs| && at <= |es| && from < |es| && from != at
    requires fs[..at] == es[..at] && fs[at] == es[from]
    ensures FirstBrokenAt(fs, hash, at, PrevHashMismatch)
  {
    forall i | 0 <= i < at ensures fs[i] == es[i] {
      assert fs[..at][i] == es[..at][i];
    }
    forall i | 0 <= i < at ensures LinkOk(fs, i, hash) {
      assert LinkOk(es, i, hash);
    }
    RowFitsOnePlace(es, from, at, hash);
  }

  /** Editing a hashed field and leaving the stored hashes alone is reported at that row. */
  lemma EditDetected(es: seq<Entry>, i: nat, e: Entry, hash: string -> string)
    requires Intact(es, hash) && i < |es|
    requires e.prevHash == es[i].prevHash && e.rowHash == es[i].rowHash && Payload(e) != Payload(es[i])
    requires Reliable(hash, {Payload(e), Payload(es[i])})
    ensures FirstBrokenAt(es[i := e], hash, i, RowHashMismatch)
  {
    assert LinkOk(es, i, hash);
    var fs := es[i := e];
    forall j | 0 <= j < i ensures LinkOk(fs, j, hash) {
      assert LinkOk(es, j, hash);
    }
  }

  /** An edited row whose own hash is recomputed is caught by its successor, hence exactly
      when it is not the last row. */
  lemma RehashedEdit(es: seq<Entry>, i: nat, e: Entry, hash: string -> string)
    requires Intact(es, hash) && i < |es|
    requires e.prevHash == es[i].prevHash && RowOk(e, hash) && Payload(e) != Payload(es[i])
    requires Reliable(hash, {Payload(e), Payload(es[i])})
    ensures Intact(es[i := e], hash) <==> i == |es| - 1
    ensures i < |es| - 1 ==> FirstBrokenAt(es[i := e], hash, i + 1, PrevHashMismatch)
  {
    var fs := es[i := e];
    assert LinkOk(es, i, hash);
    forall j | 0 <= j <= i ensures LinkOk(fs, j, hash) {
      assert LinkOk(es, j, hash);
    }
    if i < |es| - 1 {
      assert LinkOk(es, i + 1, hash);
      assert !LinkOk(fs, i + 1, hash);
    }
  }
}
