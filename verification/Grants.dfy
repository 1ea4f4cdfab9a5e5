/** Grants linked by parent pointers, and the cascade that revokes a grant with everything live below it. */
module Grants {
  import opened Common

  datatype Grant = Grant(
    agentId: Uuid, principalId: Uuid, parent: Option<Uuid>, scopes: seq<string>, constraints: Option<string>,
    expiresAt: Instant, revocable: bool, revokedAt: Option<Instant>, createdAt: Instant)

  predicate NoDuplicates<T(==)>(s: seq<T>) {
    forall i, j :: 0 <= i < j < |s| ==> s[i] != s[j]
  }

  // What revocation never changes: the rows' order and their parent pointers, which may be
  // dangling and may form cycles.
  datatype Shape = Shape(order: seq<Uuid>, parent: map<Uuid, Option<Uuid>>)
  {
    predicate Valid() {
      && NoDuplicates(order)
      && (forall x :: x in order ==> x in parent)
      && (forall x :: x in parent ==> x in order)
    }

    predicate IsChild(x: Uuid, p: Uuid) {
      x in parent && parent[x] == Some(p)
    }
  }

  // The live rows of `order` under `id`, in row order.
  function Select(s: Shape, live: set<Uuid>, id: Uuid, order: seq<Uuid>): (ids: seq<Uuid>)
    ensures forall x :: x in ids <==> x in order && x in live && s.IsChild(x, id)
  {
    if order == [] then []
    else
      var x := order[0];
      (if x in live && s.IsChild(x, id) then [x] else []) + Select(s, live, id, order[1..])
  }

  function Children(s: Shape, live: set<Uuid>, id: Uuid): seq<Uuid> {
    Select(s, live, id, s.order)
  }

  lemma {:induction false} SelectNoDuplicates(s: Shape, live: set<Uuid>, id: Uuid, order: seq<Uuid>)
    requires NoDuplicates(order)
    ensures NoDuplicates(Select(s, live, id, order))
  {
    if order != [] {
      SelectNoDuplicates(s, live, id, order[1..]);
      assert order[0] !in order[1..];
    }
  }

  lemma {:induction false} SelectDependsOnChildren(s: Shape, live: set<Uuid>, other: set<Uuid>, id: Uuid,
                                                   order: seq<Uuid>)
    requires forall x :: s.IsChild(x, id) ==> (x in live <==> x in other)
    ensures Select(s, live, id, order) == Select(s, other, id, order)
  {
    if order != [] {
      SelectDependsOnChildren(s, live, other, id, order[1..]);
    }
  }

  // ── The cascade, and what it reaches ──────────────────────────────

  // The live tree below `id` in preorder, `id` first.
  function Preorder(s: Shape, live: set<Uuid>, id: Uuid): (ids: seq<Uuid>)
    requires id !in live
    ensures |ids| > 0 && ids[0] == id
    decreases live, 1, 0
  {
    [id] + Forest(s, live, Children(s, live, id))
  }

  function Forest(s: Shape, live: set<Uuid>, roots: seq<Uuid>): seq<Uuid>
    requires forall c :: c in roots ==> c in live
    decreases live, 0, |roots|
  {
    if roots == [] then []
    else Preorder(s, live - {roots[0]}, roots[0]) + Forest(s, live, roots[1..])
  }

  // Following n parent pointers from x through live grants arrives at root.
  predicate Climbs(s: Shape, live: set<Uuid>, x: Uuid, root: Uuid, n: nat)
    decreases n
  {
    if n == 0 then x == root
    else x in live && x in s.parent && s.parent[x].Some? && Climbs(s, live, s.parent[x].value, root, n - 1)
  }

  ghost predicate Under(s: Shape, live: set<Uuid>, x: Uuid, root: Uuid) {
    exists n: nat :: Climbs(s, live, x, root, n)
  }

  lemma {:induction false} ClimbsFurther(s: Shape, live: set<Uuid>, more: set<Uuid>, x: Uuid, c: Uuid, id: Uuid, n: nat)
    requires Climbs(s, live, x, c, n) && live <= more && c in more && s.IsChild(c, id)
    ensures Climbs(s, more, x, id, n + 1)
    decreases n
  {
    if n > 0 {
      ClimbsFurther(s, live, more, s.parent[x].value, c, id, n - 1);
    }
  }

  lemma {:induction false} LastStep(s: Shape, live: set<Uuid>, x: Uuid, id: Uuid, n: nat) returns (c: Uuid)
    requires n > 0 && id !in live && Climbs(s, live, x, id, n)
    ensures c in live && s.IsChild(c, id) && Climbs(s, live - {c}, x, c, n - 1)
    decreases n
  {
    if n == 1 {
      c := x;
    } else {
      c := LastStep(s, live, s.parent[x].value, id, n - 1);
    }
  }

  /** The cascade's list contains a grant exactly when it is the root or is live and reaches the
      root through live grants. */
  lemma {:induction false} PreorderExact(s: Shape, live: set<Uuid>, id: Uuid, x: Uuid)
    requires s.Valid() && id !in live
    ensures x in Preorder(s, live, id) <==> Under(s, live, x, id)
    decreases live, 1, 0
  {
    var roots := Children(s, live, id);
    ForestExact(s, live, roots, x);
    if x == id {
      assert Climbs(s, live, x, id, 0);
    } else if Under(s, live, x, id) {
      var n: nat :| Climbs(s, live, x, id, n);
      var c := LastStep(s, live, x, id, n);
      assert c in roots && Under(s, live - {c}, x, c);
    } else if x in Forest(s, live, roots) {
      var c :| c in roots && Under(s, live - {c}, x, c);
      var n: nat :| Climbs(s, live - {c}, x, c, n);
      ClimbsFurther(s, live - {c}, live, x, c, id, n);
    }
  }

  lemma {:induction false} ForestExact(s: Shape, live: set<Uuid>, roots: seq<Uuid>, x: Uuid)
    requires s.Valid() && forall c :: c in roots ==> c in live
    ensures x in Forest(s, live, roots) <==> exists c :: c in roots && Under(s, live - {c}, x, c)
    decreases live, 0, |roots|
  {
    if roots != [] {
      PreorderExact(s, live - {roots[0]}, roots[0], x);
      ForestExact(s, live, roots[1..], x);
      assert forall c :: c in roots <==> c == roots[0] || c in roots[1..];
    }
  }

  lemma {:induction false} ClimbsToOneSibling(s: Shape, live: set<Uuid>, id: Uuid, c: Uuid, d: Uuid, x: Uuid, m: nat,
                                              n: nat)
    requires id !in live && c in live && d in live && s.IsChild(c, id) && s.IsChild(d, id)
    requires Climbs(s, live - {c}, x, c, m) && Climbs(s, live - {d}, x, d, n)
    ensures c == d
    decreases n
  {
    if m > 0 && n > 0 {
      ClimbsToOneSibling(s, live, id, c, d, s.parent[x].value, m - 1, n - 1);
    }
  }

  // Subtrees of different children of one grant share nothing.
  lemma SubtreesDisjoint(s: Shape, live: set<Uuid>, id: Uuid, c: Uuid, d: Uuid, x: Uuid)
    requires s.Valid() && id !in live && c in live && d in live && s.IsChild(c, id) && s.IsChild(d, id)
    requires x in Preorder(s, live - {c}, c) && x in Preorder(s, live - {d}, d)
    ensures c == d
  {
    PreorderExact(s, live - {c}, c, x);
    PreorderExact(s, live - {d}, d, x);
    var m: nat :| Climbs(s, live - {c}, x, c, m);
    var n: nat :| Climbs(s, live - {d}, x, d, n);
    ClimbsToOneSibling(s, live, id, c, d, x, m, n);
  }

  lemma PreorderInLive(s: Shape, live: set<Uuid>, id: Uuid, x: Uuid)
    requires s.Valid() && id !in live && x in Preorder(s, live, id)
    ensures x == id || x in live
  {
    PreorderExact(s, live, id, x);
    var n: nat :| Climbs(s, live, x, id, n);
  }

  /** The cascade lists no grant twice. */
  lemma {:induction false} PreorderNoDuplicates(s: Shape, live: set<Uuid>, id: Uuid)
    requires s.Valid() && id !in live
    ensures NoDuplicates(Preorder(s, live, id))
    decreases live, 1, 0
  {
    var roots := Children(s, live, id);
    SelectNoDuplicates(s, live, id, s.order);
    ForestNoDuplicates(s, live, id, roots);
    ForestExact(s, live, roots, id);
    if id in Forest(s, live, roots) {
      var c :| c in roots && Under(s, live - {c}, id, c);
      PreorderExact(s, live - {c}, c, id);
      PreorderInLive(s, live - {c}, c, id);
    }
  }

  lemma {:induction false} ForestNoDuplicates(s: Shape, live: set<Uuid>, id: Uuid, roots: seq<Uuid>)
    requires s.Valid() && id !in live && NoDuplicates(roots)
    requires forall c :: c in roots ==> c in live && s.IsChild(c, id)
    ensures NoDuplicates(Forest(s, live, roots))
    decreases live, 0, |roots|
  {
    if roots != [] {
      var c := roots[0];
      PreorderNoDuplicates(s, live - {c}, c);
      ForestNoDuplicates(s, live, id, roots[1..]);
      var first, rest := Preorder(s, live - {c}, c), Forest(s, live, roots[1..]);
      forall x | x in first ensures x !in rest {
        NotInLaterSubtrees(s, live, id, c, roots[1..], x);
      }
      assert forall i :: 0 <= i < |first| ==> first[i] in first;
      assert forall i :: 0 <= i < |rest| ==> rest[i] in rest;
    }
  }

  lemma NotInLaterSubtrees(s: Shape, live: set<Uuid>, id: Uuid, c: Uuid, roots: seq<Uuid>, x: Uuid)
    requires s.Valid() && id !in live && c in live && s.IsChild(c, id) && c !in roots
    requires forall d :: d in roots ==> d in live && s.IsChild(d, id)
    requires x in Preorder(s, live - {c}, c)
    ensures x !in Forest(s, live, roots)
  {
    ForestExact(s, live, roots, x);
    if x in Forest(s, live, roots) {
      var d :| d in roots && Under(s, live - {d}, x, d);
      PreorderExact(s, live - {d}, d, x);
      SubtreesDisjoint(s, live, id, c, d, x);
    }
  }

  // Revoking grants outside a tree does not change the tree.
  lemma {:induction false} PreorderIgnoresOthers(s: Shape, live: set<Uuid>, gone: set<Uuid>, id: Uuid)
    requires s.Valid() && id !in live
    requires forall x :: x in Preorder(s, live, id) ==> x !in gone
    ensures Preorder(s, live - gone, id) == Preorder(s, live, id)
    decreases live, 1, 0
  {
    var roots := Children(s, live, id);
    forall x | s.IsChild(x, id) ensures x in live <==> x in live - gone {
      if x in live {
        ForestExact(s, live, roots, x);
        assert Climbs(s, live - {x}, x, x, 0);
      }
    }
    SelectDependsOnChildren(s, live, live - gone, id, s.order);
    ForestIgnoresOthers(s, live, gone, roots);
  }

  lemma {:induction false} ForestIgnoresOthers(s: Shape, live: set<Uuid>, gone: set<Uuid>, roots: seq<Uuid>)
    requires s.Valid() && forall c :: c in roots ==> c in live && c !in gone
    requires forall x :: x in Forest(s, live, roots) ==> x !in gone
    ensures Forest(s, live - gone, roots) == Forest(s, live, roots)
    decreases live, 0, |roots|
  {
    if roots != [] {
      var c := roots[0];
      assert live - gone - {c} == live - {c} - gone;
      PreorderIgnoresOthers(s, live - {c}, gone, c);
      ForestIgnoresOthers(s, live, gone, roots[1..]);
    }
  }

  lemma {:induction false} ForestAppend(s: Shape, live: set<Uuid>, roots: seq<Uuid>, c: Uuid)
    requires c in live && forall d :: d in roots ==> d in live
    ensures Forest(s, live, roots + [c]) == Forest(s, live, roots) + Preorder(s, live - {c}, c)
    decreases |roots|
  {
    if roots == [] {
      assert (roots + [c])[1..] == [];
    } else {
      assert (roots + [c])[1..] == roots[1..] + [c];
      ForestAppend(s, live, roots[1..], c);
    }
  }

  function Elements(ids: seq<Uuid>): set<Uuid> {
    set x | x in ids
  }

  // ── The table ─────────────────────────────────────────────────────

  // The part of the table the cascade reads: its shape and which grants are live.
  datatype Lineage = Lineage(shape: Shape, live: set<Uuid>)
  {
    predicate Valid() {
      shape.Valid() && forall x :: x in live ==> x in shape.parent
    }

    // The parent pointer of x leads to a row.
    predicate HasParent(x: Uuid) {
      x in shape.parent && shape.parent[x].Some? && shape.parent[x].value in shape.parent
    }

    // The list a revocation of `id` returns.
    function Cascade(id: Uuid): seq<Uuid> {
      Preorder(shape, live - {id}, id)
    }

    function Revoked(id: Uuid): Lineage {
      Lineage(shape, live - Elements(Cascade(id)))
    }

    function Created(id: Uuid, parent: Option<Uuid>): Lineage {
      Lineage(Shape(shape.order + [id], shape.parent[id := parent]), live + {id})
    }
  }

  class GrantTable {
    var rows: map<Uuid, Grant>
    var order: seq<Uuid>
    var clock: Instant

    ghost predicate Valid()
      reads this
    {
      State().Valid()
    }

    function State(): Lineage
      reads this
    {
      LineageOf(order, rows)
    }

    constructor ()
      ensures Valid() && rows == map[] && order == []
    {
      rows := map[];
      order := [];
      clock := 0;
    }

    // Reads a clock that never goes back.
    method Now() returns (now: Instant)
      modifies `clock
      ensures old(clock) <= clock && now == clock
    {
      var elapsed :| elapsed >= 0;
      clock := clock + elapsed;
      now := clock;
    }

    method CreateGrant(id: Uuid, agentId: Uuid, principalId: Uuid, parent: Option<Uuid>, scopes: seq<string>,
                       constraints: Option<string>, expiresAt: Instant)
      requires Valid() && id !in rows
      modifies this
      ensures Valid()
      ensures State() == old(State()).Created(id, parent)
      ensures rows
           == old(rows)[id := Grant(agentId, principalId, parent, scopes, constraints, expiresAt, true, None, clock)]
    {
      CreateValid(State(), id, parent);
      var now := Now();
      var grant := Grant(agentId, principalId, parent, scopes, constraints, expiresAt, true, None, now);
      InsertedLineage(order, rows, id, grant);
      rows := rows[id := grant];
      order := order + [id];
    }

    method SelectLiveChildren(id: Uuid) returns (ids: seq<Uuid>)
      requires Valid()
      ensures ids == Children(State().shape, State().live, id)
    {
      ids := [];
      var i := |order|;
      while i > 0
        invariant 0 <= i <= |order|
        invariant ids == Select(State().shape, State().live, id, order[i..])
      {
        i := i - 1;
        assert order[i..][1..] == order[i + 1..];
        var x := order[i];
        assert x in State().shape.parent;
        if rows[x].parent == Some(id) && rows[x].revokedAt.None? {
          ids := [x] + ids;
        }
      }
    }

    // Stamps one row, if it is there and live.
    method Mark(id: Uuid)
      requires Valid()
      modifies this
      ensures Valid() && order == old(order) && old(clock) <= clock
      ensures State() == Lineage(old(State()).shape, old(State()).live - {id})
      ensures Stamps(old(rows), rows, {id}, old(clock), clock)
    {
      var now := Now();
      if id in rows && rows[id].revokedAt.None? {
        rows := rows[id := rows[id].(revokedAt := Some(now))];
      }
      StampedLineage(order, old(rows), rows, {id}, old(clock), clock);
    }

    /** The cascade: the list of revoked grants, and a table in which exactly its live members
        were stamped, each between the call and the return. */
    method RevokeGrant(id: Uuid) returns (revoked: seq<Uuid>)
      requires Valid()
      modifies this
      ensures Valid() && order == old(order) && old(clock) <= clock
      ensures revoked == old(State()).Cascade(id)
      ensures State() == old(State()).Revoked(id)
      ensures Stamps(old(rows), rows, Elements(revoked), old(clock), clock)
      decreases State().live - {id}
    {
      ghost var s, live := State().shape, State().live - {id};
      Mark(id);
      revoked := [id];
      assert Elements(revoked) == {id};
      var children := SelectLiveChildren(id);
      var i := 0;
      while i < |children|
        invariant 0 <= i <= |children|
        invariant Valid() && order == old(order) && old(clock) <= clock
        invariant State() == Spared(s, live, children, i)
        invariant revoked == Listed(s, live, id, children, i)
        invariant Stamps(old(rows), rows, Elements(revoked), old(clock), clock)
        decreases |children| - i
      {
        ghost var mid, from := rows, clock;
        NextChild(s, live, id, children, i);
        var childRevoked := RevokeGrant(children[i]);
        StampsCompose(old(rows), mid, rows, revoked, childRevoked, old(clock), from, clock);
        revoked := revoked + childRevoked;
        i := i + 1;
      }
      AllChildrenDone(old(State()), id);
    }
  }

  // The children already visited.
  function Earlier(live: set<Uuid>, children: seq<Uuid>, i: nat): (roots: seq<Uuid>)
    requires i <= |children| && forall c :: c in children ==> c in live
    ensures forall c :: c in roots ==> c in live
  {
    children[..i]
  }

  // The table when the loop comes to the i-th child.
  function Spared(s: Shape, live: set<Uuid>, children: seq<Uuid>, i: nat): Lineage
    requires i <= |children| && forall c :: c in children ==> c in live
  {
    Lineage(s, live - Elements(Forest(s, live, Earlier(live, children, i))))
  }

  // What the call has listed when the loop comes to the i-th child.
  function Listed(s: Shape, live: set<Uuid>, id: Uuid, children: seq<Uuid>, i: nat): seq<Uuid>
    requires i <= |children| && forall c :: c in children ==> c in live
  {
    [id] + Forest(s, live, Earlier(live, children, i))
  }

  // At the i-th child the cascade below it is what it was before the loop, although the table has changed.
  lemma CascadeUnchanged(s: Shape, live: set<Uuid>, id: Uuid, children: seq<Uuid>, i: nat)
    requires s.Valid() && id !in live && i < |children| && children == Children(s, live, id)
    ensures var g := Spared(s, live, children, i); var c := children[i];
            c in g.live && c in live && g.Cascade(c) == Preorder(s, live - {c}, c)
  {
    var g, c := Spared(s, live, children, i), children[i];
    var done := Elements(Forest(s, live, Earlier(live, children, i)));
    SelectNoDuplicates(s, live, id, s.order);
    NextSubtreeUntouched(s, live, id, children, i);
    assert g.live - {c} == live - {c} - done;
  }

  lemma OneMoreSubtree(s: Shape, live: set<Uuid>, children: seq<Uuid>, i: nat)
    requires i < |children| && forall c :: c in children ==> c in live
    ensures Forest(s, live, Earlier(live, children, i + 1))
         == Forest(s, live, Earlier(live, children, i)) + Preorder(s, live - {children[i]}, children[i])
  {
    ForestAppend(s, live, Earlier(live, children, i), children[i]);
    assert children[..i + 1] == children[..i] + [children[i]];
  }

  lemma OneMoreGone(s: Shape, live: set<Uuid>, children: seq<Uuid>, i: nat)
    requires i < |children| && forall c :: c in children ==> c in live
    ensures Spared(s, live, children, i + 1)
         == Lineage(s, Spared(s, live, children, i).live - Elements(Preorder(s, live - {children[i]}, children[i])))
  {
    OneMoreSubtree(s, live, children, i);
    ElementsConcat(Forest(s, live, Earlier(live, children, i)), Preorder(s, live - {children[i]}, children[i]));
  }

  lemma NextChild(s: Shape, live: set<Uuid>, id: Uuid, children: seq<Uuid>, i: nat)
    requires s.Valid() && id !in live && i < |children| && children == Children(s, live, id)
    ensures var g := Spared(s, live, children, i); var c := children[i];
            && c in g.live && g.live <= live
            && Listed(s, live, id, children, i + 1) == Listed(s, live, id, children, i) + g.Cascade(c)
            && g.Revoked(c) == Spared(s, live, children, i + 1)
  {
    CascadeUnchanged(s, live, id, children, i);
    OneMoreSubtree(s, live, children, i);
    OneMoreGone(s, live, children, i);
  }

  lemma ElementsConcat(a: seq<Uuid>, b: seq<Uuid>)
    ensures Elements(a + b) == Elements(a) + Elements(b)
  {
  }

  lemma AllChildrenDone(g: Lineage, id: Uuid)
    ensures var live := g.live - {id}; var children := Children(g.shape, live, id);
            && Listed(g.shape, live, id, children, |children|) == g.Cascade(id)
            && Spared(g.shape, live, children, |children|) == g.Revoked(id)
  {
    var live := g.live - {id};
    var children := Children(g.shape, live, id);
    assert Earlier(live, children, |children|) == children;
    assert g.Revoked(id).live == live - Elements(Forest(g.shape, live, children));
  }

  function LineageOf(order: seq<Uuid>, rows: map<Uuid, Grant>): Lineage {
    Lineage(Shape(order, map x | x in rows :: rows[x].parent), set x | x in rows && rows[x].revokedAt.None?)
  }

  lemma InsertedLineage(order: seq<Uuid>, rows: map<Uuid, Grant>, id: Uuid, grant: Grant)
    requires id !in rows && grant.revokedAt.None?
    ensures LineageOf(order + [id], rows[id := grant]) == LineageOf(order, rows).Created(id, grant.parent)
  {
  }

  // Exactly the live rows among `gone` were given a revocation time in the span; no other row
  // and no earlier revocation time changed.
  ghost predicate Stamps(before: map<Uuid, Grant>, after: map<Uuid, Grant>, gone: set<Uuid>,
                         from: Instant, to: Instant)
  {
    && before.Keys == after.Keys
    && forall x :: x in before ==>
         if x in gone && before[x].revokedAt.None? then
           && after[x].revokedAt.Some? && from <= after[x].revokedAt.value <= to
           && after[x] == before[x].(revokedAt := after[x].revokedAt)
         else after[x] == before[x]
  }

  lemma StampedLineage(order: seq<Uuid>, before: map<Uuid, Grant>, after: map<Uuid, Grant>,
                       gone: set<Uuid>, from: Instant, to: Instant)
    requires Stamps(before, after, gone, from, to)
    ensures LineageOf(order, after).shape == LineageOf(order, before).shape
    ensures LineageOf(order, after).live == LineageOf(order, before).live - gone
  {
  }

  lemma StampsCompose(a: map<Uuid, Grant>, b: map<Uuid, Grant>, c: map<Uuid, Grant>, g: seq<Uuid>, h: seq<Uuid>,
                      from: Instant, mid: Instant, to: Instant)
    requires Stamps(a, b, Elements(g), from, mid) && Stamps(b, c, Elements(h), mid, to) && from <= mid <= to
    ensures Stamps(a, c, Elements(g + h), from, to)
  {
    ElementsConcat(g, h);
  }

  // When the loop comes to a child, its subtree is still live and unchanged.
  lemma NextSubtreeUntouched(s: Shape, live: set<Uuid>, id: Uuid, children: seq<Uuid>, i: nat)
    requires s.Valid() && id !in live && i < |children| && NoDuplicates(children)
    requires children == Children(s, live, id)
    ensures forall d :: d in children[..i] ==> d in live
    ensures var c := children[i]; var done := Elements(Forest(s, live, children[..i]));
            c in live - done && Preorder(s, live - {c} - done, c) == Preorder(s, live - {c}, c)
  {
    var c := children[i];
    assert c in children;
    forall d | d in children[..i] ensures d in children && d != c {
    }
    var done := Elements(Forest(s, live, children[..i]));
    forall x | x in Preorder(s, live - {c}, c) ensures x !in done {
      NotInLaterSubtrees(s, live, id, c, children[..i], x);
    }
    PreorderIgnoresOthers(s, live - {c}, done, c);
  }

  // ── Properties of the cascade on the table ────────────────────────

  /** On arbitrary parent pointers: the list is headed by the argument, lists nothing twice, and contains
      besides it exactly the grants that were live and reach it through live grants; exactly the live
      members of the list stop being live. */
  lemma CascadeExact(g: Lineage, id: Uuid)
    requires g.Valid()
    ensures g.Cascade(id)[0] == id && NoDuplicates(g.Cascade(id))
    ensures forall x :: x in g.Cascade(id) <==> x == id || Under(g.shape, g.live - {id}, x, id)
    ensures g.Revoked(id).Valid() && g.Revoked(id).shape == g.shape
    ensures forall x :: x in g.Revoked(id).live <==> x in g.live && x != id && !Under(g.shape, g.live - {id}, x, id)
  {
    var live := g.live - {id};
    PreorderNoDuplicates(g.shape, live, id);
    forall x ensures x in g.Cascade(id) <==> x == id || Under(g.shape, live, x, id) {
      PreorderExact(g.shape, live, id, x);
      assert Climbs(g.shape, live, id, id, 0);
    }
  }

  // Every listed grant but the head stands somewhere after its parent.
  lemma ParentListedFirst(g: Lineage, id: Uuid, k: nat)
    requires g.Valid() && 0 < k < |g.Cascade(id)|
    ensures exists j :: 0 <= j < k && g.shape.IsChild(g.Cascade(id)[k], g.Cascade(id)[j])
  {
    PreorderParents(g.shape, g.live - {id}, id, k);
  }

  lemma {:induction false} PreorderParents(s: Shape, live: set<Uuid>, id: Uuid, k: nat)
    requires s.Valid() && id !in live && 0 < k < |Preorder(s, live, id)|
    ensures var ids := Preorder(s, live, id); exists j :: 0 <= j < k && s.IsChild(ids[k], ids[j])
    decreases live, 1, 0
  {
    var ids := Preorder(s, live, id);
    var roots := Children(s, live, id);
    var f := Forest(s, live, roots);
    ForestParents(s, live, id, roots, k - 1);
    assert ids[k] == f[k - 1];
    if s.IsChild(f[k - 1], id) {
      assert ids[0] == id;
    } else {
      var j :| 0 <= j < k - 1 && s.IsChild(f[k - 1], f[j]);
      assert ids[j + 1] == f[j];
    }
  }

  lemma {:induction false} ForestParents(s: Shape, live: set<Uuid>, id: Uuid, roots: seq<Uuid>, k: nat)
    requires s.Valid() && (forall c :: c in roots ==> c in live && s.IsChild(c, id)) && k < |Forest(s, live, roots)|
    ensures var f := Forest(s, live, roots); s.IsChild(f[k], id) || exists j :: 0 <= j < k && s.IsChild(f[k], f[j])
    decreases live, 0, |roots|
  {
    var f := Forest(s, live, roots);
    var c := roots[0];
    var first := Preorder(s, live - {c}, c);
    if k < |first| {
      if k > 0 {
        PreorderParents(s, live - {c}, c, k);
        var j :| 0 <= j < k && s.IsChild(first[k], first[j]);
        assert f[j] == first[j];
      }
    } else {
      var rest := Forest(s, live, roots[1..]);
      ForestParents(s, live, id, roots[1..], k - |first|);
      assert f[k] == rest[k - |first|];
      if !s.IsChild(f[k], id) {
        var j :| 0 <= j < k - |first| && s.IsChild(rest[k - |first|], rest[j]);
        assert f[j + |first|] == rest[j];
      }
    }
  }

  /** Revoking again revokes nothing more. */
  lemma RevokeIdempotent(g: Lineage, id: Uuid)
    requires g.Valid()
    ensures g.Revoked(id).Cascade(id) == [id]
    ensures g.Revoked(id).Revoked(id) == g.Revoked(id)
  {
    CascadeExact(g, id);
    var after := g.Revoked(id).live - {id};
    var roots := Children(g.shape, after, id);
    forall c ensures c !in roots {
      ClimbsFromParent(g.shape, g.live - {id}, id, id);
      ClimbsFromParent(g.shape, g.live - {id}, c, id);
    }
    assert forall i :: 0 <= i < |roots| ==> roots[i] in roots;
    assert after == g.Revoked(id).live;
    assert Forest(g.shape, after, roots) == [];
  }

  lemma ClimbsFromParent(s: Shape, live: set<Uuid>, x: Uuid, id: Uuid)
    ensures Under(s, live, id, id)
    ensures x in live && x in s.parent && s.parent[x].Some? && Under(s, live, s.parent[x].value, id)
            ==> Under(s, live, x, id)
  {
    assert Climbs(s, live, id, id, 0);
    if x in live && x in s.parent && s.parent[x].Some? && Under(s, live, s.parent[x].value, id) {
      var n: nat :| Climbs(s, live, s.parent[x].value, id, n);
      assert Climbs(s, live, x, id, n + 1);
    }
  }

  // ── Every history of grants ───────────────────────────────────────

  // No live grant has a revoked parent.
  predicate Closed(g: Lineage) {
    forall x :: x in g.live && g.HasParent(x) ==> g.shape.parent[x].value in g.live
  }

  datatype GrantOp = Create(id: Uuid, parent: Option<Uuid>) | Revoke(id: Uuid)

  predicate Enabled(g: Lineage, op: GrantOp) {
    match op
    case Create(id, parent) => id !in g.shape.parent && (parent.None? || parent.value in g.live)
    case Revoke(_) => true
  }

  function Apply(g: Lineage, op: GrantOp): Lineage {
    match op
    case Create(id, parent) => g.Created(id, parent)
    case Revoke(id) => g.Revoked(id)
  }

  const EMPTY: Lineage := Lineage(Shape([], map[]), {})

  function After(ops: seq<GrantOp>): Lineage {
    if ops == [] then EMPTY else Apply(After(ops[..|ops| - 1]), ops[|ops| - 1])
  }

  predicate History(ops: seq<GrantOp>) {
    forall i :: 0 <= i < |ops| ==> Enabled(After(ops[..i]), ops[i])
  }

  lemma CreateValid(g: Lineage, id: Uuid, parent: Option<Uuid>)
    requires g.Valid() && id !in g.shape.parent
    ensures g.Created(id, parent).Valid()
  {
    assert id !in g.shape.order;
  }

  /** Creating a grant keeps the revoked set closed exactly when its parent is not a revoked grant. */
  lemma CreateKeepsClosed(g: Lineage, id: Uuid, parent: Option<Uuid>)
    requires g.Valid() && Closed(g) && id !in g.shape.parent
    ensures Closed(g.Created(id, parent)) <==>
            !(parent.Some? && parent.value in g.shape.parent && parent.value !in g.live)
  {
    var h := g.Created(id, parent);
    if parent.Some? && parent.value in g.shape.parent && parent.value !in g.live {
      assert id in h.live && h.shape.parent[id] == parent && parent.value != id;
    }
  }

  /** A revocation keeps the revoked set closed under descendants. */
  lemma RevokeKeepsClosed(g: Lineage, id: Uuid)
    requires g.Valid() && Closed(g)
    ensures Closed(g.Revoked(id))
  {
    CascadeExact(g, id);
    var live := g.live - {id};
    forall x | x in g.Revoked(id).live && g.HasParent(x)
      ensures g.shape.parent[x].value in g.Revoked(id).live
    {
      ClimbsFromParent(g.shape, live, x, id);
    }
  }

  lemma {:induction false} HistoryKeepsClosed(ops: seq<GrantOp>)
    requires History(ops)
    ensures After(ops).Valid() && Closed(After(ops))
  {
    if ops != [] {
      var front, op := ops[..|ops| - 1], ops[|ops| - 1];
      forall i | 0 <= i < |front| ensures Enabled(After(front[..i]), front[i]) {
        assert front[..i] == ops[..i];
      }
      HistoryKeepsClosed(front);
      var g := After(front);
      assert Enabled(g, op);
      match op {
        case Create(id, parent) =>
          CreateValid(g, id, parent);
          CreateKeepsClosed(g, id, parent);
        case Revoke(id) =>
          RevokeKeepsClosed(g, id);
          CascadeExact(g, id);
      }
    }
  }

  // The grant n parent pointers above x, as long as each pointer leads to a row.
  function Ancestor(s: Shape, x: Uuid, n: nat): Option<Uuid>
    decreases n
  {
    if n == 0 then Some(x)
    else if x in s.parent && s.parent[x].Some? && s.parent[x].value in s.parent
      then Ancestor(s, s.parent[x].value, n - 1) else None
  }

  /** After any history no live grant has a revoked ancestor, at any depth. */
  lemma NoLiveGrantUnderRevoked(ops: seq<GrantOp>, x: Uuid, n: nat)
    requires History(ops) && x in After(ops).live && Ancestor(After(ops).shape, x, n).Some?
    ensures Ancestor(After(ops).shape, x, n).value in After(ops).live
  {
    HistoryKeepsClosed(ops);
    LiveAncestor(After(ops), x, n);
  }

  lemma {:induction false} LiveAncestor(g: Lineage, x: Uuid, n: nat)
    requires Closed(g) && x in g.live && Ancestor(g.shape, x, n).Some?
    ensures Ancestor(g.shape, x, n).value in g.live
    decreases n
  {
    if n > 0 {
      LiveAncestor(g, g.shape.parent[x].value, n - 1);
    }
  }

  /** A new grant, to which no row points yet, is revoked with its parent and with every grant that its parent is
      revoked with, and with no other grant. */
  lemma CreatedFollowsParent(g: Lineage, id: Uuid, parent: Option<Uuid>, top: Uuid)
    requires g.Valid() && id !in g.shape.parent && top in g.shape.parent && NobodyPointsTo(g, id, parent)
    ensures var h := g.Created(id, parent);
            && h.Valid() && id in h.live
            && (id !in h.Revoked(top).live <==>
                  parent.Some? && (parent.value == top || Under(g.shape, g.live - {top}, parent.value, top)))
  {
    var h := g.Created(id, parent);
    CreateValid(g, id, parent);
    CascadeExact(h, top);
    var live, more := g.live - {top}, h.live - {top};
    assert more == live + {id};
    if Under(h.shape, more, id, top) {
      var n: nat :| Climbs(h.shape, more, id, top, n);
      ClimbsBeside(g, id, parent, top, parent.value, n - 1);
      assert Under(g.shape, live, parent.value, top);
    } else if parent.Some? && (parent.value == top || Under(g.shape, live, parent.value, top)) {
      ClimbsFromParent(g.shape, live, top, top);
      var n: nat :| Climbs(g.shape, live, parent.value, top, n);
      ClimbsStill(g, id, parent, top, parent.value, n);
      assert Climbs(h.shape, more, id, top, n + 1);
    }
  }

  predicate NobodyPointsTo(g: Lineage, id: Uuid, parent: Option<Uuid>) {
    parent != Some(id) && forall x :: x in g.shape.parent ==> g.shape.parent[x] != Some(id)
  }

  // Below a new grant without children nothing climbs through it.
  lemma {:induction false} ClimbsBeside(g: Lineage, id: Uuid, parent: Option<Uuid>, top: Uuid, x: Uuid, n: nat)
    requires g.Valid() && id !in g.shape.parent && top in g.shape.parent && NobodyPointsTo(g, id, parent)
    requires Climbs(g.Created(id, parent).shape, g.live + {id} - {top}, x, top, n) && x != id
    ensures Climbs(g.shape, g.live - {top}, x, top, n)
    decreases n
  {
    if n > 0 {
      ClimbsBeside(g, id, parent, top, g.shape.parent[x].value, n - 1);
    }
  }

  lemma {:induction false} ClimbsStill(g: Lineage, id: Uuid, parent: Option<Uuid>, top: Uuid, x: Uuid, n: nat)
    requires g.Valid() && id !in g.shape.parent && Climbs(g.shape, g.live - {top}, x, top, n)
    ensures Climbs(g.Created(id, parent).shape, g.Created(id, parent).live - {top}, x, top, n)
    decreases n
  {
    if n > 0 {
      ClimbsStill(g, id, parent, top, g.shape.parent[x].value, n - 1);
    }
  }
}
