/** Sensitivity inheritance along parent-type relationships: resolving an
    entity's effective level, pushing a raised level down to inheriting
    descendants, and walking the chain of ancestors. The entity store and the
    relationship table are an explicit value (`Store`) instead of a database. */
module InheritanceResolver {
  import opened Common
  import opened PrivacyLevels

  /** The relationship types that make `source` a parent of `target`. */
  const ParentRelationshipTypes: seq<string> := ["contains", "has_child", "parent_of", "includes", "owns"]

  predicate IsParentType(relType: string) {
    relType in ParentRelationshipTypes
  }

  datatype Relationship = Relationship(source: string, target: string, relType: string)

  /** A stored entity: its own level (if any) and its sensitivity configuration. */
  datatype EntityRecord = EntityRecord(
    sensitivity: Option<SensitivityLevel>,
    inheritFromParent: Option<bool>,
    inheritedFrom: Option<string>)

  /** The entities of one tenant, keyed by uid, and its relationships in storage order. */
  datatype Store = Store(entities: map<string, EntityRecord>, relationships: seq<Relationship>)

  datatype SensitivityConfig = SensitivityConfig(
    level: SensitivityLevel,
    permissions: ContextPermissions,
    inheritFromParent: bool,
    inheritedFrom: Option<string>)

  /** The level a record is treated as having: its own, or personal by default. */
  function Effective(e: EntityRecord): SensitivityLevel {
    e.sensitivity.GetOr(Personal)
  }

  /** The record explicitly refuses inheritance. */
  predicate OptsOut(e: EntityRecord) {
    e.inheritFromParent == Some(false)
  }

  /** Parent-type relationships whose target is `uid`, in storage order. */
  function ParentLinks(rels: seq<Relationship>, uid: string): (r: seq<Relationship>)
    ensures forall x :: x in r <==> x in rels && x.target == uid && IsParentType(x.relType)
    decreases |rels|
  {
    if |rels| == 0 then []
    else if rels[0].target == uid && IsParentType(rels[0].relType) then [rels[0]] + ParentLinks(rels[1..], uid)
    else ParentLinks(rels[1..], uid)
  }

  /** Parent-type relationships whose source is `uid`, in storage order. */
  function ChildLinks(rels: seq<Relationship>, uid: string): (r: seq<Relationship>)
    ensures forall x :: x in r <==> x in rels && x.source == uid && IsParentType(x.relType)
    decreases |rels|
  {
    if |rels| == 0 then []
    else if rels[0].source == uid && IsParentType(rels[0].relType) then [rels[0]] + ChildLinks(rels[1..], uid)
    else ChildLinks(rels[1..], uid)
  }

  // ---------------------------------------------------------------------------
  // resolve
  // ---------------------------------------------------------------------------

  datatype ParentLevel = ParentLevel(uid: string, level: SensitivityLevel)

  /** The parents (through `links`) that exist and carry their own level, in link order. */
  function ParentLevels(entities: map<string, EntityRecord>, links: seq<Relationship>): (r: seq<ParentLevel>)
    ensures forall p :: p in r <==> exists x :: x in links && x.source == p.uid && p.uid in entities
                                            && entities[p.uid].sensitivity == Some(p.level)
    decreases |links|
  {
    if |links| == 0 then []
    else
      var src := links[0].source;
      var rest := ParentLevels(entities, links[1..]);
      if src in entities && entities[src].sensitivity.Some? then [ParentLevel(src, entities[src].sensitivity.value)] + rest
      else rest
  }

  /** The left-to-right scan for the most restrictive parent: a later parent
      replaces the current pick only when strictly more restrictive, so the
      first of the most restrictive parents wins. */
  function MostRestrictiveFrom(best: ParentLevel, rest: seq<ParentLevel>): (r: ParentLevel)
    ensures r == best || r in rest
    ensures Rank(r.level) >= Rank(best.level)
    ensures forall p :: p in rest ==> Rank(p.level) <= Rank(r.level)
    ensures r != best ==> Rank(r.level) > Rank(best.level)
    ensures r != best ==> exists i :: 0 <= i < |rest| && rest[i] == r && forall j :: 0 <= j < i ==> Rank(rest[j].level) < Rank(r.level)
    decreases |rest|
  {
    if |rest| == 0 then best
    else
      var next := if IsMoreRestrictive(rest[0].level, best.level) then rest[0] else best;
      var r := MostRestrictiveFrom(next, rest[1..]);
      assert r != best ==> exists i :: 0 <= i < |rest| && rest[i] == r && forall j :: 0 <= j < i ==> Rank(rest[j].level) < Rank(r.level) by {
        if r != best {
          if r == next {
            assert rest[0] == r;
          } else {
            var i :| 0 <= i < |rest[1..]| && rest[1..][i] == r && forall j :: 0 <= j < i ==> Rank(rest[1..][j].level) < Rank(r.level);
            assert rest[i + 1] == r;
            forall j | 0 <= j < i + 1 ensures Rank(rest[j].level) < Rank(r.level) {
              if j > 0 { assert rest[j] == rest[1..][j - 1]; }
            }
          }
        }
      }
      r
  }

  function ConfigFor(level: SensitivityLevel, inherit: bool, from: Option<string>): SensitivityConfig {
    SensitivityConfig(level, DefaultPermissions(level), inherit, from)
  }

  /** The effective sensitivity of entity `uid` (described by `entity`). */
  function Resolve(uid: string, entity: EntityRecord, store: Store): (r: SensitivityConfig)
    ensures r.permissions == DefaultPermissions(r.level)
    ensures entity.sensitivity.Some? ==> Rank(r.level) >= Rank(entity.sensitivity.value)
    ensures entity.sensitivity.Some? && OptsOut(entity) ==> r == ConfigFor(entity.sensitivity.value, false, None)
    ensures !(entity.sensitivity.Some? && OptsOut(entity)) ==>
              forall p :: p in ParentLevels(store.entities, ParentLinks(store.relationships, uid)) ==> Rank(p.level) <= Rank(r.level)
    ensures r.inheritFromParent <==> !(entity.sensitivity.Some? && OptsOut(entity))
                                     && |ParentLevels(store.entities, ParentLinks(store.relationships, uid))| > 0
    ensures !r.inheritFromParent ==> r.level == entity.sensitivity.GetOr(Personal) && r.inheritedFrom.None?
    ensures r.inheritedFrom.Some? ==> ParentLevel(r.inheritedFrom.value, r.level) in ParentLevels(store.entities, ParentLinks(store.relationships, uid))
    ensures r.inheritFromParent && r.inheritedFrom.None? ==> entity.sensitivity == Some(r.level)
  {
    if entity.sensitivity.Some? && OptsOut(entity) then
      ConfigFor(entity.sensitivity.value, false, None)
    else
      var parentRels := ParentLinks(store.relationships, uid);
      if |parentRels| == 0 then
        ConfigFor(entity.sensitivity.GetOr(Personal), false, None)
      else
        FromParentLevels(entity, ParentLevels(store.entities, parentRels))
  }

  /** The part of `resolve` after the parent relationships are found: no
      parent with a level leaves the entity's own level; otherwise the most
      restrictive parent's level is inherited unless the entity's own is
      stricter still. */
  function FromParentLevels(entity: EntityRecord, parentSensitivities: seq<ParentLevel>): (r: SensitivityConfig)
    ensures r.permissions == DefaultPermissions(r.level)
    ensures entity.sensitivity.Some? ==> Rank(r.level) >= Rank(entity.sensitivity.value)
    ensures forall p :: p in parentSensitivities ==> Rank(p.level) <= Rank(r.level)
    ensures r.inheritFromParent <==> |parentSensitivities| > 0
    ensures !r.inheritFromParent ==> r.level == entity.sensitivity.GetOr(Personal) && r.inheritedFrom.None?
    ensures r.inheritedFrom.Some? ==> ParentLevel(r.inheritedFrom.value, r.level) in parentSensitivities
    ensures r.inheritFromParent && r.inheritedFrom.None? ==> entity.sensitivity == Some(r.level)
  {
    if |parentSensitivities| == 0 then
      ConfigFor(entity.sensitivity.GetOr(Personal), false, None)
    else
      var mostRestrictive := MostRestrictiveFrom(parentSensitivities[0], parentSensitivities[1..]);
      assert parentSensitivities == [parentSensitivities[0]] + parentSensitivities[1..];
      if entity.sensitivity.Some? && IsMoreRestrictive(entity.sensitivity.value, mostRestrictive.level) then
        ConfigFor(entity.sensitivity.value, true, None)
      else
        ConfigFor(mostRestrictive.level, true, Some(mostRestrictive.uid))
  }

  /** Relationships of other types play no part in resolution: adding one leaves the result unchanged. */
  lemma {:induction false} NonParentLinksIgnored(rels: seq<Relationship>, extra: Relationship, uid: string)
    requires !IsParentType(extra.relType)
    ensures ParentLinks(rels + [extra], uid) == ParentLinks(rels, uid)
    decreases |rels|
  {
    if |rels| == 0 {
      assert ParentLinks([extra], uid) == ParentLinks([], uid);
    } else {
      assert (rels + [extra])[1..] == rels[1..] + [extra];
      NonParentLinksIgnored(rels[1..], extra, uid);
    }
  }

  lemma ResolveIgnoresOtherRelationships(uid: string, entity: EntityRecord, store: Store, extra: Relationship)
    requires !IsParentType(extra.relType)
    ensures Resolve(uid, entity, store.(relationships := store.relationships + [extra])) == Resolve(uid, entity, store)
  {
    NonParentLinksIgnored(store.relationships, extra, uid);
  }

  // ---------------------------------------------------------------------------
  // propagateToChildren
  // ---------------------------------------------------------------------------

  const AllLevels: set<SensitivityLevel> := {Public, Personal, Confidential, Secret}

  /** The (entity, level) pairs an entity could still be raised to. Every
      update of the propagation removes at least one pair, which bounds it. */
  ghost function Headroom(entities: map<string, EntityRecord>): set<(string, SensitivityLevel)> {
    set u, l | u in entities && l in AllLevels && IsMoreRestrictive(l, Effective(entities[u])) :: (u, l)
  }

  /** The record a propagation step writes for a child of `parentUid`. */
  function Raised(newLevel: SensitivityLevel, parentUid: string): EntityRecord {
    EntityRecord(Some(newLevel), Some(true), Some(parentUid))
  }

  lemma RaiseShrinksHeadroom(entities: map<string, EntityRecord>, c: string, newLevel: SensitivityLevel, parentUid: string)
    requires c in entities && IsMoreRestrictive(newLevel, Effective(entities[c]))
    ensures Headroom(entities[c := Raised(newLevel, parentUid)]) < Headroom(entities)
    ensures |Headroom(entities[c := Raised(newLevel, parentUid)])| < |Headroom(entities)|
  {
    var after := entities[c := Raised(newLevel, parentUid)];
    assert (c, newLevel) in Headroom(entities);
    assert (c, newLevel) !in Headroom(after);
    forall x | x in Headroom(after) ensures x in Headroom(entities) {
    }
    ProperSubsetSmaller(Headroom(after), Headroom(entities));
  }

  /** The relation between a store before and after (part of) a propagation of
      `newLevel`: same uids and relationships, no level lowered, no headroom
      gained, and every record that changed now holds `newLevel`, inherits, and
      did not opt out before. */
  ghost predicate Grows(before: Store, after: Store, newLevel: SensitivityLevel) {
    && after.relationships == before.relationships
    && after.entities.Keys == before.entities.Keys
    && Headroom(after.entities) <= Headroom(before.entities)
    && (forall u :: u in before.entities ==> Rank(Effective(after.entities[u])) >= Rank(Effective(before.entities[u])))
    && (forall u :: u in before.entities && after.entities[u] != before.entities[u] ==>
          after.entities[u].sensitivity == Some(newLevel) && after.entities[u].inheritFromParent == Some(true)
          && !OptsOut(before.entities[u]))
  }

  lemma GrowsTransitive(a: Store, b: Store, c: Store, newLevel: SensitivityLevel)
    requires Grows(a, b, newLevel) && Grows(b, c, newLevel)
    ensures Grows(a, c, newLevel)
  {
    forall u | u in a.entities && c.entities[u] != a.entities[u]
      ensures c.entities[u].sensitivity == Some(newLevel) && c.entities[u].inheritFromParent == Some(true)
              && !OptsOut(a.entities[u])
    {
      if b.entities[u] == a.entities[u] {
      } else if c.entities[u] == b.entities[u] {
      }
    }
  }

  /** After the propagation, `c` is at least `newLevel`, unless it is missing or opts out. */
  ghost predicate Covered(entities: map<string, EntityRecord>, c: string, newLevel: SensitivityLevel) {
    c !in entities || OptsOut(entities[c]) || Rank(Effective(entities[c])) >= Rank(newLevel)
  }

  lemma CoveredStays(a: Store, b: Store, c: string, newLevel: SensitivityLevel)
    requires Grows(a, b, newLevel) && Covered(a.entities, c, newLevel)
    ensures Covered(b.entities, c, newLevel)
  {
  }

  /** Every inheriting child of `u` is covered. */
  ghost predicate ChildrenCovered(s: Store, u: string, newLevel: SensitivityLevel) {
    forall x :: x in ChildLinks(s.relationships, u) ==> Covered(s.entities, x.target, newLevel)
  }

  lemma ChildrenCoveredStays(a: Store, b: Store, u: string, newLevel: SensitivityLevel)
    requires Grows(a, b, newLevel) && ChildrenCovered(a, u, newLevel)
    ensures ChildrenCovered(b, u, newLevel)
  {
    forall x | x in ChildLinks(b.relationships, u) ensures Covered(b.entities, x.target, newLevel) {
      CoveredStays(a, b, x.target, newLevel);
    }
  }

  lemma ChildrenCoveredStaysAll(a: Store, b: Store, us: seq<string>, newLevel: SensitivityLevel)
    requires Grows(a, b, newLevel) && forall u :: u in us ==> ChildrenCovered(a, u, newLevel)
    ensures forall u :: u in us ==> ChildrenCovered(b, u, newLevel)
  {
    forall u | u in us ensures ChildrenCovered(b, u, newLevel) {
      ChildrenCoveredStays(a, b, u, newLevel);
    }
  }

  /** What a (partial) propagation of `newLevel` guarantees, from `before` to
      `after` with `updated` the uids it rewrote: the store grew, every updated
      uid was strictly raised to `newLevel` and has its inheriting children
      covered, and nothing else changed. */
  ghost predicate Propagated(before: Store, after: Store, updated: seq<string>, newLevel: SensitivityLevel) {
    && Grows(before, after, newLevel)
    && (forall u :: u in updated ==>
          (u in before.entities && Effective(after.entities[u]) == newLevel
           && IsMoreRestrictive(newLevel, Effective(before.entities[u]))))
    && (forall u :: u in before.entities && after.entities[u] != before.entities[u] ==> u in updated)
    && (forall u :: u in updated ==> ChildrenCovered(after, u, newLevel))
  }

  /** Raising child `c`, propagating below it, then handling the remaining
      links composes into one propagation that covers `c`. */
  lemma RaiseStep(store: Store, c: string, parentUid: string, newLevel: SensitivityLevel,
                  s2: Store, grand: seq<string>, s3: Store, rest: seq<string>)
    requires c in store.entities && !OptsOut(store.entities[c])
    requires IsMoreRestrictive(newLevel, Effective(store.entities[c]))
    requires Propagated(store.(entities := store.entities[c := Raised(newLevel, parentUid)]), s2, grand, newLevel)
    requires ChildrenCovered(s2, c, newLevel)
    requires Propagated(s2, s3, rest, newLevel)
    ensures Propagated(store, s3, [c] + grand + rest, newLevel)
    ensures Covered(s3.entities, c, newLevel)
  {
    var s1 := store.(entities := store.entities[c := Raised(newLevel, parentUid)]);
    RaiseShrinksHeadroom(store.entities, c, newLevel, parentUid);
    assert Grows(store, s1, newLevel);
    GrowsTransitive(store, s1, s2, newLevel);
    GrowsTransitive(store, s2, s3, newLevel);
    GrowsTransitive(s1, s2, s3, newLevel);
    assert Covered(s1.entities, c, newLevel);
    CoveredStays(s1, s3, c, newLevel);
    ChildrenCoveredStaysAll(s2, s3, [c] + grand, newLevel);
    var all := [c] + grand + rest;
    forall u | u in all
      ensures u in store.entities && Effective(s3.entities[u]) == newLevel
              && IsMoreRestrictive(newLevel, Effective(store.entities[u]))
    {
      if u !in rest {
        assert u == c || u in grand;
      }
    }
    forall u | u in store.entities && s3.entities[u] != store.entities[u] ensures u in all {
      if s2.entities[u] == s3.entities[u] && u != c {
        assert s1.entities[u] == store.entities[u];
      }
    }
  }

  /** `propagateToChildren(parent, newLevel)`: the new store and the uids
      updated, in the order they were updated. */
  function Propagate(store: Store, parentUid: string, newLevel: SensitivityLevel): (r: (Store, seq<string>))
    ensures Propagated(store, r.0, r.1, newLevel)
    ensures ChildrenCovered(r.0, parentUid, newLevel)
    decreases |Headroom(store.entities)|, 1, 0
  {
    PropagateLinks(store, ChildLinks(store.relationships, parentUid), parentUid, newLevel)
  }

  /** The loop of `propagateToChildren` over the remaining child links `rels`. */
  function PropagateLinks(store: Store, rels: seq<Relationship>, parentUid: string, newLevel: SensitivityLevel)
    : (r: (Store, seq<string>))
    ensures Propagated(store, r.0, r.1, newLevel)
    ensures forall x :: x in rels ==> Covered(r.0.entities, x.target, newLevel)
    decreases |Headroom(store.entities)|, 0, |rels|
  {
    if |rels| == 0 then (store, [])
    else
      var c := rels[0].target;
      if c !in store.entities || OptsOut(store.entities[c])
         || !IsMoreRestrictive(newLevel, Effective(store.entities[c])) then
        var r := PropagateLinks(store, rels[1..], parentUid, newLevel);
        assert Covered(store.entities, c, newLevel);
        CoveredStays(store, r.0, c, newLevel);
        assert forall x :: x in rels ==> x == rels[0] || x in rels[1..];
        r
      else
        var s1 := store.(entities := store.entities[c := Raised(newLevel, parentUid)]);
        RaiseShrinksHeadroom(store.entities, c, newLevel, parentUid);
        var (s2, grand) := Propagate(s1, c, newLevel);
        SubsetNoLarger(Headroom(s2.entities), Headroom(s1.entities));
        var (s3, rest) := PropagateLinks(s2, rels[1..], parentUid, newLevel);
        RaiseStep(store, c, parentUid, newLevel, s2, grand, s3, rest);
        assert forall x :: x in rels ==> x == rels[0] || x in rels[1..];
        (s3, [c] + grand + rest)
  }

  /** Records that opt out of inheritance are never touched by a propagation. */
  lemma PropagateSparesOptOuts(store: Store, parentUid: string, newLevel: SensitivityLevel, u: string)
    requires u in store.entities && OptsOut(store.entities[u])
    ensures Propagate(store, parentUid, newLevel).0.entities[u] == store.entities[u]
  {
  }

  // ---------------------------------------------------------------------------
  // getInheritanceChain
  // ---------------------------------------------------------------------------

  datatype ChainLink = ChainLink(uid: string, level: SensitivityLevel, depth: nat)

  /** The first parent-type relationship into `uid`, if any. */
  function FirstParentLink(rels: seq<Relationship>, uid: string): (r: Option<Relationship>)
    ensures r.Some? <==> |ParentLinks(rels, uid)| > 0
    ensures r.Some? ==> r.value == ParentLinks(rels, uid)[0]
    decreases |rels|
  {
    if |rels| == 0 then None
    else if rels[0].target == uid && IsParentType(rels[0].relType) then Some(rels[0])
    else FirstParentLink(rels[1..], uid)
  }

  /** `x` is the parent `FirstParentLink` picks for `y`. */
  predicate IsFirstParent(store: Store, x: string, y: string) {
    var p := FirstParentLink(store.relationships, y);
    p.Some? && p.value.source == x
  }

  /** Why the walk ends at `current` with `seen` uids visited: it was visited
      before, it has no parent link, or that parent is not in the store. */
  predicate Stops(store: Store, current: string, seen: set<string>) {
    var link := FirstParentLink(store.relationships, current);
    current in seen || link.None? || link.value.source !in store.entities
  }

  /** The uids of a chain's links. */
  function Uids(links: seq<ChainLink>): set<string>
    decreases |links|
  {
    if |links| == 0 then {} else {links[0].uid} + Uids(links[1..])
  }

  /** The body of the `while` loop from `current`, with `visited` uids seen and `depth` links pushed. */
  function ChainFrom(store: Store, current: string, visited: set<string>, depth: nat, maxDepth: int): (r: seq<ChainLink>)
    ensures depth + |r| <= maxDepth || |r| == 0
    ensures forall i :: 0 <= i < |r| ==>
              (r[i].depth == depth + i + 1 && r[i].uid in store.entities && r[i].level == Effective(store.entities[r[i].uid]))
    ensures |r| > 0 ==> IsFirstParent(store, r[0].uid, current)
    ensures forall i :: 0 < i < |r| ==> IsFirstParent(store, r[i].uid, r[i - 1].uid)
    decreases maxDepth - depth
  {
    if depth >= maxDepth || current in visited then []
    else
      var link := FirstParentLink(store.relationships, current);
      if link.None? || link.value.source !in store.entities then []
      else
        var p := link.value.source;
        [ChainLink(p, Effective(store.entities[p]), depth + 1)] + ChainFrom(store, p, visited + {current}, depth + 1, maxDepth)
  }

  /** A chain pushed from `current` with `visited` seen never lands on a uid
      the walk has stood on, except in its last link. */
  predicate Fresh(r: seq<ChainLink>, current: string, visited: set<string>) {
    && (|r| > 0 ==> current !in visited)
    && (forall i :: 0 <= i < |r| - 1 ==> r[i].uid !in visited && r[i].uid != current)
    && (forall i, j :: 0 <= i < j < |r| - 1 ==> r[i].uid != r[j].uid)
  }

  /** The walk never pushes a uid it has already stood on, except as the
      last link, where it then stops. */
  lemma {:induction false} ChainFromFresh(store: Store, current: string, visited: set<string>, depth: nat, maxDepth: int)
    ensures Fresh(ChainFrom(store, current, visited, depth, maxDepth), current, visited)
    decreases maxDepth - depth
  {
    var r := ChainFrom(store, current, visited, depth, maxDepth);
    if !(depth >= maxDepth || current in visited) {
      var link := FirstParentLink(store.relationships, current);
      if link.Some? && link.value.source in store.entities {
        var p := link.value.source;
        var seen := visited + {current};
        var rest := ChainFrom(store, p, seen, depth + 1, maxDepth);
        ChainFromFresh(store, p, seen, depth + 1, maxDepth);
        assert r == [ChainLink(p, Effective(store.entities[p]), depth + 1)] + rest;
        forall i | 0 <= i < |r| - 1
          ensures r[i].uid !in visited && r[i].uid != current
        {
          if i > 0 {
            assert r[i] == rest[i - 1];
          }
        }
        forall i, j | 0 <= i < j < |r| - 1
          ensures r[i].uid != r[j].uid
        {
          assert r[j] == rest[j - 1];
          if i > 0 {
            assert r[i] == rest[i - 1];
          }
        }
      }
    }
  }

  /** A chain pushed from `current` at `depth` that ends short of `maxDepth`
      ends where `Stops` holds: at the start when it is empty, otherwise at
      its last link, with the start and every earlier link visited. */
  predicate Halted(store: Store, r: seq<ChainLink>, current: string, visited: set<string>, depth: nat, maxDepth: int) {
    && (|r| == 0 && depth < maxDepth ==> Stops(store, current, visited))
    && (|r| > 0 && depth + |r| < maxDepth ==> Stops(store, r[|r| - 1].uid, visited + {current} + Uids(r[..|r| - 1])))
  }

  /** When the walk stops short of `maxDepth` it had a reason to: see `Stops`. */
  lemma {:induction false} ChainFromStops(store: Store, current: string, visited: set<string>, depth: nat, maxDepth: int)
    ensures Halted(store, ChainFrom(store, current, visited, depth, maxDepth), current, visited, depth, maxDepth)
    decreases maxDepth - depth
  {
    var r := ChainFrom(store, current, visited, depth, maxDepth);
    if !(depth >= maxDepth || current in visited) {
      var link := FirstParentLink(store.relationships, current);
      if link.Some? && link.value.source in store.entities {
        var p := link.value.source;
        var seen := visited + {current};
        var rest := ChainFrom(store, p, seen, depth + 1, maxDepth);
        ChainFromStops(store, p, seen, depth + 1, maxDepth);
        assert r == [ChainLink(p, Effective(store.entities[p]), depth + 1)] + rest;
        if |rest| > 0 {
          assert r[..|r| - 1][1..] == rest[..|rest| - 1];
          assert r[|r| - 1] == rest[|rest| - 1];
        } else {
          assert r[..|r| - 1] == [];
        }
      }
    }
  }

  /** The walk visits every entity at most once: the chain is no longer than
      the entities not yet visited, plus one for a start outside them. */
  lemma {:induction false} ChainFromBound(store: Store, current: string, visited: set<string>, depth: nat, maxDepth: int)
    ensures |ChainFrom(store, current, visited, depth, maxDepth)|
            <= |store.entities.Keys - visited| + (if current in store.entities.Keys - visited then 0 else 1)
    decreases maxDepth - depth
  {
    if !(depth >= maxDepth || current in visited) {
      var link := FirstParentLink(store.relationships, current);
      if link.Some? && link.value.source in store.entities {
        var p := link.value.source;
        var seen := visited + {current};
        ChainFromBound(store, p, seen, depth + 1, maxDepth);
        if current in store.entities {
          assert store.entities.Keys - seen == (store.entities.Keys - visited) - {current};
        } else {
          assert store.entities.Keys - seen == store.entities.Keys - visited;
        }
      }
    }
  }

  /** `getInheritanceChain(uid, maxDepth)`: the ancestors reached by following
      the first parent link, nearest first, each with its depth. The walk goes
      on until `maxDepth` links are pushed, an entity comes round again, or a
      parent link or parent entity is missing. */
  function GetInheritanceChain(store: Store, entityUid: string, maxDepth: int): (r: seq<ChainLink>)
    ensures maxDepth <= 0 ==> r == []
    ensures |r| <= maxDepth || r == []
    ensures |r| <= |store.entities| + 1
    ensures forall i :: 0 <= i < |r| ==>
              (r[i].depth == i + 1 && r[i].uid in store.entities && r[i].level == Effective(store.entities[r[i].uid]))
    ensures |r| > 0 ==> IsFirstParent(store, r[0].uid, entityUid)
    ensures forall i :: 0 < i < |r| ==> IsFirstParent(store, r[i].uid, r[i - 1].uid)
    ensures forall i :: 0 <= i < |r| - 1 ==> r[i].uid != entityUid
    ensures forall i, j :: 0 <= i < j < |r| - 1 ==> r[i].uid != r[j].uid
    ensures |r| == 0 && maxDepth > 0 ==> Stops(store, entityUid, {})
    ensures 0 < |r| < maxDepth ==> Stops(store, r[|r| - 1].uid, {entityUid} + Uids(r[..|r| - 1]))
  {
    var r := ChainFrom(store, entityUid, {}, 0, maxDepth);
    ChainFromBound(store, entityUid, {}, 0, maxDepth);
    ChainFromFresh(store, entityUid, {}, 0, maxDepth);
    ChainFromStops(store, entityUid, {}, 0, maxDepth);
    assert store.entities.Keys - {} == store.entities.Keys;
    assert {} + {entityUid} == {entityUid};
    r
  }

  /** The depth `getInheritanceChain` walks when none is given. */
  const DefaultChainDepth := 10

  /** `getInheritanceChain(uid)` with the default depth. */
  function GetDefaultInheritanceChain(store: Store, entityUid: string): (r: seq<ChainLink>)
    ensures |r| <= DefaultChainDepth
    ensures r == GetInheritanceChain(store, entityUid, DefaultChainDepth)
  {
    GetInheritanceChain(store, entityUid, DefaultChainDepth)
  }
}
