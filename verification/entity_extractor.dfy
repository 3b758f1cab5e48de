/** The knowledge-graph extractor: it turns a language model's JSON answer into
    entities and relations, filtering by type and confidence and capping the
    entity count, and merges several such graphs into one, deduplicating
    entities by a case-insensitive name and their type. */
module EntityExtractor {
  import opened Common
  import opened LlmResponse

  /** `ENTITY_TYPES`. */
  const EntityTypes: seq<string> := ["person", "organization", "concept", "event", "location", "document", "topic"]

  /** `RELATION_TYPES`. */
  const RelationTypes: seq<string> :=
    ["mentions", "related_to", "part_of", "caused_by", "leads_to", "associated_with", "contrasts_with", "supports", "opposes"]

  /** An entity entry as it appears in an answer or in a graph to merge; an
      absent key is `None`. Confidence and importance are real numbers. */
  datatype RawEntity = RawEntity(
    id: Option<string>,
    name: Option<string>,
    entType: Option<string>,
    description: Option<string>,
    confidence: Option<real>,
    importance: Option<real>)

  /** A relation entry as it appears in an answer or in a graph to merge. */
  datatype RawRelation = RawRelation(
    id: Option<string>,
    sourceId: Option<string>,
    targetId: Option<string>,
    relType: Option<string>,
    relLabel: Option<string>,
    weight: Option<real>)

  /** The decoded answer, or one graph handed to the merge. */
  datatype GraphData = GraphData(entities: Option<seq<RawEntity>>, relations: Option<seq<RawRelation>>)

  /** `GraphEntity`. */
  datatype GraphEntity = GraphEntity(
    id: string,
    name: string,
    entType: string,
    description: string,
    confidence: real,
    importance: real)

  /** `GraphRelation`. */
  datatype GraphRelation = GraphRelation(
    id: string,
    sourceId: string,
    targetId: string,
    relType: string,
    relLabel: string,
    weight: real)

  // ---------------------------------------------------------------------------
  // Parsing the answer
  // ---------------------------------------------------------------------------

  /** The structure `_parse_response` returns when the answer does not decode. */
  const FallbackGraph := GraphData(Some([]), Some([]))

  /** `_parse_response`: decode the unwrapped answer with `decode`, a stand-in
      for `json.loads`, or return empty entity and relation lists. */
  function ParseGraphResponse(response: string, decode: string -> Option<GraphData>): (r: GraphData)
    ensures decode(UnwrapFence(response)).None? ==> r.entities == Some([]) && r.relations == Some([])
    ensures decode(UnwrapFence(response)).Some? ==> r == decode(UnwrapFence(response)).value
  {
    ParseResponse(response, decode, FallbackGraph)
  }

  // ---------------------------------------------------------------------------
  // Building a graph from an answer
  // ---------------------------------------------------------------------------

  /** The type filter is active when a non-empty list of types is given. */
  predicate TypeFilterOn(entityTypes: Option<seq<string>>) {
    entityTypes.Some? && |entityTypes.value| > 0
  }

  /** An entry survives the type filter and the confidence threshold (an
      absent confidence counts as 1.0). */
  predicate PassesFilters(e: RawEntity, entityTypes: Option<seq<string>>, minConfidence: real) {
    && (TypeFilterOn(entityTypes) ==> e.entType.Some? && e.entType.value in entityTypes.value)
    && e.confidence.GetOr(1.0) >= minConfidence
  }

  function Passes(entityTypes: Option<seq<string>>, minConfidence: real): RawEntity -> bool {
    (e: RawEntity) => PassesFilters(e, entityTypes, minConfidence)
  }

  /** An entity type outside `ENTITY_TYPES`, or an absent one, becomes "concept". */
  function NormalEntityType(t: Option<string>): (r: string)
    ensures r in EntityTypes
    ensures t.Some? && t.value in EntityTypes ==> r == t.value
    ensures (t.None? || t.value !in EntityTypes) ==> r == "concept"
  {
    var x := t.GetOr("concept");
    if x in EntityTypes then x else "concept"
  }

  /** A relation type outside `RELATION_TYPES`, or an absent one, becomes "related_to". */
  function NormalRelationType(t: Option<string>): (r: string)
    ensures r in RelationTypes
    ensures t.Some? && t.value in RelationTypes ==> r == t.value
    ensures (t.None? || t.value !in RelationTypes) ==> r == "related_to"
  {
    var x := t.GetOr("related_to");
    if x in RelationTypes then x else "related_to"
  }

  /** The entity built from a kept entry; `freshId` is the `uuid4()` drawn for
      it, which the source draws whether or not the entry has an id. */
  function ConvertEntity(e: RawEntity, freshId: string): GraphEntity {
    GraphEntity(
      e.id.GetOr(freshId),
      e.name.GetOr("Unknown"),
      NormalEntityType(e.entType),
      e.description.GetOr(""),
      e.confidence.GetOr(1.0),
      e.importance.GetOr(0.5))
  }

  /** Kept entries converted in order; the `i`-th draws the `start + i`-th uuid. */
  function ConvertEntities(es: seq<RawEntity>, start: nat, uuid: nat -> string): (r: seq<GraphEntity>)
    ensures |r| == |es|
    decreases |es|
  {
    if |es| == 0 then [] else [ConvertEntity(es[0], uuid(start))] + ConvertEntities(es[1..], start + 1, uuid)
  }

  /** The `i`-th kept entry becomes the `i`-th entity, with the `start + i`-th uuid. */
  lemma {:induction false} ConvertEntitiesAt(es: seq<RawEntity>, start: nat, uuid: nat -> string, i: nat)
    requires i < |es|
    ensures ConvertEntities(es, start, uuid)[i] == ConvertEntity(es[i], uuid(start + i))
    decreases i
  {
    if i > 0 {
      ConvertEntitiesAt(es[1..], start + 1, uuid, i - 1);
    }
  }

  /** How many entries the loop keeps at most: it stops right after the entry
      that brings the count to `max_entities`, so never fewer than one. */
  function Cap(maxEntities: int): nat {
    if maxEntities >= 1 then maxEntities else 1
  }

  /** Reference definition of the kept entries: those among the first
      `2 * max_entities` that pass the filters, cut to the cap. */
  function KeptEntries(raws: seq<RawEntity>, entityTypes: Option<seq<string>>, minConfidence: real, maxEntities: int): (r: seq<RawEntity>)
    ensures |r| <= Cap(maxEntities)
    ensures maxEntities >= 0 ==> |r| <= maxEntities
    ensures forall e :: e in r ==> e in raws && PassesFilters(e, entityTypes, minConfidence)
  {
    var pre := PyPrefix(raws, 2 * maxEntities);
    var p := Passes(entityTypes, minConfidence);
    var kept := Filter(pre, p);
    var r := kept[..if |kept| < Cap(maxEntities) then |kept| else Cap(maxEntities)];
    assert forall e :: e in r ==> e in raws && PassesFilters(e, entityTypes, minConfidence) by {
      forall e | e in r ensures e in raws && PassesFilters(e, entityTypes, minConfidence) {
        assert e in kept;
        assert e in pre && p(e);
        assert pre == raws[..|pre|];
      }
    }
    r
  }

  /** Every entity built from a kept entry meets the threshold, carries a known
      type, and, under a type filter, was asked for under the type it came with. */
  lemma KeptEntitiesFiltered(raws: seq<RawEntity>, entityTypes: Option<seq<string>>, minConfidence: real, maxEntities: int, uuid: nat -> string)
    ensures var kept := KeptEntries(raws, entityTypes, minConfidence, maxEntities);
            var es := ConvertEntities(kept, 0, uuid);
            forall i :: 0 <= i < |es| ==>
              && es[i].confidence >= minConfidence
              && es[i].entType in EntityTypes
              && (TypeFilterOn(entityTypes) ==>
                    && kept[i].entType.Some? && kept[i].entType.value in entityTypes.value
                    && (es[i].entType == kept[i].entType.value || es[i].entType == "concept"))
  {
    var kept := KeptEntries(raws, entityTypes, minConfidence, maxEntities);
    forall i | 0 <= i < |kept|
      ensures PassesFilters(kept[i], entityTypes, minConfidence)
      ensures ConvertEntities(kept, 0, uuid)[i] == ConvertEntity(kept[i], uuid(i))
    {
      assert kept[i] in kept;
      ConvertEntitiesAt(kept, 0, uuid, i);
    }
  }

  /** The loop body's bookkeeping: one more entry examined. */
  lemma FilterStep(s: seq<RawEntity>, i: nat, p: RawEntity -> bool)
    requires i < |s|
    ensures Filter(s[..i + 1], p) == Filter(s[..i], p) + (if p(s[i]) then [s[i]] else [])
  {
    assert s[..i + 1] == s[..i] + [s[i]];
    FilterAppend(s[..i], [s[i]], p);
  }

  lemma {:induction false} ConvertEntitiesAppend(es: seq<RawEntity>, e: RawEntity, start: nat, uuid: nat -> string)
    ensures ConvertEntities(es + [e], start, uuid) == ConvertEntities(es, start, uuid) + [ConvertEntity(e, uuid(start + |es|))]
    decreases |es|
  {
    if |es| == 0 {
      assert es + [e] == [e];
    } else {
      assert (es + [e])[1..] == es[1..] + [e];
      ConvertEntitiesAppend(es[1..], e, start + 1, uuid);
    }
  }

  /** One more entry examined by the entity loop. */
  lemma EntityLoopStep(s: seq<RawEntity>, i: nat, p: RawEntity -> bool, uuid: nat -> string)
    requires i < |s|
    ensures ConvertEntities(Filter(s[..i + 1], p), 0, uuid)
         == ConvertEntities(Filter(s[..i], p), 0, uuid)
            + (if p(s[i]) then [ConvertEntity(s[i], uuid(|Filter(s[..i], p)|))] else [])
  {
    FilterStep(s, i, p);
    var before := Filter(s[..i], p);
    var after := Filter(s[..i + 1], p);
    if p(s[i]) {
      assert after == before + [s[i]];
      ConvertEntitiesAppend(before, s[i], 0, uuid);
    } else {
      assert after == before;
    }
  }

  /** When the loop stops at the cap, it has kept exactly the reference entries. */
  /** A kept entry adds its converted entity, numbered by the count so far. */
  lemma TakeStep(s: seq<RawEntity>, i: nat, p: RawEntity -> bool, uuid: nat -> string, entities: seq<GraphEntity>)
    requires i < |s| && p(s[i]) && entities == ConvertEntities(Filter(s[..i], p), 0, uuid)
    ensures entities + [ConvertEntity(s[i], uuid(|entities|))] == ConvertEntities(Filter(s[..i + 1], p), 0, uuid)
    ensures |Filter(s[..i + 1], p)| == |entities| + 1
  {
    EntityLoopStep(s, i, p, uuid);
  }

  /** A skipped entry adds nothing. */
  lemma SkipStep(s: seq<RawEntity>, i: nat, p: RawEntity -> bool, uuid: nat -> string, entities: seq<GraphEntity>)
    requires i < |s| && !p(s[i]) && entities == ConvertEntities(Filter(s[..i], p), 0, uuid)
    ensures entities == ConvertEntities(Filter(s[..i + 1], p), 0, uuid)
  {
    EntityLoopStep(s, i, p, uuid);
  }

  lemma KeptAtCap(raws: seq<RawEntity>, entityTypes: Option<seq<string>>, minConfidence: real, maxEntities: int, i: nat)
    requires var s := PyPrefix(raws, 2 * maxEntities);
             i <= |s| && |Filter(s[..i], Passes(entityTypes, minConfidence))| == Cap(maxEntities)
    ensures KeptEntries(raws, entityTypes, minConfidence, maxEntities)
         == Filter(PyPrefix(raws, 2 * maxEntities)[..i], Passes(entityTypes, minConfidence))
  {
    var s := PyPrefix(raws, 2 * maxEntities);
    var p := Passes(entityTypes, minConfidence);
    assert s == s[..i] + s[i..];
    FilterAppend(s[..i], s[i..], p);
  }

  /** When the loop runs out of entries below the cap, it has kept them all. */
  lemma KeptAtEnd(raws: seq<RawEntity>, entityTypes: Option<seq<string>>, minConfidence: real, maxEntities: int)
    requires var k := |Filter(PyPrefix(raws, 2 * maxEntities), Passes(entityTypes, minConfidence))|;
             k == 0 || k < maxEntities
    ensures KeptEntries(raws, entityTypes, minConfidence, maxEntities)
         == Filter(PyPrefix(raws, 2 * maxEntities), Passes(entityTypes, minConfidence))
  {
  }

  /** The loop's result when it stops at the cap after `i` entries. */
  lemma StopAtCap(raws: seq<RawEntity>, entityTypes: Option<seq<string>>, minConfidence: real, maxEntities: int,
                  uuid: nat -> string, i: nat, entities: seq<GraphEntity>)
    requires var s := PyPrefix(raws, 2 * maxEntities);
             && i <= |s| && entities == ConvertEntities(Filter(s[..i], Passes(entityTypes, minConfidence)), 0, uuid)
             && 0 < |entities| && maxEntities <= |entities| && (|entities| == 1 || |entities| - 1 < maxEntities)
    ensures entities == ConvertEntities(KeptEntries(raws, entityTypes, minConfidence, maxEntities), 0, uuid)
    ensures maxEntities >= 0 ==> |entities| <= maxEntities
  {
    KeptAtCap(raws, entityTypes, minConfidence, maxEntities, i);
  }

  /** The loop's result when it runs out of entries below the cap. */
  lemma StopAtEnd(raws: seq<RawEntity>, entityTypes: Option<seq<string>>, minConfidence: real, maxEntities: int,
                  uuid: nat -> string, entities: seq<GraphEntity>)
    requires var s := PyPrefix(raws, 2 * maxEntities);
             && entities == ConvertEntities(Filter(s[..|s|], Passes(entityTypes, minConfidence)), 0, uuid)
             && (|entities| == 0 || |entities| < maxEntities)
    ensures entities == ConvertEntities(KeptEntries(raws, entityTypes, minConfidence, maxEntities), 0, uuid)
    ensures maxEntities >= 0 ==> |entities| <= maxEntities
  {
    var s := PyPrefix(raws, 2 * maxEntities);
    assert s[..|s|] == s;
    KeptAtEnd(raws, entityTypes, minConfidence, maxEntities);
  }

  /** The entity loop of `_build_graph`: walk the first `2 * max_entities`
      entries, skip those failing the type filter or the threshold, convert
      the rest, and stop as soon as `max_entities` are kept. */
  method BuildEntities(raws: seq<RawEntity>, entityTypes: Option<seq<string>>, minConfidence: real, maxEntities: int, uuid: nat -> string)
    returns (entities: seq<GraphEntity>)
    ensures entities == ConvertEntities(KeptEntries(raws, entityTypes, minConfidence, maxEntities), 0, uuid)
    ensures maxEntities >= 0 ==> |entities| <= maxEntities
  {
    var slice := PyPrefix(raws, 2 * maxEntities);
    var p := Passes(entityTypes, minConfidence);
    entities := [];
    var i := 0;
    while i < |slice|
      invariant 0 <= i <= |slice|
      invariant entities == ConvertEntities(Filter(slice[..i], p), 0, uuid)
      invariant |entities| == 0 || |entities| < maxEntities
    {
      var e := slice[i];
      if p(e) {
        TakeStep(slice, i, p, uuid, entities);
        entities := entities + [ConvertEntity(e, uuid(|entities|))];
        if |entities| >= maxEntities {
          StopAtCap(raws, entityTypes, minConfidence, maxEntities, uuid, i + 1, entities);
          return;
        }
      } else {
        SkipStep(slice, i, p, uuid, entities);
      }
      i := i + 1;
    }
    StopAtEnd(raws, entityTypes, minConfidence, maxEntities, uuid, entities);
  }

  /** Both ends of a relation entry name kept entities. */
  function EndsIn(ids: set<string>): RawRelation -> bool {
    (r: RawRelation) => r.sourceId.Some? && r.targetId.Some? && r.sourceId.value in ids && r.targetId.value in ids
  }

  /** The relation built from an entry; `freshId` is the `uuid4()` drawn for it. */
  function ConvertRelation(r: RawRelation, freshId: string): GraphRelation {
    GraphRelation(
      r.id.GetOr(freshId),
      r.sourceId.GetOr(""),
      r.targetId.GetOr(""),
      NormalRelationType(r.relType),
      r.relLabel.GetOr(""),
      r.weight.GetOr(0.5))
  }

  function ConvertRelations(rs: seq<RawRelation>, start: nat, uuid: nat -> string): (r: seq<GraphRelation>)
    ensures |r| == |rs|
    decreases |rs|
  {
    if |rs| == 0 then [] else [ConvertRelation(rs[0], uuid(start))] + ConvertRelations(rs[1..], start + 1, uuid)
  }

  lemma {:induction false} ConvertRelationsAt(rs: seq<RawRelation>, start: nat, uuid: nat -> string, i: nat)
    requires i < |rs|
    ensures ConvertRelations(rs, start, uuid)[i] == ConvertRelation(rs[i], uuid(start + i))
    decreases i
  {
    if i > 0 {
      ConvertRelationsAt(rs[1..], start + 1, uuid, i - 1);
    }
  }

  /** The relation loop of `_build_graph`: keep, in order, the entries whose
      two ends are kept entity ids, normalising their type. */
  function KeptRelations(raws: seq<RawRelation>, ids: set<string>, start: nat, uuid: nat -> string): (r: seq<GraphRelation>)
    ensures |r| == Count(raws, EndsIn(ids))
    ensures forall i :: 0 <= i < |r| ==> r[i].sourceId in ids && r[i].targetId in ids && r[i].relType in RelationTypes
  {
    var kept := Filter(raws, EndsIn(ids));
    var r := ConvertRelations(kept, start, uuid);
    assert forall i :: 0 <= i < |r| ==> r[i].sourceId in ids && r[i].targetId in ids && r[i].relType in RelationTypes by {
      forall i | 0 <= i < |r| ensures r[i].sourceId in ids && r[i].targetId in ids && r[i].relType in RelationTypes {
        assert kept[i] in kept;
        ConvertRelationsAt(kept, start, uuid, i);
      }
    }
    r
  }

  /** No relation entry between kept entities is lost. */
  lemma KeptRelationsComplete(raws: seq<RawRelation>, ids: set<string>, start: nat, uuid: nat -> string, x: RawRelation)
    requires x in raws && EndsIn(ids)(x)
    ensures exists r :: r in KeptRelations(raws, ids, start, uuid)
              && r.sourceId == x.sourceId.value && r.targetId == x.targetId.value
  {
    var kept := Filter(raws, EndsIn(ids));
    var i :| 0 <= i < |kept| && kept[i] == x;
    var r := KeptRelations(raws, ids, start, uuid);
    ConvertRelationsAt(kept, start, uuid, i);
    assert r[i] == ConvertRelation(x, uuid(start + i));
  }

  function IdSet(es: seq<GraphEntity>): set<string> {
    set e | e in es :: e.id
  }

  /** `_build_graph`: the entities as above, then the relations between them;
      uuids are drawn first for the entities, then for the relations. */
  method BuildGraph(data: GraphData, entityTypes: Option<seq<string>>, minConfidence: real, maxEntities: int, uuid: nat -> string)
    returns (entities: seq<GraphEntity>, relations: seq<GraphRelation>)
    ensures entities == ConvertEntities(KeptEntries(data.entities.GetOr([]), entityTypes, minConfidence, maxEntities), 0, uuid)
    ensures maxEntities >= 0 ==> |entities| <= maxEntities
    ensures relations == KeptRelations(data.relations.GetOr([]), IdSet(entities), |entities|, uuid)
    ensures forall i :: 0 <= i < |relations| ==>
              (exists a :: a in entities && a.id == relations[i].sourceId)
              && (exists b :: b in entities && b.id == relations[i].targetId)
  {
    entities := BuildEntities(data.entities.GetOr([]), entityTypes, minConfidence, maxEntities, uuid);
    relations := KeptRelations(data.relations.GetOr([]), IdSet(entities), |entities|, uuid);
  }

  // ---------------------------------------------------------------------------
  // Merging graphs
  // ---------------------------------------------------------------------------

  /** The deduplication key: the lower-cased name, a colon, and the type. */
  function KeyOf(name: string, entType: string): string {
    AsciiLower(name) + ":" + entType
  }

  function EntityKey(e: GraphEntity): string {
    KeyOf(e.name, e.entType)
  }

  /** An entry that can be keyed: it has the `name` and `type` keys. */
  predicate Keyed(e: RawEntity) {
    e.name.Some? && e.entType.Some?
  }

  function DataKey(e: RawEntity): string
    requires Keyed(e)
  {
    KeyOf(e.name.value, e.entType.value)
  }

  function RealMax(a: real, b: real): real {
    if a >= b then a else b
  }

  /** The message of the exception raised for a missing required key. */
  const KeyError := "KeyError"

  /** The merge's state: entities, all relations so far, and `entity_map`
      from keys to positions in the entity list. */
  datatype MergeState = MergeState(entities: seq<GraphEntity>, relations: seq<GraphRelation>, index: map<string, nat>)

  /** The entity built for an entry the merge has not seen: `id`, `name` and
      `type` are required there. */
  function MergeEntity(e: RawEntity): GraphEntity
    requires e.id.Some? && Keyed(e)
  {
    GraphEntity(e.id.value, e.name.value, e.entType.value, e.description.GetOr(""), e.confidence.GetOr(1.0), e.importance.GetOr(0.5))
  }

  /** One entity entry of `merge_graphs`: with deduplication and a known key,
      a higher confidence (an absent one counting as 0) replaces the stored
      one and raises its importance; otherwise a new entity is appended and
      indexed. A missing required key is an error. */
  function AddEntity(st: MergeState, e: RawEntity, dedupe: bool): Result<MergeState, string> {
    if !Keyed(e) then Err(KeyError)
    else
      var key := DataKey(e);
      if dedupe && key in st.index && st.index[key] < |st.entities| then
        var j := st.index[key];
        var existing := st.entities[j];
        if e.confidence.GetOr(0.0) > existing.confidence then
          if e.confidence.None? then Err(KeyError)
          else
            var raised := existing.(confidence := e.confidence.value,
                                    importance := RealMax(existing.importance, e.importance.GetOr(0.5)));
            Ok(st.(entities := st.entities[j := raised]))
        else Ok(st)
      else if e.id.None? then Err(KeyError)
      else Ok(st.(entities := st.entities + [MergeEntity(e)], index := st.index[key := |st.entities|]))
  }

  function AddEntities(st: MergeState, es: seq<RawEntity>, dedupe: bool): Result<MergeState, string>
    decreases |es|
  {
    if |es| == 0 then Ok(st)
    else match AddEntity(st, es[0], dedupe)
      case Err(m) => Err(m)
      case Ok(st') => AddEntities(st', es[1..], dedupe)
  }

  /** A relation entry of a graph being merged: `id`, `sourceId`, `targetId`
      and `type` are required, and the type is kept as given. */
  function AddRelation(st: MergeState, r: RawRelation): Result<MergeState, string> {
    if r.id.None? || r.sourceId.None? || r.targetId.None? || r.relType.None? then Err(KeyError)
    else Ok(st.(relations := st.relations + [MergeRelation(r)]))
  }

  function MergeRelation(r: RawRelation): GraphRelation {
    GraphRelation(r.id.GetOr(""), r.sourceId.GetOr(""), r.targetId.GetOr(""), r.relType.GetOr(""), r.relLabel.GetOr(""), r.weight.GetOr(0.5))
  }

  function AddRelations(st: MergeState, rs: seq<RawRelation>): Result<MergeState, string>
    decreases |rs|
  {
    if |rs| == 0 then Ok(st)
    else match AddRelation(st, rs[0])
      case Err(m) => Err(m)
      case Ok(st') => AddRelations(st', rs[1..])
  }

  /** The graphs one by one: each graph's entities, then its relations. */
  function MergeFrom(st: MergeState, graphs: seq<GraphData>, dedupe: bool): Result<MergeState, string>
    decreases |graphs|
  {
    if |graphs| == 0 then Ok(st)
    else match AddEntities(st, graphs[0].entities.GetOr([]), dedupe)
      case Err(m) => Err(m)
      case Ok(st1) =>
        match AddRelations(st1, graphs[0].relations.GetOr([]))
        case Err(m) => Err(m)
        case Ok(st2) => MergeFrom(st2, graphs[1..], dedupe)
  }

  /** The merged graph and its counts. */
  datatype Merged = Merged(
    entities: seq<GraphEntity>,
    relations: seq<GraphRelation>,
    sourceGraphCount: nat,
    entityCount: nat,
    relationCount: nat)

  function MergeEnds(ids: set<string>): GraphRelation -> bool {
    (r: GraphRelation) => r.sourceId in ids && r.targetId in ids
  }

  /** `merge_graphs`: merge every graph, then keep only the relations whose two
      ends are ids of merged entities. */
  function MergeGraphs(graphs: seq<GraphData>, dedupe: bool): (r: Result<Merged, string>)
    ensures r.Ok? ==> r.value.sourceGraphCount == |graphs| && r.value.entityCount == |r.value.entities|
                      && r.value.relationCount == |r.value.relations|
    ensures r.Ok? ==> forall x :: x in r.value.relations ==> x.sourceId in IdSet(r.value.entities) && x.targetId in IdSet(r.value.entities)
  {
    match MergeFrom(MergeState([], [], map[]), graphs, dedupe)
    case Err(m) => Err(m)
    case Ok(st) =>
      var valid := Filter(st.relations, MergeEnds(IdSet(st.entities)));
      Ok(Merged(st.entities, valid, |graphs|, |st.entities|, |valid|))
  }

  // ---------------------------------------------------------------------------
  // What the merge keeps true
  // ---------------------------------------------------------------------------

  /** Every entity entry of `graphs`, in processing order. */
  function AllEntities(graphs: seq<GraphData>): seq<RawEntity>
    decreases |graphs|
  {
    if |graphs| == 0 then [] else graphs[0].entities.GetOr([]) + AllEntities(graphs[1..])
  }

  /** Every relation entry of `graphs`, in processing order. */
  function AllRelations(graphs: seq<GraphData>): seq<RawRelation>
    decreases |graphs|
  {
    if |graphs| == 0 then [] else graphs[0].relations.GetOr([]) + AllRelations(graphs[1..])
  }

  function MergeRelations(rs: seq<RawRelation>): (r: seq<GraphRelation>)
    ensures |r| == |rs|
    decreases |rs|
  {
    if |rs| == 0 then [] else [MergeRelation(rs[0])] + MergeRelations(rs[1..])
  }

  /** The first keyed entry of `seen` with key `key`. */
  function FirstWithKey(seen: seq<RawEntity>, key: string): (r: Option<RawEntity>)
    ensures r.Some? ==> r.value in seen && Keyed(r.value) && DataKey(r.value) == key
    decreases |seen|
  {
    if |seen| == 0 then None
    else if Keyed(seen[0]) && DataKey(seen[0]) == key then Some(seen[0])
    else FirstWithKey(seen[1..], key)
  }

  /** `entity_map` points at an entity carrying each key. */
  ghost predicate IndexSound(st: MergeState) {
    forall key :: key in st.index ==> st.index[key] < |st.entities| && EntityKey(st.entities[st.index[key]]) == key
  }

  /** Every entry seen so far was keyed and its key is indexed. */
  ghost predicate SeenIndexed(st: MergeState, seen: seq<RawEntity>) {
    forall e :: e in seen ==> Keyed(e) && DataKey(e) in st.index
  }

  /** With deduplication: each entity is the one its key points at, carries the
      id of the first entry with its key, and holds a confidence no lower than
      any entry with its key. */
  ghost predicate DedupeOk(st: MergeState, seen: seq<RawEntity>) {
    forall j :: 0 <= j < |st.entities| ==>
      && EntityKey(st.entities[j]) in st.index && st.index[EntityKey(st.entities[j])] == j
      && FirstWithKey(seen, EntityKey(st.entities[j])).Some?
      && FirstWithKey(seen, EntityKey(st.entities[j])).value.id == Some(st.entities[j].id)
      && (forall e :: e in seen && Keyed(e) && DataKey(e) == EntityKey(st.entities[j]) && e.confidence.Some? ==>
            st.entities[j].confidence >= e.confidence.value)
  }

  /** Without deduplication: one entity per entry, in order. */
  ghost predicate CopyOk(st: MergeState, seen: seq<RawEntity>) {
    |st.entities| == |seen| && forall j :: 0 <= j < |seen| ==> seen[j].id.Some? && Keyed(seen[j]) && st.entities[j] == MergeEntity(seen[j])
  }

  ghost predicate MergeInv(st: MergeState, seen: seq<RawEntity>, dedupe: bool) {
    IndexSound(st) && SeenIndexed(st, seen) && (dedupe ==> DedupeOk(st, seen)) && (!dedupe ==> CopyOk(st, seen))
  }

  lemma FirstWithKeyAppend(seen: seq<RawEntity>, e: RawEntity, key: string)
    requires FirstWithKey(seen, key).Some?
    ensures FirstWithKey(seen + [e], key) == FirstWithKey(seen, key)
    decreases |seen|
  {
    if !(Keyed(seen[0]) && DataKey(seen[0]) == key) {
      assert (seen + [e])[1..] == seen[1..] + [e];
      FirstWithKeyAppend(seen[1..], e, key);
    }
  }

  lemma FirstWithKeyNew(seen: seq<RawEntity>, e: RawEntity)
    requires Keyed(e) && forall x :: x in seen && Keyed(x) ==> DataKey(x) != DataKey(e)
    ensures FirstWithKey(seen + [e], DataKey(e)) == Some(e)
    decreases |seen|
  {
    if |seen| == 0 {
      assert seen + [e] == [e];
    } else {
      assert (seen + [e])[1..] == seen[1..] + [e];
      FirstWithKeyNew(seen[1..], e);
    }
  }

  /** An entry whose key is already indexed, under deduplication. */
  lemma AddKnownInv(st: MergeState, seen: seq<RawEntity>, e: RawEntity)
    requires MergeInv(st, seen, true) && Keyed(e) && DataKey(e) in st.index
    requires AddEntity(st, e, true).Ok?
    ensures MergeInv(AddEntity(st, e, true).value, seen + [e], true)
  {
    var st' := AddEntity(st, e, true).value;
    var j := st.index[DataKey(e)];
    AddKnownShape(st, e, j);
    AddKnownDedupe(st, st', seen, e, j);
  }

  /** The entity a known key points at: only it may change, keeping its key
      and id and not lowering its confidence below the entry's. */
  ghost predicate KnownUpdate(st: MergeState, st': MergeState, e: RawEntity, j: nat)
    requires Keyed(e)
  {
    && j < |st.entities|
    && st'.index == st.index && |st'.entities| == |st.entities|
    && (forall m :: 0 <= m < |st.entities| && m != j ==> st'.entities[m] == st.entities[m])
    && EntityKey(st'.entities[j]) == EntityKey(st.entities[j]) && st'.entities[j].id == st.entities[j].id
    && st'.entities[j].confidence >= st.entities[j].confidence
    && (e.confidence.Some? ==> st'.entities[j].confidence >= e.confidence.value)
  }

  lemma AddKnownShape(st: MergeState, e: RawEntity, j: nat)
    requires IndexSound(st) && Keyed(e) && DataKey(e) in st.index && j == st.index[DataKey(e)]
    requires AddEntity(st, e, true).Ok?
    ensures KnownUpdate(st, AddEntity(st, e, true).value, e, j)
  {
  }

  lemma AddKnownDedupe(st: MergeState, st': MergeState, seen: seq<RawEntity>, e: RawEntity, j: nat)
    requires MergeInv(st, seen, true) && Keyed(e) && DataKey(e) in st.index && j == st.index[DataKey(e)]
    requires KnownUpdate(st, st', e, j)
    ensures MergeInv(st', seen + [e], true)
  {
    assert EntityKey(st.entities[j]) == DataKey(e);
    forall m | 0 <= m < |st'.entities|
      ensures FirstWithKey(seen + [e], EntityKey(st'.entities[m])) == FirstWithKey(seen, EntityKey(st'.entities[m]))
    {
      FirstWithKeyAppend(seen, e, EntityKey(st'.entities[m]));
    }
    forall m, x | 0 <= m < |st'.entities| && x in seen + [e] && Keyed(x) && DataKey(x) == EntityKey(st'.entities[m]) && x.confidence.Some?
      ensures st'.entities[m].confidence >= x.confidence.value
    {
      assert EntityKey(st'.entities[m]) == EntityKey(st.entities[m]);
      if x == e {
        assert st.index[EntityKey(st.entities[m])] == m;
      } else {
        assert x in seen;
      }
    }
  }

  /** An entry whose key is new, or any entry without deduplication. */
  lemma AddNewInv(st: MergeState, seen: seq<RawEntity>, e: RawEntity, dedupe: bool)
    requires MergeInv(st, seen, dedupe) && Keyed(e) && !(dedupe && DataKey(e) in st.index)
    requires AddEntity(st, e, dedupe).Ok?
    ensures MergeInv(AddEntity(st, e, dedupe).value, seen + [e], dedupe)
  {
    var st' := AddEntity(st, e, dedupe).value;
    AddNewShape(st, e, dedupe);
    AddNewIndexed(st, st', seen, e);
    if dedupe {
      AddNewDedupe(st, st', seen, e);
    } else {
      AddNewCopy(st, st', seen, e);
    }
  }

  /** A new entry appends its entity and indexes its key at the end. */
  lemma AddNewShape(st: MergeState, e: RawEntity, dedupe: bool)
    requires Keyed(e) && !(dedupe && DataKey(e) in st.index)
    requires AddEntity(st, e, dedupe).Ok?
    ensures e.id.Some?
    ensures var st' := AddEntity(st, e, dedupe).value;
            st'.entities == st.entities + [MergeEntity(e)] && st'.index == st.index[DataKey(e) := |st.entities|]
  {
  }

  lemma AddNewIndexed(st: MergeState, st': MergeState, seen: seq<RawEntity>, e: RawEntity)
    requires IndexSound(st) && SeenIndexed(st, seen) && Keyed(e) && e.id.Some?
    requires st'.entities == st.entities + [MergeEntity(e)] && st'.index == st.index[DataKey(e) := |st.entities|]
    ensures IndexSound(st') && SeenIndexed(st', seen + [e])
  {
    assert EntityKey(MergeEntity(e)) == DataKey(e);
    forall key | key in st'.index
      ensures st'.index[key] < |st'.entities| && EntityKey(st'.entities[st'.index[key]]) == key
    {
      if key != DataKey(e) {
        assert st'.entities[st.index[key]] == st.entities[st.index[key]];
      }
    }
  }

  lemma AddNewDedupe(st: MergeState, st': MergeState, seen: seq<RawEntity>, e: RawEntity)
    requires IndexSound(st) && SeenIndexed(st, seen) && DedupeOk(st, seen) && Keyed(e) && e.id.Some?
    requires DataKey(e) !in st.index
    requires st'.entities == st.entities + [MergeEntity(e)] && st'.index == st.index[DataKey(e) := |st.entities|]
    ensures DedupeOk(st', seen + [e])
  {
    var key, k := DataKey(e), |st.entities|;
    assert EntityKey(MergeEntity(e)) == key;
    assert forall x :: x in seen && Keyed(x) ==> DataKey(x) != key;
    FirstWithKeyNew(seen, e);
    forall m | 0 <= m < k
      ensures FirstWithKey(seen + [e], EntityKey(st'.entities[m])) == FirstWithKey(seen, EntityKey(st'.entities[m]))
    {
      FirstWithKeyAppend(seen, e, EntityKey(st'.entities[m]));
    }
    forall m | 0 <= m < k ensures EntityKey(st.entities[m]) != key {
      assert EntityKey(st.entities[m]) in st.index;
    }
  }

  lemma AddNewCopy(st: MergeState, st': MergeState, seen: seq<RawEntity>, e: RawEntity)
    requires CopyOk(st, seen) && Keyed(e) && e.id.Some?
    requires st'.entities == st.entities + [MergeEntity(e)]
    ensures CopyOk(st', seen + [e])
  {
  }

  lemma AddEntityInv(st: MergeState, seen: seq<RawEntity>, e: RawEntity, dedupe: bool)
    requires MergeInv(st, seen, dedupe) && AddEntity(st, e, dedupe).Ok?
    ensures MergeInv(AddEntity(st, e, dedupe).value, seen + [e], dedupe)
    ensures AddEntity(st, e, dedupe).value.relations == st.relations
  {
    assert Keyed(e);
    if dedupe && DataKey(e) in st.index {
      AddKnownInv(st, seen, e);
    } else {
      AddNewInv(st, seen, e, dedupe);
    }
  }

  lemma AddEntitiesInv(st: MergeState, seen: seq<RawEntity>, es: seq<RawEntity>, dedupe: bool)
    requires MergeInv(st, seen, dedupe) && AddEntities(st, es, dedupe).Ok?
    ensures MergeInv(AddEntities(st, es, dedupe).value, seen + es, dedupe)
    ensures AddEntities(st, es, dedupe).value.relations == st.relations
  {
    var inv := (s: MergeState, sn: seq<RawEntity>) => MergeInv(s, sn, dedupe);
    forall s: MergeState, sn: seq<RawEntity>, e: RawEntity | inv(s, sn) && AddEntity(s, e, dedupe).Ok?
      ensures inv(AddEntity(s, e, dedupe).value, sn + [e])
    {
      AddEntityInv(s, sn, e, dedupe);
    }
    AddEntitiesKeep(inv, st, seen, es, dedupe);
    AddEntitiesKeepRelations(st, es, dedupe);
  }

  /** A property of the state and the entries seen that every single entity
      entry keeps is kept by a whole list of them. */
  lemma {:induction false} AddEntitiesKeep(inv: (MergeState, seq<RawEntity>) -> bool, st: MergeState, seen: seq<RawEntity>,
                                           es: seq<RawEntity>, dedupe: bool)
    requires forall s, sn, e :: inv(s, sn) && AddEntity(s, e, dedupe).Ok? ==> inv(AddEntity(s, e, dedupe).value, sn + [e])
    requires inv(st, seen) && AddEntities(st, es, dedupe).Ok?
    ensures inv(AddEntities(st, es, dedupe).value, seen + es)
    decreases |es|
  {
    if |es| == 0 {
      assert seen + es == seen;
    } else {
      var st' := AddEntity(st, es[0], dedupe).value;
      AddEntitiesKeep(inv, st', seen + [es[0]], es[1..], dedupe);
      assert seen + [es[0]] + es[1..] == seen + es;
    }
  }

  lemma {:induction false} AddRelationsShape(st: MergeState, rs: seq<RawRelation>)
    requires AddRelations(st, rs).Ok?
    ensures var st' := AddRelations(st, rs).value;
            st'.entities == st.entities && st'.index == st.index && st'.relations == st.relations + MergeRelations(rs)
    decreases |rs|
  {
    if |rs| > 0 {
      var st' := AddRelation(st, rs[0]).value;
      AddRelationsShape(st', rs[1..]);
      assert MergeRelations(rs) == [MergeRelation(rs[0])] + MergeRelations(rs[1..]);
    }
  }

  lemma {:induction false} MergeRelationsAppend(a: seq<RawRelation>, b: seq<RawRelation>)
    ensures MergeRelations(a + b) == MergeRelations(a) + MergeRelations(b)
    decreases |a|
  {
    if |a| == 0 {
      assert a + b == b;
    } else {
      assert (a + b)[1..] == a[1..] + b;
      MergeRelationsAppend(a[1..], b);
    }
  }

  /** One graph's entities keep the invariant. */
  lemma MergeOneInv(st: MergeState, seen: seq<RawEntity>, g: GraphData, dedupe: bool)
    requires MergeInv(st, seen, dedupe)
    requires AddEntities(st, g.entities.GetOr([]), dedupe).Ok?
    requires AddRelations(AddEntities(st, g.entities.GetOr([]), dedupe).value, g.relations.GetOr([])).Ok?
    ensures MergeInv(AddRelations(AddEntities(st, g.entities.GetOr([]), dedupe).value, g.relations.GetOr([])).value,
                     seen + g.entities.GetOr([]), dedupe)
  {
    var es := g.entities.GetOr([]);
    AddEntitiesInv(st, seen, es, dedupe);
    var st1 := AddEntities(st, es, dedupe).value;
    AddRelationsShape(st1, g.relations.GetOr([]));
  }

  /** The state after the first graph of a successful merge. */
  function MergeFromHead(st: MergeState, graphs: seq<GraphData>, dedupe: bool): (st2: MergeState)
    requires |graphs| > 0 && MergeFrom(st, graphs, dedupe).Ok?
    ensures AddEntities(st, graphs[0].entities.GetOr([]), dedupe).Ok?
    ensures AddRelations(AddEntities(st, graphs[0].entities.GetOr([]), dedupe).value, graphs[0].relations.GetOr([])).Ok?
    ensures st2 == AddRelations(AddEntities(st, graphs[0].entities.GetOr([]), dedupe).value, graphs[0].relations.GetOr([])).value
    ensures MergeFrom(st, graphs, dedupe) == MergeFrom(st2, graphs[1..], dedupe)
  {
    AddRelations(AddEntities(st, graphs[0].entities.GetOr([]), dedupe).value, graphs[0].relations.GetOr([])).value
  }

  lemma AllEntitiesHead(seen: seq<RawEntity>, graphs: seq<GraphData>)
    requires |graphs| > 0
    ensures seen + graphs[0].entities.GetOr([]) + AllEntities(graphs[1..]) == seen + AllEntities(graphs)
  {
    var x, y := graphs[0].entities.GetOr([]), AllEntities(graphs[1..]);
    assert AllEntities(graphs) == x + y;
    AppendAssociative(seen, x, y);
  }

  lemma {:induction false} MergeFromInv(st: MergeState, seen: seq<RawEntity>, graphs: seq<GraphData>, dedupe: bool)
    requires MergeInv(st, seen, dedupe) && MergeFrom(st, graphs, dedupe).Ok?
    ensures MergeInv(MergeFrom(st, graphs, dedupe).value, seen + AllEntities(graphs), dedupe)
    decreases |graphs|
  {
    if |graphs| == 0 {
      assert seen + AllEntities(graphs) == seen;
    } else {
      var g := graphs[0];
      var es := g.entities.GetOr([]);
      MergeOneInv(st, seen, g, dedupe);
      var st2 := MergeFromHead(st, graphs, dedupe);
      MergeFromInv(st2, seen + es, graphs[1..], dedupe);
      AllEntitiesHead(seen, graphs);
    }
  }

  lemma {:induction false} AddEntitiesKeepRelations(st: MergeState, es: seq<RawEntity>, dedupe: bool)
    requires AddEntities(st, es, dedupe).Ok?
    ensures AddEntities(st, es, dedupe).value.relations == st.relations
    decreases |es|
  {
    if |es| > 0 {
      AddEntitiesKeepRelations(AddEntity(st, es[0], dedupe).value, es[1..], dedupe);
    }
  }

  /** The relations collected are every graph's relation entries, in order. */
  lemma {:induction false} MergeFromRelations(st: MergeState, graphs: seq<GraphData>, dedupe: bool)
    requires MergeFrom(st, graphs, dedupe).Ok?
    ensures MergeFrom(st, graphs, dedupe).value.relations == st.relations + MergeRelations(AllRelations(graphs))
    decreases |graphs|
  {
    if |graphs| == 0 {
      assert st.relations + MergeRelations(AllRelations(graphs)) == st.relations;
    } else {
      var g := graphs[0];
      var es := g.entities.GetOr([]);
      var rs := g.relations.GetOr([]);
      var st1 := AddEntities(st, es, dedupe).value;
      AddEntitiesKeepRelations(st, es, dedupe);
      AddRelationsShape(st1, rs);
      var st2 := AddRelations(st1, rs).value;
      MergeFromRelations(st2, graphs[1..], dedupe);
      assert AllRelations(graphs) == rs + AllRelations(graphs[1..]);
      MergeRelationsAppend(rs, AllRelations(graphs[1..]));
    }
  }

  /** `merge_graphs`, when no required key is missing: every entry's key is
      represented; with deduplication the keys are distinct, each entity keeps
      the id of the first entry with its key and a confidence no lower than any
      entry with its key; without it there is one entity per entry; and the
      relations are exactly the given ones whose two ends are merged ids. */
  lemma MergeGraphsShape(graphs: seq<GraphData>, dedupe: bool)
    requires MergeGraphs(graphs, dedupe).Ok?
    ensures var m := MergeGraphs(graphs, dedupe).value;
            var seen := AllEntities(graphs);
            && (forall e :: e in seen ==> Keyed(e) && exists x :: x in m.entities && EntityKey(x) == DataKey(e))
            && (dedupe ==> forall i, j :: 0 <= i < j < |m.entities| ==> EntityKey(m.entities[i]) != EntityKey(m.entities[j]))
            && (dedupe ==> forall j :: 0 <= j < |m.entities| ==>
                  FirstWithKey(seen, EntityKey(m.entities[j])).Some?
                  && FirstWithKey(seen, EntityKey(m.entities[j])).value.id == Some(m.entities[j].id))
            && (dedupe ==> forall j, e :: 0 <= j < |m.entities| && e in seen && e.confidence.Some? && DataKey(e) == EntityKey(m.entities[j]) ==>
                  m.entities[j].confidence >= e.confidence.value)
            && (!dedupe ==> |m.entities| == |seen|)
            && (forall x :: x in m.relations <==>
                  x in MergeRelations(AllRelations(graphs)) && x.sourceId in IdSet(m.entities) && x.targetId in IdSet(m.entities))
  {
    var st0 := MergeState([], [], map[]);
    assert MergeInv(st0, [], dedupe);
    MergeFromInv(st0, [], graphs, dedupe);
    MergeFromRelations(st0, graphs, dedupe);
    var st := MergeFrom(st0, graphs, dedupe).value;
    assert [] + AllEntities(graphs) == AllEntities(graphs);
    assert [] + MergeRelations(AllRelations(graphs)) == MergeRelations(AllRelations(graphs));
    var seen := AllEntities(graphs);
    forall e | e in seen ensures Keyed(e) && exists x :: x in st.entities && EntityKey(x) == DataKey(e) {
      var j := st.index[DataKey(e)];
      assert st.entities[j] in st.entities;
    }
    if dedupe {
      forall i, j | 0 <= i < j < |st.entities| ensures EntityKey(st.entities[i]) != EntityKey(st.entities[j]) {
        assert st.index[EntityKey(st.entities[i])] == i;
      }
    }
  }

  /** A merge of well-formed graphs succeeds: every entity entry has `id`,
      `name`, `type` and `confidence`, every relation entry `id`, `sourceId`,
      `targetId` and `type`. */
  lemma MergeWellFormedSucceeds(graphs: seq<GraphData>, dedupe: bool)
    requires forall e :: e in AllEntities(graphs) ==> e.id.Some? && Keyed(e) && e.confidence.Some?
    requires forall r :: r in AllRelations(graphs) ==> r.id.Some? && r.sourceId.Some? && r.targetId.Some? && r.relType.Some?
    ensures MergeGraphs(graphs, dedupe).Ok?
  {
    MergeFromSucceeds(MergeState([], [], map[]), graphs, dedupe);
  }

  lemma {:induction false} MergeFromSucceeds(st: MergeState, graphs: seq<GraphData>, dedupe: bool)
    requires forall e :: e in AllEntities(graphs) ==> e.id.Some? && Keyed(e) && e.confidence.Some?
    requires forall r :: r in AllRelations(graphs) ==> r.id.Some? && r.sourceId.Some? && r.targetId.Some? && r.relType.Some?
    ensures MergeFrom(st, graphs, dedupe).Ok?
    decreases |graphs|
  {
    if |graphs| > 0 {
      var es := graphs[0].entities.GetOr([]);
      var rs := graphs[0].relations.GetOr([]);
      AddEntitiesSucceed(st, es, dedupe);
      var st1 := AddEntities(st, es, dedupe).value;
      AddRelationsSucceed(st1, rs);
      var st2 := AddRelations(st1, rs).value;
      MergeFromSucceeds(st2, graphs[1..], dedupe);
    }
  }

  lemma {:induction false} AddEntitiesSucceed(st: MergeState, es: seq<RawEntity>, dedupe: bool)
    requires forall e :: e in es ==> e.id.Some? && Keyed(e) && e.confidence.Some?
    ensures AddEntities(st, es, dedupe).Ok?
    decreases |es|
  {
    if |es| > 0 {
      assert es[0] in es;
      AddEntitiesSucceed(AddEntity(st, es[0], dedupe).value, es[1..], dedupe);
    }
  }

  lemma {:induction false} AddRelationsSucceed(st: MergeState, rs: seq<RawRelation>)
    requires forall r :: r in rs ==> r.id.Some? && r.sourceId.Some? && r.targetId.Some? && r.relType.Some?
    ensures AddRelations(st, rs).Ok?
    decreases |rs|
  {
    if |rs| > 0 {
      assert rs[0] in rs;
      AddRelationsSucceed(AddRelation(st, rs[0]).value, rs[1..]);
    }
  }

  /** A missing `name` makes the merge fail, even with deduplication. */
  lemma NamelessEntityFails(dedupe: bool)
    ensures MergeGraphs([GraphData(Some([RawEntity(Some("e1"), None, Some("person"), None, None, None)]), None)], dedupe).Err?
  {
    var e := RawEntity(Some("e1"), None, Some("person"), None, None, None);
    var st0 := MergeState([], [], map[]);
    assert AddEntity(st0, e, dedupe).Err?;
    assert AddEntities(st0, [e], dedupe).Err?;
  }
}
