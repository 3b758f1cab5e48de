/** The entity lifecycle state machine: captured notes become transitional
    after a configurable age, transitional notes become permanent once an
    entity is assigned, and any non-archived note can be archived by hand.
    The entity service is a map of records; the clock, the relationship
    lookup and the summarizer are parameters. */
module LifecycleStateMachine {
  import opened Common

  datatype LifecycleState = Captured | Transitional | Permanent | Archived

  datatype Trigger = Time | EntityAssigned | Manual

  /** A condition of a transition; `AgeHours(h)` asks for an age of at least `h` hours. */
  datatype Condition = AgeHours(hours: real) | HasPrimaryEntity | HasSummary | ManualOverride

  datatype ActionType = Summarize | Notify | File | UpdateMetadata

  /** An action; `message` is used by `Notify`, `filedAtNow` by `UpdateMetadata`. */
  datatype Action = Action(kind: ActionType, message: Option<string>, filedAtNow: bool)

  datatype Transition = Transition(
    from: LifecycleState,
    to: LifecycleState,
    trigger: Trigger,
    conditions: seq<Condition>,
    actions: seq<Action>)

  /** The configuration as given; a missing age falls back to 48 hours. */
  datatype StateMachineConfig = StateMachineConfig(transitionAgeHours: Option<real>, requireSummaryForTransition: Option<bool>)

  const DefaultTransitionAgeHours: real := 48.0
  const MsPerHour: int := 1000 * 60 * 60

  function TransitionAgeHours(config: StateMachineConfig): (h: real)
    ensures config.transitionAgeHours.None? ==> h == 48.0
    ensures config.transitionAgeHours.Some? ==> h == config.transitionAgeHours.value
  {
    config.transitionAgeHours.GetOr(DefaultTransitionAgeHours)
  }

  /** The transition table, in the order the machine searches it. */
  function BuildTransitions(config: StateMachineConfig): seq<Transition> {
    [ Transition(Captured, Transitional, Time, [AgeHours(TransitionAgeHours(config))],
                 [Action(Summarize, None, false), Action(Notify, Some("Note ready for filing"), false)]),
      Transition(Transitional, Permanent, EntityAssigned, [HasPrimaryEntity],
                 [Action(File, None, false), Action(UpdateMetadata, None, true)]),
      Transition(Captured, Archived, Manual, [], []),
      Transition(Transitional, Archived, Manual, [], []),
      Transition(Permanent, Archived, Manual, [], []) ]
  }

  /** Reference definition: the five edges of the lifecycle graph. */
  predicate IsLifecycleEdge(from: LifecycleState, to: LifecycleState) {
    || (from == Captured && to == Transitional)
    || (from == Transitional && to == Permanent)
    || (from != Archived && to == Archived)
  }

  /** `getValidTransitions`: the table entries leaving `current`, in table order. */
  function GetValidTransitions(config: StateMachineConfig, current: LifecycleState): (r: seq<Transition>)
    ensures forall t :: t in r <==> t in BuildTransitions(config) && t.from == current
    ensures forall t :: t in r ==> IsLifecycleEdge(current, t.to)
  {
    Filter(BuildTransitions(config), (t: Transition) => t.from == current)
  }

  /** The first table entry from `from` to `to`, as `transitions.find` returns it. */
  function FindTransition(transitions: seq<Transition>, from: LifecycleState, to: LifecycleState): (r: Option<Transition>)
    ensures r.Some? ==> r.value in transitions && r.value.from == from && r.value.to == to
    ensures r.None? ==> forall t :: t in transitions ==> !(t.from == from && t.to == to)
    decreases |transitions|
  {
    if |transitions| == 0 then None
    else if transitions[0].from == from && transitions[0].to == to then Some(transitions[0])
    else FindTransition(transitions[1..], from, to)
  }

  /** `hasTransition`: the table holds exactly the lifecycle edges. */
  function HasTransition(config: StateMachineConfig, from: LifecycleState, to: LifecycleState): (r: bool)
    ensures r <==> IsLifecycleEdge(from, to)
  {
    FindTransition(BuildTransitions(config), from, to).Some?
  }

  /** Archived is a sink, and every other state can be archived by hand. */
  lemma ArchivedIsFinal(config: StateMachineConfig, s: LifecycleState)
    ensures GetValidTransitions(config, Archived) == []
    ensures s != Archived ==> exists t :: t in GetValidTransitions(config, s) && t.to == Archived && t.trigger == Manual
  {
    var table := BuildTransitions(config);
    FilterAllOrNone(table, (t: Transition) => t.from == Archived);
    if s != Archived {
      var i := match s case Captured => 2 case Transitional => 3 case _ => 4;
      assert table[i] in table;
      assert table[i] in GetValidTransitions(config, s);
    }
  }

  /** A stored entity, as the entity service returns it; times are milliseconds. */
  datatype Entity = Entity(
    uid: string,
    tenantId: string,
    lifecycleState: LifecycleState,
    capturedAt: int,
    summary: Option<string>,
    content: Option<string>,
    filedAt: Option<int>)

  /** `checkCondition` at clock `now`, with `relationshipCount(uid)` the number of stored relationships. */
  function CheckCondition(entity: Entity, condition: Condition, now: int, relationshipCount: string -> nat): (r: bool)
    ensures condition.AgeHours? ==> (r <==> AgeInHours(entity, now) >= condition.hours)
    ensures condition.HasPrimaryEntity? ==> (r <==> relationshipCount(entity.uid) > 0)
    ensures condition.HasSummary? ==> (r <==> entity.summary.Some? && |entity.summary.value| > 0)
    ensures condition.ManualOverride? ==> r
  {
    match condition
    case AgeHours(hours) =>
      HoursCompare(now - entity.capturedAt, hours);
      (now - entity.capturedAt) as real >= hours * MsPerHour as real
    case HasPrimaryEntity => relationshipCount(entity.uid) > 0
    case HasSummary => Truthy(entity.summary)
    case ManualOverride => true
  }

  /** `ageMs / (1000 * 60 * 60)`: the entity's age in hours, as a real number. */
  function AgeInHours(entity: Entity, now: int): real {
    (now - entity.capturedAt) as real / MsPerHour as real
  }

  /** Comparing the age in hours with a threshold of hours is comparing
      milliseconds with that many hours' worth. */
  lemma HoursCompare(ageMs: int, hours: real)
    ensures ageMs as real / MsPerHour as real >= hours <==> ageMs as real >= hours * MsPerHour as real
  {
    var m := MsPerHour as real;
    assert ageMs as real / m * m == ageMs as real;
  }

  /** An age condition, once met, stays met as the clock advances. */
  lemma AgeConditionStaysMet(entity: Entity, hours: real, now: int, later: int, relationshipCount: string -> nat)
    requires now <= later && CheckCondition(entity, AgeHours(hours), now, relationshipCount)
    ensures CheckCondition(entity, AgeHours(hours), later, relationshipCount)
  {
  }

  /** A fractional threshold is honoured: an hour and a half is ninety minutes. */
  lemma FractionalAgeThreshold(entity: Entity, relationshipCount: string -> nat)
    ensures CheckCondition(entity, AgeHours(1.5), entity.capturedAt + 90 * 60 * 1000, relationshipCount)
    ensures !CheckCondition(entity, AgeHours(1.5), entity.capturedAt + 89 * 60 * 1000, relationshipCount)
  {
  }

  /** The first condition, in order, that does not hold. */
  function FirstUnmet(entity: Entity, conditions: seq<Condition>, now: int, relationshipCount: string -> nat)
    : (r: Option<Condition>)
    ensures r.None? <==> forall c :: c in conditions ==> CheckCondition(entity, c, now, relationshipCount)
    ensures r.Some? ==> r.value in conditions && !CheckCondition(entity, r.value, now, relationshipCount)
    decreases |conditions|
  {
    if |conditions| == 0 then None
    else if !CheckCondition(entity, conditions[0], now, relationshipCount) then Some(conditions[0])
    else
      assert forall c :: c in conditions ==> c == conditions[0] || c in conditions[1..];
      FirstUnmet(entity, conditions[1..], now, relationshipCount)
  }

  datatype TransitionError =
    | EntityNotFound
    | NoValidTransition(from: LifecycleState, to: LifecycleState)
    | InvalidTransition
    | ConditionNotMet(condition: Condition)

  datatype CanTransitionResult = CanTransitionResult(canTransition: bool, reason: Option<TransitionError>)

  /** `canTransition(entityId, target)`. */
  function CanTransition(config: StateMachineConfig, entities: map<string, Entity>, entityId: string,
                         target: LifecycleState, now: int, relationshipCount: string -> nat): (r: CanTransitionResult)
    ensures r.canTransition <==> r.reason.None?
    ensures entityId !in entities ==> r.reason == Some(EntityNotFound)
    ensures entityId in entities ==>
              (r.canTransition <==>
                 IsLifecycleEdge(entities[entityId].lifecycleState, target)
                 && var t := FindTransition(BuildTransitions(config), entities[entityId].lifecycleState, target).value;
                    forall c :: c in t.conditions ==> CheckCondition(entities[entityId], c, now, relationshipCount))
    ensures entityId in entities && !IsLifecycleEdge(entities[entityId].lifecycleState, target) ==>
              r.reason == Some(NoValidTransition(entities[entityId].lifecycleState, target))
  {
    if entityId !in entities then CanTransitionResult(false, Some(EntityNotFound))
    else
      var entity := entities[entityId];
      var transition := FindTransition(BuildTransitions(config), entity.lifecycleState, target);
      if transition.None? then
        CanTransitionResult(false, Some(NoValidTransition(entity.lifecycleState, target)))
      else
        match FirstUnmet(entity, transition.value.conditions, now, relationshipCount)
        case Some(c) => CanTransitionResult(false, Some(ConditionNotMet(c)))
        case None => CanTransitionResult(true, None)
  }

  /** A notification sent to a tenant. */
  datatype Notification = Notification(tenantId: string, message: string)

  datatype TransitionResult = TransitionResult(
    entityId: string,
    entityUid: string,
    fromState: LifecycleState,
    toState: LifecycleState,
    success: bool,
    error: Option<TransitionError>,
    actionsExecuted: seq<ActionType>,
    timestamp: int)

  /** A transition's result together with the entity store and the notifications it leaves behind. */
  datatype Outcome = Outcome(result: TransitionResult, entities: map<string, Entity>, sent: seq<Notification>)

  /** `createFailedResult`. */
  function FailedResult(entityId: string, entityUid: string, fromState: LifecycleState, toState: LifecycleState,
                        error: TransitionError, now: int): (r: TransitionResult)
    ensures !r.success && r.error == Some(error) && r.actionsExecuted == []
    ensures r.entityId == entityId && r.fromState == fromState && r.toState == toState
  {
    TransitionResult(entityId, entityUid, fromState, toState, false, Some(error), [], now)
  }

  /** `executeAction` on the record `stored` of the entity first read as `entity`. */
  function ExecuteAction(entity: Entity, stored: Entity, action: Action, now: int, summarize: string -> string)
    : (r: (Entity, seq<Notification>))
    ensures r.0.lifecycleState == stored.lifecycleState
    ensures action.kind == Notify ==> |r.1| == 1 && r.1[0].tenantId == entity.tenantId
    ensures action.kind != Notify ==> r.1 == []
    ensures action.kind == Summarize && !Truthy(entity.summary) && Truthy(entity.content) ==>
              r.0.summary == Some(summarize(entity.content.value))
    ensures r.0.summary != stored.summary ==> action.kind == Summarize
    ensures r.0.filedAt != stored.filedAt ==> action.kind == UpdateMetadata && r.0.filedAt == Some(now)
  {
    match action.kind
    case Summarize =>
      if !Truthy(entity.summary) && Truthy(entity.content) then
        (stored.(summary := Some(summarize(entity.content.value))), [])
      else (stored, [])
    case Notify =>
      var message := if Truthy(action.message) then action.message.value else "Lifecycle transition occurred";
      (stored, [Notification(entity.tenantId, message)])
    case File => (stored, [])
    case UpdateMetadata =>
      if action.filedAtNow then (stored.(filedAt := Some(now)), []) else (stored, [])
  }

  /** Runs `actions` in order, collecting the executed action types and the notifications. */
  function ExecuteActions(entity: Entity, stored: Entity, actions: seq<Action>, now: int, summarize: string -> string)
    : (r: (Entity, seq<ActionType>, seq<Notification>))
    ensures |r.1| == |actions|
    ensures forall i :: 0 <= i < |actions| ==> r.1[i] == actions[i].kind
    ensures r.0.lifecycleState == stored.lifecycleState
    ensures r.0.uid == stored.uid && r.0.capturedAt == stored.capturedAt
    decreases |actions|
  {
    if |actions| == 0 then (stored, [], [])
    else
      var (e1, sent1) := ExecuteAction(entity, stored, actions[0], now, summarize);
      var (e2, kinds, sent2) := ExecuteActions(entity, e1, actions[1..], now, summarize);
      (e2, [actions[0].kind] + kinds, sent1 + sent2)
  }

  /** `transition(entityId, target, {force})` at clock `now`. Exceptions from the
      entity service, the summarizer and the notifier are not modelled. */
  function DoTransition(config: StateMachineConfig, entities: map<string, Entity>, entityId: string,
                        target: LifecycleState, force: bool, now: int,
                        relationshipCount: string -> nat, summarize: string -> string): (r: Outcome)
    ensures !r.result.success ==> r.entities == entities && r.sent == [] && r.result.actionsExecuted == []
    ensures entityId !in entities ==> !r.result.success && r.result.error == Some(EntityNotFound)
    ensures r.result.success <==> entityId in entities && r.result.error.None?
    ensures r.result.success ==>
              && r.entities.Keys == entities.Keys
              && (forall u :: u in entities && u != entityId ==> r.entities[u] == entities[u])
              && r.entities[entityId].lifecycleState == target
              && r.result.fromState == entities[entityId].lifecycleState
              && r.result.toState == target
    ensures r.result.success && target == Permanent ==> r.entities[entityId].filedAt == Some(now)
    ensures entityId in entities && !force && !IsLifecycleEdge(entities[entityId].lifecycleState, target) ==>
              !r.result.success && r.result.error == Some(InvalidTransition)
    ensures force && entityId in entities ==> r.result.success
  {
    if entityId !in entities then
      Outcome(FailedResult(entityId, "", Captured, target, EntityNotFound, now), entities, [])
    else
      var entity := entities[entityId];
      var fromState := entity.lifecycleState;
      var transition := FindTransition(BuildTransitions(config), fromState, target);
      if transition.None? && !force then
        Outcome(FailedResult(entityId, entity.uid, fromState, target, InvalidTransition, now), entities, [])
      else
        var unmet := if !force && transition.Some?
                     then FirstUnmet(entity, transition.value.conditions, now, relationshipCount)
                     else None;
        if unmet.Some? then
          Outcome(FailedResult(entityId, entity.uid, fromState, target, ConditionNotMet(unmet.value), now), entities, [])
        else
          var actions := if transition.Some? then transition.value.actions else [];
          var (acted, executed, sent) := ExecuteActions(entity, entity, actions, now, summarize);
          var updated := acted.(lifecycleState := target,
                                filedAt := if target == Permanent then Some(now) else acted.filedAt);
          Outcome(TransitionResult(entityId, entity.uid, fromState, target, true, None, executed, now),
                  entities[entityId := updated], sent)
  }

  /** Without `force`, a transition succeeds exactly when `canTransition` says it can. */
  lemma TransitionAgreesWithCanTransition(config: StateMachineConfig, entities: map<string, Entity>, entityId: string,
                                          target: LifecycleState, now: int,
                                          relationshipCount: string -> nat, summarize: string -> string)
    ensures DoTransition(config, entities, entityId, target, false, now, relationshipCount, summarize).result.success
            <==> CanTransition(config, entities, entityId, target, now, relationshipCount).canTransition
  {
  }

  /** Moving a captured note on: the summarize and notify actions run, in that
      order, and the tenant hears that the note is ready for filing. */
  lemma CapturedToTransitionalRunsActions(config: StateMachineConfig, entities: map<string, Entity>, entityId: string,
                                          now: int, relationshipCount: string -> nat, summarize: string -> string)
    requires entityId in entities && entities[entityId].lifecycleState == Captured
    requires (now - entities[entityId].capturedAt) as real >= TransitionAgeHours(config) * MsPerHour as real
    ensures var r := DoTransition(config, entities, entityId, Transitional, false, now, relationshipCount, summarize);
            r.result.success && r.result.actionsExecuted == [Summarize, Notify]
            && r.sent == [Notification(entities[entityId].tenantId, "Note ready for filing")]
  {
    var t := BuildTransitions(config)[0];
    assert FindTransition(BuildTransitions(config), Captured, Transitional) == Some(t);
    assert FirstUnmet(entities[entityId], t.conditions, now, relationshipCount) == None;
  }

  /** `getNextState`: the automatic successor along captured, transitional, permanent. */
  function GetNextState(current: LifecycleState): (r: Option<LifecycleState>)
    ensures r.Some? <==> current == Captured || current == Transitional
    ensures r.Some? ==> IsLifecycleEdge(current, r.value) && r.value != Archived
  {
    var stateOrder := [Captured, Transitional, Permanent];
    var currentIndex := if current == Captured then 0 else if current == Transitional then 1
                        else if current == Permanent then 2 else -1;
    if currentIndex == -1 || currentIndex >= |stateOrder| - 1 then None
    else Some(stateOrder[currentIndex + 1])
  }

  /** `isTerminalState`: no automatic transition leaves the state. */
  function IsTerminalState(state: LifecycleState): (r: bool)
    ensures r <==> GetNextState(state).None?
    ensures r <==> state == Permanent || state == Archived
  {
    state == Permanent || state == Archived
  }
}
