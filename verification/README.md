# Second Brain Foundation — a Dafny model of its core

Second Brain Foundation keeps a personal knowledge base of entities (notes,
tasks, people, projects) in Markdown files with YAML headers. It syncs them
with a server, classifies them by sensitivity and runs them through a
lifecycle. Language-model services summarise, extract and organise the
entities, under a token budget and a rate limit.

This project models the pure decision logic of sixteen of its TypeScript and
Python files as Dafny functions, methods and lemmas:

- **Authorization and privacy.** Role policies per tenant type. The default
  permission table for each sensitivity level. Per-operation and bulk
  permission checks. Inheritance of a parent's sensitivity and its
  propagation to children.
- **Entity lifecycle.** The state machine of an entity (capture, transitional,
  permanent, archived) and the scheduler that runs lifecycle jobs.
- **Language-model plumbing.**
  - Token estimation and usage statistics.
  - The context builder that packs prioritised items into a token budget.
  - The sliding-window rate limiter.
  - The parsers that turn a model's JSON answer into an entity graph or a
    mind map.
- **Notes on disk.**
  - The Markdown front-matter parser.
  - The sync planner that decides what to upload, download or report as a
    conflict.
  - The organisation queue of suggestions awaiting approval.
  - The daily-planning workflow for personal tasks.
- **Mind-map utilities.** Visibility, descendants and cycle detection on the
  browser's mind-map graph.
- **Schema migrations.** Registration, ordering, application, rollback and
  checksum verification.

Everything the code obtains from outside becomes a parameter of the model:
databases, the YAML and JSON libraries, clocks, random ids, dates, cron
expressions and model calls. Each module corresponds to one source file.
Shared helpers live in `Common` (`Option`, `Result`, filtering, decimal
rendering, trimming) and `Sorting` (an insertion sort by key).

## Model

| member | source | states |
|---|---|---|
| PrivacyLevels.Rank | packages/@sbf/privacy-engine/tests/constants.test.ts:110-137 | The hierarchy public < personal < confidential < secret has four positions, numbered from 0 |
| PrivacyLevels.RankInjective | packages/@sbf/privacy-engine/tests/constants.test.ts:110-119 | Two levels have the same position exactly when they are the same level, so the hierarchy is a total order |
| PrivacyLevels.MostRestrictive | packages/@sbf/privacy-engine/tests/constants.test.ts:156-166 | The result is one of the two arguments, and it is at least as restrictive as either |
| PrivacyLevels.RestrictionNeverGrants | packages/@sbf/privacy-engine/tests/constants.test.ts:27-107 | The default table is monotone: a permission refused at some level is refused at every more restrictive level |
| PrivacyLevels.AiAccessByLevel | packages/@sbf/privacy-engine/tests/constants.test.ts:30-99 | Local AI is allowed at every level except secret; cloud AI is allowed at the public level only |
| PermissionChecker.CheckPermission | packages/@sbf/privacy-engine/src/services/PermissionChecker.ts:40-53 | The verdict is the table's entry for the level and permission; a refusal carries a reason and a grant carries none; the effective permissions are the level's row |
| PermissionChecker.RefusalsHaveSpecificReasons | packages/@sbf/privacy-engine/src/services/PermissionChecker.ts:208-253 | With the default table, every refusal gets one of the specific messages, never the generic fallback; an export, share, sync or index refusal names that operation |
| PermissionChecker.CanAccessAi | packages/@sbf/privacy-engine/src/services/PermissionChecker.ts:58-79 | Cloud AI is granted exactly for public content; local AI is granted exactly for content that is not secret |
| PermissionChecker.CanExport | packages/@sbf/privacy-engine/src/services/PermissionChecker.ts:84-86 | Export is granted exactly for public and personal content |
| PermissionChecker.CanShare | packages/@sbf/privacy-engine/src/services/PermissionChecker.ts:91-93 | Sharing is granted exactly for public content |
| PermissionChecker.CanSync | packages/@sbf/privacy-engine/src/services/PermissionChecker.ts:98-100 | Sync is granted exactly for public and personal content |
| PermissionChecker.CanIndex | packages/@sbf/privacy-engine/src/services/PermissionChecker.ts:105-107 | Indexing is granted exactly for content that is not secret |
| PermissionChecker.CheckBulkRequest | packages/@sbf/privacy-engine/src/services/PermissionChecker.ts:113-175 | The shared loop of the export and share checks: every entity lands in exactly one of the allowed and blocked lists, in input order, and the request can proceed exactly when some entity is permitted |
| PermissionChecker.CheckExportRequest | packages/@sbf/privacy-engine/src/services/PermissionChecker.ts:113-141 | An export request can proceed exactly when some entity is public or personal |
| PermissionChecker.CheckShareRequest | packages/@sbf/privacy-engine/src/services/PermissionChecker.ts:147-175 | A share request can proceed exactly when some entity is public |
| PermissionChecker.BulkPartition | packages/@sbf/privacy-engine/src/services/PermissionChecker.ts:124-134 | The allowed and blocked lists together are as long as the input; each blocked entry comes from a refused entity and carries that entity's reason; each allowed uid comes from a permitted entity |
| PermissionChecker.IsDowngrade | packages/@sbf/privacy-engine/src/services/PermissionChecker.ts:188-203 | Moving from one level to another is a downgrade exactly when the first level is more restrictive |
| PermissionChecker.DowngradeIsStrictOrder | packages/@sbf/privacy-engine/src/services/PermissionChecker.ts:188-203 | Downgrading is irreflexive, asymmetric, transitive and total on distinct levels |
| InheritanceResolver.ParentLinks | packages/@sbf/privacy-engine/src/services/InheritanceResolver.ts:79-132 | Keeps exactly the stored relationships that point at the entity and have one of the five parent types |
| InheritanceResolver.ChildLinks | packages/@sbf/privacy-engine/src/services/InheritanceResolver.ts:208-216 | Keeps exactly the stored relationships that leave the entity and have a parent type |
| InheritanceResolver.ParentLevels | packages/@sbf/privacy-engine/src/services/InheritanceResolver.ts:145-158 | Keeps exactly the parents that exist and carry their own level, with that level |
| InheritanceResolver.MostRestrictiveFrom | packages/@sbf/privacy-engine/src/services/InheritanceResolver.ts:171-176 | Picks a parent whose level no other parent exceeds; on ties the earliest such parent wins |
| InheritanceResolver.Resolve | packages/@sbf/privacy-engine/src/services/InheritanceResolver.ts:107-195 | An opt-out with an own level keeps that level. Without parent levels the result is the own level or personal. Otherwise the result is at least as restrictive as every parent and as the own level. It names the parent it came from, and names no parent only when the own level won |
| InheritanceResolver.FromParentLevels | packages/@sbf/privacy-engine/src/services/InheritanceResolver.ts:160-194 | With no parent levels the own level or personal is kept and nothing is inherited; otherwise the result is inherited, at least as restrictive as every parent and the own level, names a parent that carries the result level, and names none only when the result is the own level |
| InheritanceResolver.ResolveIgnoresOtherRelationships | packages/@sbf/privacy-engine/src/services/InheritanceResolver.ts:130-132 | Adding a relationship of a non-parent type never changes the resolved sensitivity |
| InheritanceResolver.Propagate | packages/@sbf/privacy-engine/src/services/InheritanceResolver.ts:201-271 | Recursive propagation terminates, because each update strictly raises some entity's level. It only raises levels. Every entity it changes is a child it reports, now at the new level and never one that opted out. Afterwards every direct child is covered: it opted out, or it is at least as restrictive as the new level |
| InheritanceResolver.PropagateLinks | packages/@sbf/privacy-engine/src/services/InheritanceResolver.ts:218-268 | The loop over the child links establishes the same guarantee for every link it visits |
| InheritanceResolver.PropagateSparesOptOuts | packages/@sbf/privacy-engine/src/services/InheritanceResolver.ts:224-226 | An entity that opted out of inheritance is left exactly as it was |
| InheritanceResolver.RaiseShrinksHeadroom | packages/@sbf/privacy-engine/src/services/InheritanceResolver.ts:230-249 | Raising a child to a strictly more restrictive level removes at least one (entity, level) pair from the finite set of possible raises, which is why the recursion ends |
| InheritanceResolver.FirstParentLink | packages/@sbf/privacy-engine/src/services/InheritanceResolver.ts:309-313 | Finds a link exactly when some parent-type link exists, and then it is the first one in storage order |
| InheritanceResolver.ChainFromBound | packages/@sbf/privacy-engine/src/services/InheritanceResolver.ts:294-326 | The walk adds at most one link per entity not yet visited plus one when the starting uid is not an unvisited entity, because reaching a visited uid stops it |
| InheritanceResolver.ChainFromFresh | packages/@sbf/privacy-engine/src/services/InheritanceResolver.ts:298-302 | The walk never pushes a uid it has already stood on, the start included, except as its last link |
| InheritanceResolver.ChainFromStops | packages/@sbf/privacy-engine/src/services/InheritanceResolver.ts:298-326 | A walk that ends short of the depth limit ends at an entity that was visited before, has no parent-type link, or whose parent is not stored |
| InheritanceResolver.GetInheritanceChain | packages/@sbf/privacy-engine/src/services/InheritanceResolver.ts:277-329 | A depth of zero or less gives no chain; otherwise the chain has at most `maxDepth` links and at most one more than the number of entities. Link i is the first parent of link i-1 (of the entity for i = 0), at depth i+1, with the parent's level or personal. No link but the last repeats the entity or an earlier link, and a chain shorter than `maxDepth` ends where the walk had to stop: a repeated uid, no parent link, or a parent missing from the store |
| InheritanceResolver.GetDefaultInheritanceChain | packages/@sbf/privacy-engine/src/services/InheritanceResolver.ts:277-281 | Without a depth the walk goes at most 10 links deep |
| Authorization.IndexOf | packages/@sbf/core/authz/src/authorization.service.ts:126-127 | Returns -1 exactly when the value is absent, and otherwise its first position |
| Authorization.SensitivityIndexIsRank | packages/@sbf/core/authz/src/authorization.service.ts:62-127 | Looking a level up in the five-level list gives its rank, and -1 for an unknown level |
| Authorization.CanAccessSensitivity | packages/@sbf/core/authz/src/authorization.service.ts:122-134 | Access is granted exactly when both levels are known and the resource's level is at most the ceiling |
| Authorization.IsActionAllowed | packages/@sbf/core/authz/src/authorization.service.ts:110-117 | An action is allowed exactly when some entry of the policy's list covers it, the wildcard covering every action |
| Authorization.ActionsMonotone | packages/@sbf/core/authz/src/authorization.service.ts:110-117 | A policy whose list holds every entry of another allows every action the other allows |
| Authorization.CheckConditions | packages/@sbf/core/authz/src/authorization.service.ts:139-169 | The conditions pass exactly when none of the three enforced refusals applies: changing sensitivity, deleting the subject entity, touching another owner's resource |
| Authorization.RequireMfaIsNotEnforced | packages/@sbf/core/authz/src/authorization.service.ts:162-166 | The multi-factor flag has no effect on the outcome of the condition check |
| Authorization.GetPolicyForRole | packages/@sbf/core/authz/src/authorization.service.ts:174-265 | The policy is the table's entry for the tenant type and role; a pair absent from the table gets no actions, the ceiling "public" and no conditions |
| Authorization.CanPerform | packages/@sbf/core/authz/src/authorization.service.ts:73-105 | Without a resource the decision is exactly the action check. With one, access is granted exactly when the action is allowed, a present label is within the ceiling, and the policy's conditions, if any, pass |
| Authorization.UnlistedRoleIsDenied | packages/@sbf/core/authz/src/authorization.service.ts:260-264 | A role that the tenant type does not list is refused every action on every resource |
| Authorization.TenantOwnerHasFullControl | packages/@sbf/core/authz/src/authorization.service.ts:178-221 | The tenant owner may perform any action in every tenant type, on any resource whose sensitivity is known or absent |
| Authorization.UnknownSensitivityIsDenied | packages/@sbf/core/authz/src/authorization.service.ts:88-131 | A resource whose sensitivity is not one of the five known levels is refused to every role |
| Authorization.LowerSensitivityKeepsAccess | packages/@sbf/core/authz/src/authorization.service.ts:88-134 | Lowering a resource's sensitivity to another known level never revokes a granted permission |
| Authorization.GuardianProtections | packages/@sbf/core/authz/src/authorization.service.ts:146-205 | Guardians and care-team members can never change sensitivity, and never delete the subject entity |
| Authorization.PolicyInclusion | packages/@sbf/core/authz/src/authorization.service.ts:73-105 | A role whose policy allows at least the same actions, with at least the same ceiling and no conditions, is granted everything the other role is granted |
| Authorization.ProfessionalRolesAreNested | packages/@sbf/core/authz/src/authorization.service.ts:217-257 | In a professional tenant, each grant to a guest is also made to a viewer, and so on up the chain viewer, member, manager, organisation admin, tenant owner |
| Authorization.CanManageUsers | packages/@sbf/core/authz/src/authorization.service.ts:286-288 | True exactly when the role's policy lists the wildcard or user management |
| Authorization.CanViewAuditLogs | packages/@sbf/core/authz/src/authorization.service.ts:293-295 | True exactly when the role's policy lists the wildcard or audit-log viewing |
| Authorization.CanManageSettings | packages/@sbf/core/authz/src/authorization.service.ts:300-302 | True exactly when the role's policy lists the wildcard or settings management |
| Authorization.RequirePermission | packages/@sbf/core/authz/src/authorization.service.ts:307-319 | Succeeds exactly when the permission check grants the request; otherwise it fails with a permission-denied error naming the role, action and resource |
| LifecycleStateMachine.TransitionAgeHours | packages/@sbf/lifecycle-engine/src/LifecycleStateMachine.ts:40-43 | The age threshold is the configured number of hours, fractional ones included, or 48 when none is configured |
| LifecycleStateMachine.GetValidTransitions | packages/@sbf/lifecycle-engine/src/LifecycleStateMachine.ts:51-105 | Returns exactly the table's transitions that leave the current state. Each one follows an edge of the lifecycle graph: captured to transitional, transitional to permanent, or any unarchived state to archived |
| LifecycleStateMachine.FindTransition | packages/@sbf/lifecycle-engine/src/LifecycleStateMachine.ts:133-174 | Finds a listed transition with the given ends, or reports that none is listed |
| LifecycleStateMachine.HasTransition | packages/@sbf/lifecycle-engine/src/LifecycleStateMachine.ts:117-119 | True exactly for the five edges of the lifecycle graph |
| LifecycleStateMachine.ArchivedIsFinal | packages/@sbf/lifecycle-engine/src/LifecycleStateMachine.ts:76-105 | No transition leaves the archived state, and every other state has a manual transition to it |
| LifecycleStateMachine.CheckCondition | packages/@sbf/lifecycle-engine/src/LifecycleStateMachine.ts:242-268 | An age condition holds exactly when the age in milliseconds divided by an hour's milliseconds, as a real number, reaches the hours asked; a primary-entity condition when the entity has a relationship; a summary condition when the summary is present and non-empty; a manual override always |
| LifecycleStateMachine.AgeConditionStaysMet | packages/@sbf/lifecycle-engine/src/LifecycleStateMachine.ts:246-250 | An age condition met at one instant stays met at every later instant |
| LifecycleStateMachine.FractionalAgeThreshold | packages/@sbf/lifecycle-engine/src/LifecycleStateMachine.ts:246-250 | A threshold of 1.5 hours is met exactly from ninety minutes on: met at 90 minutes, not at 89 |
| LifecycleStateMachine.FirstUnmet | packages/@sbf/lifecycle-engine/src/LifecycleStateMachine.ts:145-153 | Finds no condition exactly when every condition holds; otherwise it finds a listed condition that fails |
| LifecycleStateMachine.CanTransition | packages/@sbf/lifecycle-engine/src/LifecycleStateMachine.ts:124-156 | A reason is given exactly when the answer is no. A missing entity is refused as not found. Otherwise the answer is yes exactly when the move follows a lifecycle edge and all its conditions hold, and a move off the graph is refused with its two states |
| LifecycleStateMachine.FailedResult | packages/@sbf/lifecycle-engine/src/LifecycleStateMachine.ts:311-328 | A failed result has the given error, the given states and no executed actions |
| LifecycleStateMachine.ExecuteAction | packages/@sbf/lifecycle-engine/src/LifecycleStateMachine.ts:274-306 | No action changes the lifecycle state. A notify action sends exactly one notification to the entity's tenant, and no other action sends any. Summarising fills an empty summary when there is content. Only summarising changes the summary, and only metadata updating sets the filing time, to now |
| LifecycleStateMachine.ExecuteActions | packages/@sbf/lifecycle-engine/src/LifecycleStateMachine.ts:196-203 | The executed list is the actions' types in order; the entity keeps its state, uid and capture time |
| LifecycleStateMachine.DoTransition | packages/@sbf/lifecycle-engine/src/LifecycleStateMachine.ts:161-237 | A failure changes nothing and runs no action. A missing entity fails as not found. An unforced move off the graph fails as invalid, and a forced move on an existing entity succeeds. Success moves exactly that entity to the target state, and a move to permanent sets its filing time |
| LifecycleStateMachine.TransitionAgreesWithCanTransition | packages/@sbf/lifecycle-engine/src/LifecycleStateMachine.ts:124-194 | An unforced transition succeeds exactly when the can-transition check answers yes |
| LifecycleStateMachine.CapturedToTransitionalRunsActions | packages/@sbf/lifecycle-engine/src/LifecycleStateMachine.ts:54-63 | A captured entity old enough moves to transitional, runs summarise then notify, and sends one "Note ready for filing" notification to its tenant |
| LifecycleStateMachine.GetNextState | packages/@sbf/lifecycle-engine/src/LifecycleStateMachine.ts:333-346 | A next state exists exactly for captured and transitional, and it is their forward, unarchived edge |
| LifecycleStateMachine.IsTerminalState | packages/@sbf/lifecycle-engine/src/LifecycleStateMachine.ts:351-353 | A state is terminal exactly when it is permanent or archived, which is exactly when it has no next state |
| TokenTracker.WordsCoverText | packages/ai-client/src/TokenTracker.ts:131 | Splitting on white space loses nothing but the white space: the words, concatenated, are the text's non-space characters in order |
| TokenTracker.WordsAreWords | packages/ai-client/src/TokenTracker.ts:131 | Every word the split yields is non-empty and holds no white space |
| TokenTracker.CountWords | packages/ai-client/src/TokenTracker.ts:131-132 | The loop counts exactly the words of the split |
| TokenTracker.EstimateTokenCount | packages/ai-client/src/TokenTracker.ts:123-140 | The estimate is 0 exactly for the empty text. Otherwise it is the rounded-up mean of a quarter of the UTF-16 code units and 1.3 tokens per word, each rounded up. It is at least an eighth of the code-unit length and at least 0.65 tokens per word |
| TokenTracker.EstimateTokens | packages/ai-client/src/TokenTracker.ts:281-283 | The tracker's estimate is the module-level estimate |
| TokenTracker.EstimateBounds | packages/ai-client/src/TokenTracker.ts:123-140 | The estimate lies between an eighth of the code-unit length and that length plus one |
| TokenTracker.BeforeColon | packages/ai-client/src/TokenTracker.ts:150-167 | The first piece of a split on ':' is the longest colon-free prefix of the name |
| TokenTracker.GetContextWindow | packages/ai-client/src/TokenTracker.ts:166-169 | A listed model gets its window. Otherwise the part before the first colon is looked up. A name unknown both ways gets 4096 |
| TokenTracker.ContextWindowAtLeastDefault | packages/ai-client/src/TokenTracker.ts:27-54 | Every model's context window is at least the 4096-token default |
| TokenTracker.TaggedModelWindow | packages/ai-client/src/TokenTracker.ts:167 | A listed model with a ':tag' suffix (as local model servers name them) gets the untagged model's window |
| TokenTracker.FitsInContext | packages/ai-client/src/TokenTracker.ts:296-300 | Text fits exactly when its estimate plus the reserve stays within the model's window |
| TokenTracker.FittingTextIsShort | packages/ai-client/src/TokenTracker.ts:296-300 | Text that fits is at most eight characters per token of the window left after the reserve, and it still fits with a smaller reserve |
| TokenTracker.GetByPeriod | packages/ai-client/src/TokenTracker.ts:190-196 | Keeps exactly the records timestamped within the closed period, and of the tenant when a tenant is given |
| TokenTracker.Totals | packages/ai-client/src/TokenTracker.ts:206-209 | The totals count one call per record |
| TokenTracker.AddToModelStep | packages/ai-client/src/TokenTracker.ts:211-222 | Adding one record to the per-model table keeps it equal to the per-model totals of the records seen so far |
| TokenTracker.GetStats | packages/ai-client/src/TokenTracker.ts:198-235 | The statistics are the sums over the records in the period. The per-model table has exactly one entry per model that occurs, holding that model's sums. The total is input plus output, and the call count is the number of records |
| TokenTracker.Record | packages/ai-client/src/TokenTracker.ts:257-276 | The stored record is appended to the storage. Its total is input plus output, its cost is the pricing function's, and its tenant is the call's tenant when given, else the tracker's |
| TokenTracker.RecordedUsageIsReported | packages/ai-client/src/TokenTracker.ts:257-276 | After recording, a period query returns what it returned before, followed by the new record exactly when that record falls in the period |
| ContextBuilder.ResolveConfig | packages/ai-client/src/ContextBuilder.ts:109-120 | The output reserve defaults to 1000. Without an explicit budget, the budget is the model's context window minus the reserve |
| ContextBuilder.NewBuilder | packages/ai-client/src/ContextBuilder.ts:105-120 | A new builder holds no items and the resolved configuration |
| ContextBuilder.Add | packages/ai-client/src/ContextBuilder.ts:125-133 | Appends the item and keeps every earlier one. A missing token count is filled with the estimate of the content, and a given count is kept. The item counts for the same tokens before and after |
| ContextBuilder.AddAll | packages/ai-client/src/ContextBuilder.ts:138-143 | Appends every item in order and keeps the earlier ones; each keeps its token weight |
| ContextBuilder.Clear | packages/ai-client/src/ContextBuilder.ts:225-228 | Leaves no items and the same configuration |
| ContextBuilder.BuildOrderIsPreorder | packages/ai-client/src/ContextBuilder.ts:235-241 | The comparator of the build sort (priority ascending, then relevance descending) is a total preorder, so the sort is well defined |
| ContextBuilder.SortForBuild | packages/ai-client/src/ContextBuilder.ts:235-241 | The sorted items are a permutation of the items, in comparator order |
| ContextBuilder.Select | packages/ai-client/src/ContextBuilder.ts:243-261 | Every item is either included or excluded, as a multiset. The total counts exactly the included items. An excluded item is never critical and would overrun the budget at the end |
| ContextBuilder.SelectStep | packages/ai-client/src/ContextBuilder.ts:248-261 | Selecting from a sequence followed by one more item is selecting from the sequence and then deciding that item: taken with its tokens added when the running total plus its tokens is within budget or it is critical, and left out otherwise |
| ContextBuilder.CriticalItemsIncluded | packages/ai-client/src/ContextBuilder.ts:254-257 | A critical item is always included, whatever the budget |
| ContextBuilder.SelectAllFits | packages/ai-client/src/ContextBuilder.ts:251-253 | When everything fits, everything is included, in order, and nothing is excluded |
| ContextBuilder.SelectStaysWithinBudget | packages/ai-client/src/ContextBuilder.ts:251-260 | Without critical items, a selection that starts within budget ends within budget |
| ContextBuilder.SelectKeepsOrder | packages/ai-client/src/ContextBuilder.ts:248-253 | The included items keep the sorted order |
| ContextBuilder.SelectWithinBudget | packages/ai-client/src/ContextBuilder.ts:248-261 | With critical items first, the build ends within budget exactly when the critical items alone fit |
| ContextBuilder.SortedIsCriticalFirst | packages/ai-client/src/ContextBuilder.ts:235-241 | After the sort, no critical item follows a non-critical one |
| ContextBuilder.MessagesWithRole | packages/ai-client/src/ContextBuilder.ts:293-298 | One message per item, in the items' order, each with the given role and the item's content |
| ContextBuilder.HistoryMessages | packages/ai-client/src/ContextBuilder.ts:321-328 | One message per history item, in order, each with the item's own role and content |
| ContextBuilder.OtherMessages | packages/ai-client/src/ContextBuilder.ts:331-336 | One message per item of another type, in order, with the item's role when it is non-empty and "user" otherwise |
| ContextBuilder.ByRelevance | packages/ai-client/src/ContextBuilder.ts:302-303 | The documents reordered (a permutation) so that relevance never increases along the sequence |
| ContextBuilder.HistoryInOrder | packages/ai-client/src/ContextBuilder.ts:318-328 | Holds exactly the history items that have a non-empty role, with relevance never decreasing along the sequence |
| ContextBuilder.Layout | packages/ai-client/src/ContextBuilder.ts:292-346 | The message count is the sum of the blocks. Position by position: system messages, then the documents message when there are documents, then one message per history item with its role, then other items with their role or "user", and the user messages last |
| ContextBuilder.DocumentsMessage | packages/ai-client/src/ContextBuilder.ts:301-315 | A system message: "Relevant context:", a blank line, the document contents most relevant first joined by the separator, then the truncation note. It ends with the marker when the build was truncated and the marker is enabled |
| ContextBuilder.BuildMessages | packages/ai-client/src/ContextBuilder.ts:280-347 | The messages are laid out from the system, document, history, other and user items, each block taken from the included items by type in their order; the history block is the items with a role, least relevant first |
| ContextBuilder.BuildSelection | packages/ai-client/src/ContextBuilder.ts:235-261 | The selection over the sorted items partitions the builder's items, and its total counts exactly the included ones. Each excluded item is non-critical and does not fit |
| ContextBuilder.BuildDecidesInOrder | packages/ai-client/src/ContextBuilder.ts:243-261 | The build decides the sorted items one at a time: the selection after item k is the selection after the first k items with item k decided against the running total, and the build's selection is the one after all items |
| ContextBuilder.Build | packages/ai-client/src/ContextBuilder.ts:233-275 | Included and excluded partition the items, and the total counts exactly the included ones. Each excluded item is non-critical and does not fit. The result is truncated exactly when something is excluded. The remaining budget is the budget minus the total, floored at 0, and the messages are built from the included items |
| ContextBuilder.BuildKeepsCriticalInOrder | packages/ai-client/src/ContextBuilder.ts:235-261 | Every critical item is included, and the included items are in comparator order |
| ContextBuilder.BuildWithinBudget | packages/ai-client/src/ContextBuilder.ts:248-261 | The build stays within budget exactly when the critical items alone fit in it |
| ContextBuilder.EstimateTotalTokens | packages/ai-client/src/ContextBuilder.ts:352-357 | The estimate is the sum of the items' token counts, and is at least the critical items' share |
| ContextBuilder.FitsWithinBudget | packages/ai-client/src/ContextBuilder.ts:362-364 | True exactly when the estimate is within the budget |
| ContextBuilder.GetRemainingBudget | packages/ai-client/src/ContextBuilder.ts:369-371 | Never negative; it is the budget minus the estimate, or 0 when that is negative |
| ContextBuilder.FittingBuildKeepsEverything | packages/ai-client/src/ContextBuilder.ts:352-371 | When the items fit, a build excludes nothing and is not truncated. It includes every item, its total is the estimate, and its remaining tokens are the remaining budget |
| ContextBuilder.GetItemsByPriority | packages/ai-client/src/ContextBuilder.ts:376-378 | Returns exactly the items of that priority |
| ContextBuilder.RemoveByType | packages/ai-client/src/ContextBuilder.ts:383-386 | Keeps exactly the items not of that type, in order, and the configuration |
| ContextBuilder.RemoveById | packages/ai-client/src/ContextBuilder.ts:391-394 | Keeps exactly the items with another id, in order, and the configuration; never lengthens the list |
| ContextBuilder.RemoveByIdIdempotent | packages/ai-client/src/ContextBuilder.ts:391-394 | Removing an id twice equals removing it once, and removing an absent id changes nothing |
| ContextBuilder.Clone | packages/ai-client/src/ContextBuilder.ts:399-403 | The clone has the same configuration and items |
| ContextBuilder.CloneIsIndependent | packages/ai-client/src/ContextBuilder.ts:399-403 | Adding to a clone leaves the original's items as a prefix and adds exactly one item |
| MigrationManager.ToInt32 | packages/@sbf/db-migrations/src/MigrationManager.ts:39-40 | The result is a signed 32-bit integer congruent to the input modulo 2^32, as JavaScript's shift and bitwise and produce |
| MigrationManager.HashStepAgrees | packages/@sbf/db-migrations/src/MigrationManager.ts:37-41 | One loop step, `(hash << 5) - hash + char` in 32 bits, equals the step of the reference hash `31 * hash + char` reduced to 32 bits |
| MigrationManager.HexStringRoundTrip | packages/@sbf/db-migrations/src/MigrationManager.ts:42 | Reading back the hexadecimal rendering of a number gives the number |
| MigrationManager.Checksum | packages/@sbf/db-migrations/src/MigrationManager.ts:34-43 | The checksum is a non-empty string of lower-case hexadecimal digits; it renders the 32-bit hash of the text's UTF-16 code units |
| MigrationManager.GenerateChecksum | packages/@sbf/db-migrations/src/MigrationManager.ts:34-43 | The loop over the UTF-16 code units of the checksum text computes the reference checksum, whose value is at most 2^31 |
| MigrationManager.ParseInt | packages/@sbf/db-migrations/src/MigrationManager.ts:51-52 | Parsing fails exactly when, after leading white space and an optional sign, no decimal digit follows |
| MigrationManager.ParseIntOfRendering | packages/@sbf/db-migrations/src/MigrationManager.ts:51-52 | Parsing the decimal rendering of a number gives the number |
| MigrationManager.SortMigrations | packages/@sbf/db-migrations/src/MigrationManager.ts:48-59 | The sorted list is a permutation of the migrations |
| MigrationManager.SortMigrationsNumeric | packages/@sbf/db-migrations/src/MigrationManager.ts:51-55 | When every version parses as an integer, the migrations are ordered by numeric version |
| MigrationManager.SortMigrationsByString | packages/@sbf/db-migrations/src/MigrationManager.ts:57 | When no version parses as an integer, the migrations are ordered by version string |
| MigrationManager.Register | packages/@sbf/db-migrations/src/MigrationManager.ts:82-91 | Registration fails exactly when the version is already registered; otherwise it appends the migration and keeps versions distinct |
| MigrationManager.RegisterAll | packages/@sbf/db-migrations/src/MigrationManager.ts:96-100 | Registers a prefix of the list and stops at the first duplicate. Without error every migration is appended. Versions stay distinct |
| MigrationManager.RegisterAllFresh | packages/@sbf/db-migrations/src/MigrationManager.ts:96-100 | A list of distinct, unregistered versions registers without error |
| MigrationManager.GetMigrations | packages/@sbf/db-migrations/src/MigrationManager.ts:105-107 | Returns the registered migrations, reordered |
| MigrationManager.GetAppliedMigrations | packages/@sbf/db-migrations/src/MigrationManager.ts:171-191 | Returns the table's rows in ascending string order of version |
| MigrationManager.Pending | packages/@sbf/db-migrations/src/MigrationManager.ts:141-144 | Exactly the registered migrations with no row in the table |
| MigrationManager.CurrentVersion | packages/@sbf/db-migrations/src/MigrationManager.ts:152-157 | No current version exactly when no row is an applied (up) row; otherwise the greatest applied version in string order |
| MigrationManager.GetStatus | packages/@sbf/db-migrations/src/MigrationManager.ts:137-166 | Pending are the registered migrations without a row, applied the up rows in string order, failed the down rows. The table is up to date exactly when every registered migration has a row |
| MigrationManager.RunSingle | packages/@sbf/db-migrations/src/MigrationManager.ts:283-357 | A dry run succeeds and changes nothing, and a failure changes nothing. A successful up appends one row with the migration's checksum. A successful down deletes the migration's rows and nothing else |
| MigrationManager.RunInOrder | packages/@sbf/db-migrations/src/MigrationManager.ts:376-387 | The results follow the order of the list. Every result but the last is a success, and the loop stops early only after a failure |
| MigrationManager.BatchOrder | packages/@sbf/db-migrations/src/MigrationManager.ts:372-374 | Up runs in sorted order, down in the reverse of the sorted order |
| MigrationManager.RunMigrations | packages/@sbf/db-migrations/src/MigrationManager.ts:362-396 | At most one migration fails and the counts add up. The batch succeeds exactly when nothing failed, and then every migration ran and succeeded. The results follow the batch order |
| MigrationManager.RunInOrderUpRecords | packages/@sbf/db-migrations/src/MigrationManager.ts:304-320 | Up runs never remove rows, and a fully successful run leaves every migration of the batch applied |
| MigrationManager.UpAll | packages/@sbf/db-migrations/src/MigrationManager.ts:196-199 | Applies only migrations that were not already in the table, all in the up direction |
| MigrationManager.UpReachesUpToDate | packages/@sbf/db-migrations/src/MigrationManager.ts:137-199 | After a successful up, the status reports the table as up to date |
| MigrationManager.UpTo | packages/@sbf/db-migrations/src/MigrationManager.ts:204-208 | Applies only pending migrations whose version is at most the target in string order |
| MigrationManager.MigrationsOf | packages/@sbf/db-migrations/src/MigrationManager.ts:244-275 | Looks up every row's migration, failing exactly when some row's version is not registered |
| MigrationManager.Rollback | packages/@sbf/db-migrations/src/MigrationManager.ts:213-231 | Nothing to roll back exactly when no row is applied. It fails exactly when the current version is not registered. Otherwise it rolls back the current version, the greatest in string order |
| MigrationManager.RollbackCandidates | packages/@sbf/db-migrations/src/MigrationManager.ts:240-242 | Exactly the applied rows whose version is greater than the target in string order |
| MigrationManager.DownTo | packages/@sbf/db-migrations/src/MigrationManager.ts:236-257 | Fails exactly when some applied row above the target is not registered. Otherwise it rolls back, downwards, only migrations above the target |
| MigrationManager.Reset | packages/@sbf/db-migrations/src/MigrationManager.ts:262-278 | Fails exactly when some applied row is not registered; otherwise every result is a roll-back |
| MigrationManager.IntegrityIssues | packages/@sbf/db-migrations/src/MigrationManager.ts:445-462 | At most one issue per row, and none exactly when every row is registered and its stored checksum, if any, matches the current one |
| MigrationManager.VerifyIntegrity | packages/@sbf/db-migrations/src/MigrationManager.ts:441-468 | Valid exactly when there are no issues, which is exactly when every row is intact |
| MigrationManager.NineAndTen | packages/@sbf/db-migrations/src/MigrationManager.ts:51-57 | Version "9" is below "10" as a number but above it as a string |
| MigrationManager.UpOrderNineTen | packages/@sbf/db-migrations/src/MigrationManager.ts:48-59 | Up applies "9" before "10" |
| MigrationManager.CurrentVersionNineTen | packages/@sbf/db-migrations/src/MigrationManager.ts:152-181 | With rows for "9" and "10", the status names "9" as the current version |
| MigrationManager.RollbackUndoesWrongMigration | packages/@sbf/db-migrations/src/MigrationManager.ts:213-231 | As written: after up applied "9" then "10", down rolls back "9", not the last migration applied |
| MigrationManager.NewestApplied | packages/@sbf/db-migrations/src/MigrationManager.ts:213-231 | Corrected: the newest applied row is the last one in the order up applies migrations, and it exists exactly when some row is applied |
| MigrationManager.NewestAppliedIsNumericMax | packages/@sbf/db-migrations/src/MigrationManager.ts:213-231 | With numeric versions, the newest applied row has the greatest version number |
| MigrationManager.RollbackNewest | packages/@sbf/db-migrations/src/MigrationManager.ts:213-231 | Corrected down: nothing to roll back exactly when nothing is applied, and otherwise it rolls back the newest applied migration |
| MigrationManager.RollbackNewestUndoesLastMigration | packages/@sbf/db-migrations/src/MigrationManager.ts:213-231 | Corrected: after "9" then "10", down rolls back "10" |
| OrganizationQueue.ResolveConfig | Extraction-01/03-integration/sbf-app/packages/core/src/watcher/organization-queue.ts:73-82 | Auto-approval defaults to off, the auto-approved actions to metadata updates, the size limit to 1000 and the batch size to 10. A given value is kept even when it is 0 or false |
| OrganizationQueue.IdNumberOfIdFor | Extraction-01/03-integration/sbf-app/packages/core/src/watcher/organization-queue.ts:98 | An id has the form `queue-<n>`, and the number can be read back from it, so distinct counter values give distinct ids |
| OrganizationQueue.ValidIdsDistinct | Extraction-01/03-integration/sbf-app/packages/core/src/watcher/organization-queue.ts:69-98 | In a queue that keeps its invariant, no two items share an id |
| OrganizationQueue.NewQueue | Extraction-01/03-integration/sbf-app/packages/core/src/watcher/organization-queue.ts:68-82 | A new queue is empty and keeps the invariant |
| OrganizationQueue.Add | Extraction-01/03-integration/sbf-app/packages/core/src/watcher/organization-queue.ts:87-123 | Refused exactly when the queue is full. Otherwise it appends one item with a fresh id, the given path, action and time. The item is approved when the action is auto-approved, pending otherwise. The invariant is kept |
| OrganizationQueue.IndexOf | Extraction-01/03-integration/sbf-app/packages/core/src/watcher/organization-queue.ts:129-149 | Finds the position of the item with that id, or reports that there is none |
| OrganizationQueue.Get | Extraction-01/03-integration/sbf-app/packages/core/src/watcher/organization-queue.ts:236-238 | Returns the item with that id, or nothing exactly when no item has it |
| OrganizationQueue.Approve | Extraction-01/03-integration/sbf-app/packages/core/src/watcher/organization-queue.ts:128-143 | An unknown id yields nothing. An item that is not pending is refused with an error. Otherwise exactly that item becomes approved and every other item is unchanged |
| OrganizationQueue.Reject | Extraction-01/03-integration/sbf-app/packages/core/src/watcher/organization-queue.ts:148-165 | An unknown id yields nothing, and an item that is not pending is refused. Otherwise exactly that item becomes rejected, recording the reason when one is given and keeping its old error otherwise |
| OrganizationQueue.DecideOne | Extraction-01/03-integration/sbf-app/packages/core/src/watcher/organization-queue.ts:128-165 | One `approve` or `reject`: nothing for an unknown id, an error for an item that is not pending, otherwise that item in its decided form with every other item unchanged |
| OrganizationQueue.DecideAll | Extraction-01/03-integration/sbf-app/packages/core/src/watcher/organization-queue.ts:170-183 | Approving or rejecting several ids returns only decided items named in the list, with the requested status, at most one per id. It never adds or drops items, and it keeps the invariant |
| OrganizationQueue.DecideAllEffect | Extraction-01/03-integration/sbf-app/packages/core/src/watcher/organization-queue.ts:170-183 | Every item whose id is not in the list, and every item that was not pending, is unchanged; the others are unchanged or in their decided form. When no error stops the batch, every named item was pending and is now decided |
| OrganizationQueue.Mark | Extraction-01/03-integration/sbf-app/packages/core/src/watcher/organization-queue.ts:188-231 | An unknown id yields nothing. Otherwise only that item changes, to the new status. Completion and failure stamp the time, and failure records the error |
| OrganizationQueue.GetByStatus | Extraction-01/03-integration/sbf-app/packages/core/src/watcher/organization-queue.ts:243-259 | Exactly the items with that status |
| OrganizationQueue.SliceEnd | Extraction-01/03-integration/sbf-app/packages/core/src/watcher/organization-queue.ts:267 | The end index of `slice(0, n)`: n clamped to the length, or counted from the end when n is negative |
| OrganizationQueue.GetNextBatch | Extraction-01/03-integration/sbf-app/packages/core/src/watcher/organization-queue.ts:264-268 | The batch is a prefix of the approved items, in queue order. It holds at most the requested size (the configured batch size when none or 0 is given). It is shorter only when the approved items run out |
| OrganizationQueue.Remove | Extraction-01/03-integration/sbf-app/packages/core/src/watcher/organization-queue.ts:280-286 | Reports whether an item had the id, and removes exactly that item |
| OrganizationQueue.ClearProcessed | Extraction-01/03-integration/sbf-app/packages/core/src/watcher/organization-queue.ts:291-300 | Removes exactly the completed and failed items, returns how many, and the count plus the remaining items is the former size |
| OrganizationQueue.Clear | Extraction-01/03-integration/sbf-app/packages/core/src/watcher/organization-queue.ts:305-310 | Leaves no items, keeps the configuration and the id counter, so ids are never reused |
| OrganizationQueue.GetStats | Extraction-01/03-integration/sbf-app/packages/core/src/watcher/organization-queue.ts:315-327 | The total is the queue size. Each of the six status counts is the number of items `getByStatus` returns for that status, and the six add up to the total |
| OrganizationQueue.StatusCountsSum | Extraction-01/03-integration/sbf-app/packages/core/src/watcher/organization-queue.ts:320-325 | Every item has exactly one of the six statuses |
| MindMapUtils.Children | apps/web/src/lib/visualization/mind-map-utils.ts:60-67 | Exactly the targets of the edges leaving the node, at most one per edge |
| MindMapUtils.ChildrenCount | apps/web/src/lib/visualization/mind-map-utils.ts:60-67 | The number of children is the number of edges leaving the node |
| MindMapUtils.Parent | apps/web/src/lib/visualization/mind-map-utils.ts:69-75 | A node no edge points at has no parent. A parent, when found, is non-empty and has an edge to the node |
| MindMapUtils.ParentIsFirstEdgeSource | apps/web/src/lib/visualization/mind-map-utils.ts:73-74 | The parent is the source of the first edge pointing at the node, or none when that source is empty |
| MindMapUtils.GetNodeDescendants | apps/web/src/lib/visualization/mind-map-utils.ts:77-96 | The descendants are exactly the children of the nodes reachable from the start node, the start node included |
| MindMapUtils.AncestorsWithin | apps/web/src/lib/visualization/mind-map-utils.ts:98-114 | Within a step budget, the ancestors form the node's chain of first parents, no longer than the budget |
| MindMapUtils.AncestorsOfEndingChain | apps/web/src/lib/visualization/mind-map-utils.ts:98-114 | When the chain of first parents ends, a budget as long as the chain finds it |
| MindMapUtils.CyclicChainNeverEnds | apps/web/src/lib/visualization/mind-map-utils.ts:105-111 | On two nodes that are each other's parent, no step budget suffices: the ancestor loop never ends |
| MindMapUtils.ParentChainDistinct | apps/web/src/lib/visualization/mind-map-utils.ts:98-114 | A parent chain that ends never revisits a node and never returns to its start |
| MindMapUtils.GetNodeAncestors | apps/web/src/lib/visualization/mind-map-utils.ts:98-114 | The corrected walk, with a visited check, ends on every graph and returns distinct ancestors, never the node itself |
| MindMapUtils.GetNodeAncestorsAgrees | apps/web/src/lib/visualization/mind-map-utils.ts:98-114 | Whenever the loop as written ends, the corrected walk returns the same ancestors |
| MindMapUtils.CorrectedAncestorsStop | apps/web/src/lib/visualization/mind-map-utils.ts:98-114 | On two nodes that are each other's parent, the corrected walk stops after one step |
| MindMapUtils.GetRootNode | apps/web/src/lib/visualization/mind-map-utils.ts:116-120 | None exactly when no node is a root; otherwise the first root node |
| MindMapUtils.UpdateNodeChildCount | apps/web/src/lib/visualization/mind-map-utils.ts:126-140 | Each node's child count becomes the number of edges leaving it, and nothing else about the nodes changes |
| MindMapUtils.ToggleNodeExpanded | apps/web/src/lib/visualization/mind-map-utils.ts:142-158 | Exactly the nodes with that id change, and only in their expanded flag |
| MindMapUtils.ExpandNode | apps/web/src/lib/visualization/mind-map-utils.ts:160-176 | The nodes with that id become expanded; every other node is unchanged |
| MindMapUtils.CollapseNode | apps/web/src/lib/visualization/mind-map-utils.ts:178-194 | The nodes with that id become collapsed; every other node is unchanged |
| MindMapUtils.ToggleInvolution | apps/web/src/lib/visualization/mind-map-utils.ts:142-158 | Toggling twice restores the nodes |
| MindMapUtils.ToggleExpandedCollapses | apps/web/src/lib/visualization/mind-map-utils.ts:142-194 | Toggling an expanded node collapses it, and toggling a collapsed one expands it. Expanding and collapsing are idempotent |
| MindMapUtils.VisibleIdsWithin | apps/web/src/lib/visualization/mind-map-utils.ts:211-220 | The as-written loop, within a step budget: when it ends, every id already marked or still queued is marked |
| MindMapUtils.VisibleIdsWithinReach | apps/web/src/lib/visualization/mind-map-utils.ts:208-220 | When the as-written loop ends, the marked ids are exactly those reachable from the root through expanded nodes |
| MindMapUtils.GetVisibleNodesWithin | apps/web/src/lib/visualization/mind-map-utils.ts:200-223 | As written: without a root all nodes are visible. When the loop ends within the budget, the visible nodes are exactly the nodes reachable from the root through expanded nodes, so it agrees with the corrected GetVisibleNodes |
| MindMapUtils.LoopQueueNeverEmpties | apps/web/src/lib/visualization/mind-map-utils.ts:211-220 | On a root and a child that link to each other, both expanded, the as-written queue never empties |
| MindMapUtils.ExpandedCycleHangsVisibility | apps/web/src/lib/visualization/mind-map-utils.ts:200-223 | As written, computing the visible nodes of that map does not end within any budget |
| MindMapUtils.GetVisibleNodes | apps/web/src/lib/visualization/mind-map-utils.ts:200-223 | Corrected, with a visited set: without a root all nodes are visible. Otherwise the visible nodes are exactly those reachable from the root through expanded nodes, and the loop always ends |
| MindMapUtils.GetVisibleEdges | apps/web/src/lib/visualization/mind-map-utils.ts:225-232 | Exactly the edges whose two ends are visible, in order |
| MindMapUtils.VisibleEdgesInduced | apps/web/src/lib/visualization/mind-map-utils.ts:225-232 | A visible edge links two nodes exactly when an edge links them and both are visible |
| MindMapUtils.CreateMindMapEdge | apps/web/src/lib/visualization/mind-map-utils.ts:42-54 | The edge links the given source to the given target, and its id is `edge_<source>_<target>` |
| MindMapUtils.ParentEdgesLinks | apps/web/src/lib/visualization/mind-map-utils.ts:262-269 | The converted edges link a parent to a child exactly when some raw node names that parent |
| MindMapUtils.ConvertToReactFlowFormat | apps/web/src/lib/visualization/mind-map-utils.ts:246-275 | One node per raw node, in order, keeping id, label, type and description. A node is expanded exactly when it is a root or topic, and its child count is the number of raw nodes naming it as parent. There is one edge per raw node with a parent |
| MindMapUtils.Endpoints | apps/web/src/lib/visualization/mind-map-utils.ts:375-379 | Every edge's two ends are listed |
| MindMapUtils.InsertionOrder | apps/web/src/lib/visualization/mind-map-utils.ts:375-381 | The set's iteration order holds exactly the ids seen |
| MindMapUtils.CycleFromPath | apps/web/src/lib/visualization/mind-map-utils.ts:361-365 | When the path's end has an edge back to a node on the path, the path from that node on is a cycle |
| MindMapUtils.Dfs | apps/web/src/lib/visualization/mind-map-utils.ts:352-372 | The search only adds visited nodes. With the unwinding intended, it returns with the path and recursion stack as it found them, and every path it reports is a cycle |
| MindMapUtils.FindCyclesWith | apps/web/src/lib/visualization/mind-map-utils.ts:336-388 | With the unwinding intended, every reported path is a cycle of the edges |
| MindMapUtils.AsWrittenReportsNonCycle | apps/web/src/lib/visualization/mind-map-utils.ts:358-385 | As written, on edges a→b, b→a, c→a the search reports [a, b] and then [a, b, c], which is not a cycle |
| MindMapUtils.FindCycles | apps/web/src/lib/visualization/mind-map-utils.ts:336-388 | Corrected: every reported path is a non-empty cycle of the edges |
| MindMapUtils.CorrectedRejectsNonCycle | apps/web/src/lib/visualization/mind-map-utils.ts:336-388 | Corrected, on edges a→b, b→a, c→a the search never reports [a, b, c] |
| MindMapGenerator.ToDict | apps/aei-core/services/mind_map_generator.py:39-50 | The dictionary keeps the node's id and parent, counts its children and marks it expanded |
| MindMapGenerator.ToDicts | apps/aei-core/services/mind_map_generator.py:170-219 | One dictionary per node, in order |
| MindMapGenerator.ToDictsChildTotal | apps/aei-core/services/mind_map_generator.py:47 | The child counts of the dictionaries add up to the children of the nodes |
| MindMapGenerator.ParseMapResponse | apps/aei-core/services/mind_map_generator.py:250-283 | The unwrapped response is decoded. A response that does not decode gives the one-root fallback map |
| MindMapGenerator.FirstWithId | apps/aei-core/services/mind_map_generator.py:346-349 | Finds the first raw node with that id, or reports that none has it |
| MindMapGenerator.Depth | apps/aei-core/services/mind_map_generator.py:333-355 | A node's depth is 0 exactly when it names no parent |
| MindMapGenerator.DepthBounded | apps/aei-core/services/mind_map_generator.py:337-342 | The visited set bounds the climb: a depth never exceeds the number of distinct parent ids |
| MindMapGenerator.DepthOnLineage | apps/aei-core/services/mind_map_generator.py:333-355 | Along a well-formed lineage of distinct ids from a root, a node's depth is its number of ancestors |
| MindMapGenerator.SelfParentDepth | apps/aei-core/services/mind_map_generator.py:339-342 | A node that names itself as parent has depth 1: the visited set stops the climb |
| Common.PyPrefix | apps/aei-core/services/mind_map_generator.py:298 | Python's `raw_nodes[:max_nodes]` (and `raw_entities[:max_entities * 2]` in the entity extractor): a prefix of the list, counted from the end for a negative bound |
| MindMapGenerator.FreshNode | apps/aei-core/services/mind_map_generator.py:299-314 | A new node has no children and keeps the entry's parent |
| MindMapGenerator.Admitted | apps/aei-core/services/mind_map_generator.py:298-305 | The entries kept are exactly those of the slice whose depth is within the limit, in order |
| MindMapGenerator.BuildPrefixInvariant | apps/aei-core/services/mind_map_generator.py:298-331 | After any number of entries, the nodes match the admitted entries. Every edge links a recorded parent to its child, with id `edge-<parent>-<child>`. Every node whose parent came earlier has its edge, and children lists agree with the edges |
| MindMapGenerator.BuildGraph | apps/aei-core/services/mind_map_generator.py:285-331 | One node per entry that the node and depth limits admit, and the child counts add up to the number of edges |
| MindMapGenerator.BuildGraphShape | apps/aei-core/services/mind_map_generator.py:285-331 | The graph has one node per admitted entry, in order, built from that entry. Every edge has the edge-id form and records a child in its parent. Every node whose parent was built earlier has its edge. The child counts add up to the number of edges |
| MindMapGenerator.FallbackGraph | apps/aei-core/services/mind_map_generator.py:277-331 | The fallback map yields a single root node "Main Topic" and no edges |
| LlmResponse.SplitLines | apps/aei-core/services/mind_map_generator.py:258 | Python's `split("\n")`: at least one piece, and no piece holds a newline |
| LlmResponse.JoinSplitLines | apps/aei-core/services/mind_map_generator.py:258-270 | Joining the pieces with newlines gives back the text |
| LlmResponse.SplitJoinLines | apps/aei-core/services/mind_map_generator.py:258-270 | Splitting newline-free lines joined with newlines gives back the lines |
| LlmResponse.FenceBody | apps/aei-core/services/mind_map_generator.py:259-269 | The kept lines are lines of the input, and none of them is a fence line |
| LlmResponse.FenceBodyInside | apps/aei-core/services/mind_map_generator.py:261-269 | Inside an open json fence, the lines up to the closing fence are kept as they are |
| LlmResponse.UnwrapFence | apps/aei-core/services/mind_map_generator.py:254-270 | A stripped response that does not start with a fence is passed through |
| LlmResponse.UnwrapFencedBody | apps/aei-core/services/mind_map_generator.py:254-270 | A body of non-fence lines wrapped in a json fence unwraps to exactly that body |
| LlmResponse.ParseResponse | apps/aei-core/services/mind_map_generator.py:250-283 | The unwrapped text is decoded, and the fallback is used when decoding fails |
| LlmResponse.ParseFencedResponse | apps/aei-core/services/mind_map_generator.py:250-283 | Parsing a fenced response is decoding its body |
| EntityExtractor.ParseGraphResponse | apps/aei-core/services/entity_extractor.py:394-419 | A fenced or bare answer is decoded after unwrapping; an answer that does not decode yields a graph with no entities and no relations |
| EntityExtractor.NormalEntityType | apps/aei-core/services/entity_extractor.py:446-448 | The type is always one of the seven entity types: a listed type is kept, an absent or unlisted one becomes "concept" |
| EntityExtractor.NormalRelationType | apps/aei-core/services/entity_extractor.py:477-479 | The type is always one of the nine relation types: a listed type is kept, an absent or unlisted one becomes "related_to" |
| EntityExtractor.ConvertEntities | apps/aei-core/services/entity_extractor.py:450-458 | One entity per kept entry, in order |
| EntityExtractor.ConvertEntitiesAt | apps/aei-core/services/entity_extractor.py:450-458 | The i-th entity takes the i-th entry's fields with the defaults for absent ones and draws the i-th fresh uuid |
| EntityExtractor.KeptEntries | apps/aei-core/services/entity_extractor.py:434-464 | The kept entries come from the first `2 * max_entities` entries, pass the type filter and the confidence threshold, and are at most `max_entities` many |
| EntityExtractor.KeptEntitiesFiltered | apps/aei-core/services/entity_extractor.py:437-448 | Every built entity has confidence at least the threshold and a known type; under a type filter its entry's type was requested, and the entity keeps that type or falls back to "concept" |
| EntityExtractor.BuildEntities | apps/aei-core/services/entity_extractor.py:429-464 | The entity loop, with its early break at `max_entities`, builds exactly the converted kept entries |
| EntityExtractor.ConvertRelations | apps/aei-core/services/entity_extractor.py:481-489 | One relation per entry, in order |
| EntityExtractor.ConvertRelationsAt | apps/aei-core/services/entity_extractor.py:481-489 | The i-th relation takes the i-th entry's fields with the defaults for absent ones |
| EntityExtractor.KeptRelations | apps/aei-core/services/entity_extractor.py:467-491 | As many relations as entries whose two ends are ids of built entities; each kept relation joins two such ids and has a known type |
| EntityExtractor.KeptRelationsComplete | apps/aei-core/services/entity_extractor.py:473-491 | No entry between two kept ids is dropped |
| EntityExtractor.BuildGraph | apps/aei-core/services/entity_extractor.py:421-493 | Entities as above, then the relations among them; every relation's ends name built entities |
| EntityExtractor.MergeGraphs | apps/aei-core/services/entity_extractor.py:303-376 | The counts in the metadata match the lists, and every merged relation joins two merged entities |
| EntityExtractor.MergeGraphsShape | apps/aei-core/services/entity_extractor.py:318-364 | Every entry's key is represented; with deduplication the keys are distinct, each entity keeps the id of the first entry with its key and a confidence no lower than any entry with that key; without it there is one entity per entry; the relations are exactly those whose ends are merged ids |
| EntityExtractor.MergeWellFormedSucceeds | apps/aei-core/services/entity_extractor.py:322-357 | Entries carrying every key that is read with `[]` merge without error |
| EntityExtractor.NamelessEntityFails | apps/aei-core/services/entity_extractor.py:324 | An entity entry without a name makes the merge fail, as the missing key does |
| DailyPlanning.EstimatedMinutes | packages/@sbf/modules/personal-tasks/src/workflows/DailyPlanningWorkflow.ts:89 | A task takes at least a minute; a positive estimate is used as given, and a missing or zero one is exactly 60 minutes |
| DailyPlanning.FieldBefore | packages/@sbf/modules/personal-tasks/src/workflows/DailyPlanningWorkflow.ts:164-172 | The first piece of a split: a prefix of the text without the separator, followed by the separator when shorter than the text |
| DailyPlanning.NumberOf | packages/@sbf/modules/personal-tasks/src/workflows/DailyPlanningWorkflow.ts:296 | `Number` of a clock piece is a number exactly when every character is a digit |
| DailyPlanning.ParseTime | packages/@sbf/modules/personal-tasks/src/workflows/DailyPlanningWorkflow.ts:295-298 | A clock time parses only when it holds a colon |
| DailyPlanning.FormatTime | packages/@sbf/modules/personal-tasks/src/workflows/DailyPlanningWorkflow.ts:300-304 | The rendering holds a colon |
| DailyPlanning.ParseJoined | packages/@sbf/modules/personal-tasks/src/workflows/DailyPlanningWorkflow.ts:295-298 | Two digit strings around a colon parse as hours times 60 plus minutes |
| DailyPlanning.ParseFormatTime | packages/@sbf/modules/personal-tasks/src/workflows/DailyPlanningWorkflow.ts:295-304 | Formatting any number of minutes and parsing it back gives the same minutes |
| DailyPlanning.FormatParseTime | packages/@sbf/modules/personal-tasks/src/workflows/DailyPlanningWorkflow.ts:295-304 | A well-formed "HH:MM" time parses, and formatting its value writes the same text back |
| DailyPlanning.DatePart | packages/@sbf/modules/personal-tasks/src/workflows/DailyPlanningWorkflow.ts:164-172 | The date part of a timestamp is the prefix before the first 'T', the whole text when there is none |
| DailyPlanning.FilterTasksForDay | packages/@sbf/modules/personal-tasks/src/workflows/DailyPlanningWorkflow.ts:155-193 | A task belongs to the day exactly when it is not done or archived and is scheduled on the day, due on it, overdue and unscheduled, or critical without a due date |
| DailyPlanning.CompareIsKeyOrder | packages/@sbf/modules/personal-tasks/src/workflows/DailyPlanningWorkflow.ts:202-225 | The comparator lets a task go first exactly when its key (priority descending, energy descending when preferred, due date ascending, dated before undated) is no larger |
| DailyPlanning.KeyOrderTotal | packages/@sbf/modules/personal-tasks/src/workflows/DailyPlanningWorkflow.ts:202-225 | The comparator's order is a total preorder, so sorting by it is well defined |
| DailyPlanning.SortForOptimalScheduling | packages/@sbf/modules/personal-tasks/src/workflows/DailyPlanningWorkflow.ts:198-226 | Sorting keeps exactly the same tasks |
| DailyPlanning.SortedForScheduling | packages/@sbf/modules/personal-tasks/src/workflows/DailyPlanningWorkflow.ts:198-226 | The sorted tasks run by the comparator's key, and in particular by descending priority |
| DailyPlanning.Configure | packages/@sbf/modules/personal-tasks/src/workflows/DailyPlanningWorkflow.ts:64-85 | The defaults apply to every missing preference. The hour cap is a real number, so 7.5 hours is 450 minutes, counted as `max_hours_per_day * 60`. The settings exist exactly when the start time is a number. Start, end and lunch are the parsed clock times, with an end or lunch time that is not a number kept as absent |
| DailyPlanning.DefaultConfiguration | packages/@sbf/modules/personal-tasks/src/workflows/DailyPlanningWorkflow.ts:64-85 | With no preferences the day runs from 09:00 to 17:00, with lunch at 12:00 for 60 minutes, a cap of 480 minutes, a 10-minute buffer and the morning preference |
| DailyPlanning.SkipLunch | packages/@sbf/modules/personal-tasks/src/workflows/DailyPlanningWorkflow.ts:97-99 | The cursor never moves back and never rests inside lunch; outside lunch, and always when the lunch time is not a number, it stays put |
| DailyPlanning.PlaceTasks | packages/@sbf/modules/personal-tasks/src/workflows/DailyPlanningWorkflow.ts:88-120 | The placement loop yields at most one block per task. What the blocks are is stated by PlaceTasksWellPlaced, PlaceTasksAtCursor and PlaceTasksStops |
| DailyPlanning.PlaceTasksWellPlaced | packages/@sbf/modules/personal-tasks/src/workflows/DailyPlanningWorkflow.ts:88-120 | The placement loop's blocks hold the leading tasks. Each starts at the lunch-adjusted cursor. They lie within working hours, start outside lunch, keep the buffer and stay within the capacity |
| DailyPlanning.PlaceTasksAtCursor | packages/@sbf/modules/personal-tasks/src/workflows/DailyPlanningWorkflow.ts:96-119 | Each block starts exactly at the cursor left by the blocks before it (the start of work, then the end of the last block plus the buffer), moved past lunch when it falls inside it |
| DailyPlanning.PlaceTasksInOrder | packages/@sbf/modules/personal-tasks/src/workflows/DailyPlanningWorkflow.ts:88-116 | The blocks hold the leading tasks in order, each with its estimate |
| DailyPlanning.PlaceTasksInHours | packages/@sbf/modules/personal-tasks/src/workflows/DailyPlanningWorkflow.ts:97-108 | Every block starts no earlier than the cursor, not during lunch, and ends by the end of work |
| DailyPlanning.PlaceTasksSpaced | packages/@sbf/modules/personal-tasks/src/workflows/DailyPlanningWorkflow.ts:119 | Every block starts at least the buffer after every earlier block ends |
| DailyPlanning.PlaceTasksCapacity | packages/@sbf/modules/personal-tasks/src/workflows/DailyPlanningWorkflow.ts:92-118 | The planned minutes never exceed the daily cap |
| DailyPlanning.PlaceTasksStops | packages/@sbf/modules/personal-tasks/src/workflows/DailyPlanningWorkflow.ts:92-104 | The loop stops only at a task that would overrun the cap or the end of work |
| DailyPlanning.ToBlocks | packages/@sbf/modules/personal-tasks/src/workflows/DailyPlanningWorkflow.ts:107-116 | One block per placed task, in order |
| DailyPlanning.BlockTimes | packages/@sbf/modules/personal-tasks/src/workflows/DailyPlanningWorkflow.ts:107-109 | A block's clock times read back as its start and end minutes |
| DailyPlanning.DayPartBounds | packages/@sbf/modules/personal-tasks/src/workflows/DailyPlanningWorkflow.ts:123-124 | The morning ends at minute 720 and the afternoon at minute 1020 |
| DailyPlanning.DayOrder | packages/@sbf/modules/personal-tasks/src/workflows/DailyPlanningWorkflow.ts:75-78 | The tasks to place are a permutation of the day's tasks |
| DailyPlanning.PlannedBlocks | packages/@sbf/modules/personal-tasks/src/workflows/DailyPlanningWorkflow.ts:75-120 | Every block holds a task of the day |
| DailyPlanning.PlanFor | packages/@sbf/modules/personal-tasks/src/workflows/DailyPlanningWorkflow.ts:134-149 | The plan is for the requested date. Each energy count is the number of scheduled tasks with that level, and the three together count at most one level per block |
| DailyPlanning.EnergyCountsCoverBlocks | packages/@sbf/modules/personal-tasks/src/workflows/DailyPlanningWorkflow.ts:141-146 | When every planned task has an energy level, the three energy counts add up to the number of planned blocks |
| DailyPlanning.CreateDailyPlan | packages/@sbf/modules/personal-tasks/src/workflows/DailyPlanningWorkflow.ts:59-150 | A plan exists exactly when the preferences' start time is a number, and it is for the requested date |
| DailyPlanning.PlanPartitionsBlocks | packages/@sbf/modules/personal-tasks/src/workflows/DailyPlanningWorkflow.ts:123-131 | Every block lands in exactly one of morning, afternoon and evening, by its start time |
| DailyPlanning.SlotBlocks | packages/@sbf/modules/personal-tasks/src/workflows/DailyPlanningWorkflow.ts:107-119 | Blocks of well-placed tasks lie within the day, keep the buffer and stay within the cap |
| DailyPlanning.PlanWithinDay | packages/@sbf/modules/personal-tasks/src/workflows/DailyPlanningWorkflow.ts:88-142 | The planned hours never exceed a non-negative cap, and a cap under one minute plans nothing; the blocks are the leading tasks of the scheduling order. They start no earlier than work, not during lunch, end by the end of work when it is a number, and are spaced by the buffer |
| DailyPlanning.UnscheduledComplement | packages/@sbf/modules/personal-tasks/src/workflows/DailyPlanningWorkflow.ts:134-135 | A task of the day is unscheduled exactly when no block holds it |
| DailyPlanning.PlanStopsAtFirstMisfit | packages/@sbf/modules/personal-tasks/src/workflows/DailyPlanningWorkflow.ts:88-120 | When some task of the day is not placed, the first one left out would overrun the cap or the end of work |
| DailyPlanning.FilterByContext | packages/@sbf/modules/personal-tasks/src/workflows/DailyPlanningWorkflow.ts:231-235 | Exactly the tasks listing the context |
| DailyPlanning.FilterByEnergyLevel | packages/@sbf/modules/personal-tasks/src/workflows/DailyPlanningWorkflow.ts:240-242 | Exactly the tasks with that energy level |
| DailyPlanning.FilterByTimeOfDay | packages/@sbf/modules/personal-tasks/src/workflows/DailyPlanningWorkflow.ts:247-252 | Exactly the tasks preferring that time of day or any time |
| DailyPlanning.GetInboxTasks | packages/@sbf/modules/personal-tasks/src/workflows/DailyPlanningWorkflow.ts:257-259 | Exactly the tasks in the inbox |
| DailyPlanning.GetTodaysFocus | packages/@sbf/modules/personal-tasks/src/workflows/DailyPlanningWorkflow.ts:264-269 | `slice(0, maxTasks)` of today's tasks in scheduling order: exactly `maxTasks` of them when there are enough, and all but the last `-maxTasks` when it is negative |
| DailyPlanning.GetDefaultTodaysFocus | packages/@sbf/modules/personal-tasks/src/workflows/DailyPlanningWorkflow.ts:264-268 | With the default `maxTasks = 3`: the first three of today's tasks in scheduling order, or all of them when fewer |
| DailyPlanning.FocusHasTopPriorities | packages/@sbf/modules/personal-tasks/src/workflows/DailyPlanningWorkflow.ts:264-269 | No task of the day left out of the focus has a higher priority than one in it |
| DailyPlanning.SuggestTimeBlocks | packages/@sbf/modules/personal-tasks/src/workflows/DailyPlanningWorkflow.ts:274-291 | Suggestions exist exactly when the preferences' start time is a number |
| DailyPlanning.SuggestedTasksOpen | packages/@sbf/modules/personal-tasks/src/workflows/DailyPlanningWorkflow.ts:274-291 | Every suggested block holds an open, unscheduled task of the list that belongs to the day |
| FrontmatterParser.FindClosing | packages/@sbf/obsidian-plugin/src/sync/FrontmatterParser.ts:13 | The first position at or after the start where the closing fence line begins, or none when there is no such position |
| FrontmatterParser.MatchFrontmatter | packages/@sbf/obsidian-plugin/src/sync/FrontmatterParser.ts:13-19 | There is a match exactly when the content opens with the fence and a closing fence line starts somewhere after it; the header is the text between the opening fence and the first such closing fence, and the match ends right after that closing fence |
| FrontmatterParser.Parse | packages/@sbf/obsidian-plugin/src/sync/FrontmatterParser.ts:18-33 | Without a header the body is the trimmed content and the header is empty; when the header does not parse as YAML the content comes back untrimmed with an empty header |
| FrontmatterParser.Serialize | packages/@sbf/obsidian-plugin/src/sync/FrontmatterParser.ts:38-48 | When cleaning leaves no key, the body alone is written; otherwise the text opens with the fence |
| FrontmatterParser.SerializeEmpty | packages/@sbf/obsidian-plugin/src/sync/FrontmatterParser.ts:42-44 | A header of null, undefined and empty values serializes to the bare body |
| FrontmatterParser.ParseSerialize | packages/@sbf/obsidian-plugin/src/sync/FrontmatterParser.ts:18-48 | Parsing a serialized note gives back the cleaned header and the trimmed body, given a YAML reader and writer that round-trip |
| FrontmatterParser.UpdateWithoutHeader | packages/@sbf/obsidian-plugin/src/sync/FrontmatterParser.ts:53-57 | Updating a note without a header using only null or undefined values leaves just its trimmed body |
| FrontmatterParser.SpreadFields | packages/@sbf/obsidian-plugin/src/sync/FrontmatterParser.ts:75-82 | Spreading an object gives its fields; spreading a number, boolean, null or undefined gives nothing |
| FrontmatterParser.MergeFrontmatter | packages/@sbf/obsidian-plugin/src/sync/FrontmatterParser.ts:62-89 | The merged keys are the existing keys plus every update key with a value that is not null or undefined |
| FrontmatterParser.MergeEffect | packages/@sbf/obsidian-plugin/src/sync/FrontmatterParser.ts:62-89 | Null and undefined updates change nothing; a `bmom`, `relationships` or `sbf` object is merged field by field with the update's fields winning; any other update replaces the value |
| FrontmatterParser.MergeIdempotent | packages/@sbf/obsidian-plugin/src/sync/FrontmatterParser.ts:62-89 | Applying the same updates twice is the same as applying them once |
| FrontmatterParser.CleanObject | packages/@sbf/obsidian-plugin/src/sync/FrontmatterParser.ts:121-134 | A nested object keeps exactly its fields that are not null, undefined or an empty array, with their values |
| FrontmatterParser.CleanFrontmatter | packages/@sbf/obsidian-plugin/src/sync/FrontmatterParser.ts:94-116 | No key is added; every kept value is present, not an empty array and not an empty object; a scalar or array is kept unchanged exactly when present and not an empty array; a nested object is kept exactly when cleaning its fields leaves some, and is stored with its fields cleaned |
| FrontmatterParser.CleanIdempotent | packages/@sbf/obsidian-plugin/src/sync/FrontmatterParser.ts:94-134 | Cleaning a cleaned header changes nothing |
| FrontmatterParser.DashRuns | packages/@sbf/obsidian-plugin/src/sync/FrontmatterParser.ts:146 | Every run of characters other than lower-case letters and digits becomes one dash, so no two dashes are adjacent; the letters and digits are those of the input, in order |
| FrontmatterParser.DashRunsCollapses | packages/@sbf/obsidian-plugin/src/sync/FrontmatterParser.ts:146 | The one-pass replacement equals turning every other character into a dash and then squeezing each run of dashes into one |
| FrontmatterParser.TrimDashes | packages/@sbf/obsidian-plugin/src/sync/FrontmatterParser.ts:147 | For a text of letters, digits and single dashes, the result neither starts nor ends with a dash |
| FrontmatterParser.TrimDashesDropsDashes | packages/@sbf/obsidian-plugin/src/sync/FrontmatterParser.ts:147 | At most a leading and a trailing dash are dropped; the rest of the text stays in place, with all of its letters and digits |
| FrontmatterParser.Slug | packages/@sbf/obsidian-plugin/src/sync/FrontmatterParser.ts:142-148 | The slug is at most 30 characters of lower-case letters, digits and single dashes; it does not start with a dash, and ends with one only when it is 30 characters long |
| FrontmatterParser.SlugMeaning | packages/@sbf/obsidian-plugin/src/sync/FrontmatterParser.ts:142-148 | The slug is the lower-cased title with every run of other characters squeezed into one dash, read from past a leading dash; its letters and digits are the title's, in order, and all of them when the slug is shorter than 30 |
| FrontmatterParser.GenerateUid | packages/@sbf/obsidian-plugin/src/sync/FrontmatterParser.ts:141-152 | The uid is the type, a dash and the slug, followed by a dash and the counter exactly when a non-zero counter is given |
| FrontmatterParser.UidFormatMatchesPattern | packages/@sbf/obsidian-plugin/src/sync/FrontmatterParser.ts:235 | The character-by-character check agrees with the pattern `^[a-z]+-[a-z0-9-]+$` |
| FrontmatterParser.GeneratedUidValid | packages/@sbf/obsidian-plugin/src/sync/FrontmatterParser.ts:141-152 | A uid generated for a lower-case type and a title with a non-empty slug, or with a counter, passes validation |
| FrontmatterParser.EmptySlugUidRejected | packages/@sbf/obsidian-plugin/src/sync/FrontmatterParser.ts:234-238 | A title with no letters or digits and no counter yields a uid that validation rejects |
| FrontmatterParser.TagEnd | packages/@sbf/obsidian-plugin/src/sync/FrontmatterParser.ts:215 | A tag runs over letters, digits, `_` and `-` up to the first other character |
| FrontmatterParser.TagAt | packages/@sbf/obsidian-plugin/src/sync/FrontmatterParser.ts:215 | A tag starts at a `#` followed by a letter |
| FrontmatterParser.TagScanExact | packages/@sbf/obsidian-plugin/src/sync/FrontmatterParser.ts:214-221 | The scan finds exactly the tags that start at some position of the text |
| FrontmatterParser.Distinct | packages/@sbf/obsidian-plugin/src/sync/FrontmatterParser.ts:216-223 | The same tags without repetitions |
| FrontmatterParser.ExtractTags | packages/@sbf/obsidian-plugin/src/sync/FrontmatterParser.ts:214-224 | No tag is listed twice |
| FrontmatterParser.ExtractTagsExact | packages/@sbf/obsidian-plugin/src/sync/FrontmatterParser.ts:214-224 | A tag is listed exactly when it starts at some position of the text, and every listed tag is a letter followed by tag characters |
| FrontmatterParser.SingleTag | packages/@sbf/obsidian-plugin/src/sync/FrontmatterParser.ts:214-224 | A text made of one tag yields exactly that tag |
| FrontmatterParser.Field | packages/@sbf/obsidian-plugin/src/sync/FrontmatterParser.ts:234-267 | A missing key reads as undefined |
| FrontmatterParser.Validate | packages/@sbf/obsidian-plugin/src/sync/FrontmatterParser.ts:229-276 | The header is valid exactly when there is no error; each error and warning is reported exactly when its condition holds (bad uid, unknown sensitivity or lifecycle, confidence outside 0 to 1, no type, no title) |
| FrontmatterParser.CreateMinimal | packages/@sbf/obsidian-plugin/src/sync/FrontmatterParser.ts:281-297 | The options win over the defaults; otherwise the uid is generated from the type and title, the type and title fields are the given ones, sensitivity is personal, and created and modified are the same instant |
| FrontmatterParser.CreateMinimalValid | packages/@sbf/obsidian-plugin/src/sync/FrontmatterParser.ts:229-297 | A minimal header for a lower-case type and a title with a non-empty slug validates without errors or warnings |
| SyncPlanning.RemoteFor | packages/@sbf/cli/src/commands/sync.ts:240-248 | The entity found for a uid is a listed entity with that uid, and none is found exactly when no listed entity has it |
| SyncPlanning.RemoteForIsLast | packages/@sbf/cli/src/commands/sync.ts:240 | The map built from the list keeps the last entity listed under each uid |
| SyncPlanning.Classify | packages/@sbf/cli/src/commands/sync.ts:243-262 | A conflict pairs the file with a listed entity carrying the file's uid |
| SyncPlanning.ClassifyByTime | packages/@sbf/cli/src/commands/sync.ts:244-260 | A file without a uid, or with a uid the server does not list, is uploaded; otherwise it is uploaded when newer than the remote copy, a conflict when older and unchanged when equal |
| SyncPlanning.Uploads | packages/@sbf/cli/src/commands/sync.ts:243-263 | Exactly the files classified for upload |
| SyncPlanning.Conflicts | packages/@sbf/cli/src/commands/sync.ts:243-263 | Every conflict is a file older than its remote copy, and every such file has a conflict |
| SyncPlanning.UnchangedPaths | packages/@sbf/cli/src/commands/sync.ts:243-263 | Exactly the paths of the files classified as unchanged |
| SyncPlanning.OutcomesSplit | packages/@sbf/cli/src/commands/sync.ts:243-263 | Every file gets exactly one outcome, so the three lists together are as long as the list of files |
| SyncPlanning.ConflictRemoteNewer | packages/@sbf/cli/src/commands/sync.ts:253-257 | A conflict's remote copy is the one the map keeps for the file's uid, and its valid update time is strictly later than the file's |
| SyncPlanning.SortLocalFiles | packages/@sbf/cli/src/commands/sync.ts:243-263 | The first loop builds exactly the upload, conflict and unchanged lists |
| SyncPlanning.RemoteOnly | packages/@sbf/cli/src/commands/sync.ts:239-270 | The second loop downloads exactly the listed entities whose uid no local file carries, in the server's order |
| SyncPlanning.BuildSyncPlan | packages/@sbf/cli/src/commands/sync.ts:228-273 | The plan uploads, reports as conflicts and leaves alone exactly the right files, one outcome each, and downloads exactly the entities held by no local file |
| RateLimit.LimitFor | apps/aei-core/middleware/rate_limit.py:50-57 | Every category allows a positive number of requests in a 60-second window |
| RateLimit.FirstPrefix | apps/aei-core/middleware/rate_limit.py:242-245 | The category of the first prefix the path starts with, and none exactly when the path starts with no prefix |
| RateLimit.EndpointCategory | apps/aei-core/middleware/rate_limit.py:232-245 | A path under no listed prefix falls in the default category |
| RateLimit.PrefixesExclusive | apps/aei-core/middleware/rate_limit.py:61-67 | No path starts with two of the listed prefixes, so their order does not matter |
| RateLimit.EndpointCategoryByPrefix | apps/aei-core/middleware/rate_limit.py:232-245 | A path falls in the chat, transform, search or ingest category exactly when it starts with that endpoint's prefix |
| RateLimit.Prune | apps/aei-core/middleware/rate_limit.py:167-170 | Exactly the timestamps strictly after the window start are kept |
| RateLimit.TruncateToInt | apps/aei-core/middleware/rate_limit.py:174 | Python's `int` truncates toward zero |
| RateLimit.CheckList | apps/aei-core/middleware/rate_limit.py:156-187 | A request is allowed exactly when fewer than the limit remain in the window; the remaining count is the limit minus that count, never negative; an allowed request's instant is appended |
| RateLimit.CheckLocal | apps/aei-core/middleware/rate_limit.py:156-187 | The check runs on the key's list, an absent key counting as empty; only that key's list changes |
| RateLimit.Reset | apps/aei-core/middleware/rate_limit.py:189-194 | The key is forgotten and every other key is kept |
| RateLimit.ResetAdmits | apps/aei-core/middleware/rate_limit.py:156-194 | After a reset the next request on that key is allowed and starts a fresh list |
| RateLimit.CheckListBounded | apps/aei-core/middleware/rate_limit.py:183-185 | A list holding at most the limit still does after a check |
| RateLimit.CheckLocalBounded | apps/aei-core/middleware/rate_limit.py:164-185 | The local cache never holds more than the limit of timestamps under any key |
| RateLimit.PruneTwice | apps/aei-core/middleware/rate_limit.py:167-170 | Pruning with a later window start after an earlier one is the same as pruning once with the later |
| RateLimit.ReplayKeepsWindow | apps/aei-core/middleware/rate_limit.py:156-187 | Over a run of checks at non-decreasing instants, the kept list is exactly the allowed instants inside the current window |
| RateLimit.ReplayWithinLimit | apps/aei-core/middleware/rate_limit.py:156-187 | Over such a run, no window ever contains more allowed requests than the limit |
| Scheduler.IndexOf | packages/@sbf/core/lifecycle-engine/src/scheduler/Scheduler.ts:123-125 | The position of the first job with the id, and none exactly when no job has it |
| Scheduler.GetJob | packages/@sbf/core/lifecycle-engine/src/scheduler/Scheduler.ts:123-125 | A job is found exactly when one with that id is held, and it carries the id |
| Scheduler.SetJob | packages/@sbf/core/lifecycle-engine/src/scheduler/Scheduler.ts:85 | Setting a new id appends the job; setting a known id replaces that job in place, keeping insertion order |
| Scheduler.SetJobKeepsIds | packages/@sbf/core/lifecycle-engine/src/scheduler/Scheduler.ts:85-125 | Ids stay unique; the set job is found under its id and every other id finds what it found before |
| Scheduler.ScheduleJob | packages/@sbf/core/lifecycle-engine/src/scheduler/Scheduler.ts:26-93 | The new job is pending with no retries, takes the request's retry limit, else the configured default, else 3, keeps the request's frequency, enabled flag and run time, and is found under its id |
| Scheduler.CancelJob | packages/@sbf/core/lifecycle-engine/src/scheduler/Scheduler.ts:98-118 | Cancelling succeeds exactly when the job exists and is not running; a refusal changes nothing, and no other job changes |
| Scheduler.CancelKeepsIds | packages/@sbf/core/lifecycle-engine/src/scheduler/Scheduler.ts:98-118 | Ids stay unique, and a cancelled job is found with status cancelled |
| Scheduler.NextRunTime | packages/@sbf/core/lifecycle-engine/src/scheduler/Scheduler.ts:230-251 | A non-empty cron expression decides the time through the cron parser; otherwise (none or empty) an hourly job is next due an hour later, a daily one a day later, a weekly one seven days later, a monthly one a calendar month later, and any other an hour later |
| Scheduler.EmptyCronUsesFrequency | packages/@sbf/core/lifecycle-engine/src/scheduler/Scheduler.ts:233-235 | Without a non-empty cron expression the time does not depend on the cron parser, and an empty expression schedules exactly as a missing one |
| Scheduler.RunJob | packages/@sbf/core/lifecycle-engine/src/scheduler/Scheduler.ts:165-225 | A run never leaves a job running or cancelled; a success records the run time and completes a one-off job or reschedules a recurring one; a failure counts a retry and either fails and disables the job at the retry limit or retries it five minutes later |
| Scheduler.FailuresExhaustRetries | packages/@sbf/core/lifecycle-engine/src/scheduler/Scheduler.ts:196-205 | Fewer failures than the retry limit leave the job pending and enabled with that many retries |
| Scheduler.LastFailureDisables | packages/@sbf/core/lifecycle-engine/src/scheduler/Scheduler.ts:198-200 | The failure that reaches the retry limit fails the job and disables it |
| Scheduler.CheckJobsAsWritten | packages/@sbf/core/lifecycle-engine/src/scheduler/Scheduler.ts:144-160 | A pass runs every enabled, not cancelled, not running job whose time has come, and leaves every other job as it is |
| Scheduler.OnceJobRerun | packages/@sbf/core/lifecycle-engine/src/scheduler/Scheduler.ts:148-182 | A one-off job that completes stays enabled with its old run time, so every later pass finds it due again |
| Scheduler.OnceJobRunsTwice | packages/@sbf/core/lifecycle-engine/src/scheduler/Scheduler.ts:144-182 | A one-off job due at instant 0 is run by the pass at 0 and again by the pass at 60000 |
| Scheduler.CheckJobs | packages/@sbf/core/lifecycle-engine/src/scheduler/Scheduler.ts:144-160 | The corrected pass runs exactly the due jobs that have not completed and leaves every other job as it is |
| Scheduler.CheckJobsAgreesOnOpenJobs | packages/@sbf/core/lifecycle-engine/src/scheduler/Scheduler.ts:144-160 | On a job that has not completed, the corrected pass does what the pass as written does |
| Scheduler.CompletedJobStays | packages/@sbf/core/lifecycle-engine/src/scheduler/Scheduler.ts:144-160 | A completed job is left alone by every later pass of the corrected scheduler |
| Scheduler.OnceJobRunsOnce | packages/@sbf/core/lifecycle-engine/src/scheduler/Scheduler.ts:144-182 | A one-off job that succeeds when first due is completed and stays so through every later pass |
| Scheduler.JobsByStatus | packages/@sbf/core/lifecycle-engine/src/scheduler/Scheduler.ts:137-139 | Exactly the jobs in that state |
| Scheduler.GetStats | packages/@sbf/core/lifecycle-engine/src/scheduler/Scheduler.ts:310-321 | The total is the number of jobs, each count is the number of jobs in that state, and the running ids are the ones the scheduler is running |
| Scheduler.StatsAddUp | packages/@sbf/core/lifecycle-engine/src/scheduler/Scheduler.ts:310-321 | Every job is in exactly one state, so the five counts add up to the total |

## Left out

- Input and output, logging, events, console warnings and persistence are not modelled. This covers the scheduler's job file, the queue's events, the migration logger, the inheritance resolver's audit log and sync's file scanning, upload and download. Databases and storage become a sequence or a map passed in and returned.
- Clocks, random ids and `uuid4()` are parameters. Each operation reads the clock once, so the instants an operation takes at different lines are modelled as one `now`.
- Floating-point arithmetic is left out: `calculateCost`, `estimateCost`, `getTodayStats`, `getMonthStats` and `getRemainingBudget` in TokenTracker.ts, and `budgetUtilization` in ContextBuilder.ts.
- TokenTracker.EstimateTokenCount: the word estimate is the exact ceiling of 13 × words / 10. The floating-point product `words * 1.3` is not modelled.
- The Redis path of the rate limiter is left out, because the local cache has the same sliding-window logic. So are the middleware dispatch, `get_client_identifier` and the decorator, which are request plumbing.
- Error messages are kept only where they identify the error; their exact wording is not modelled. Object key order is not modelled, because maps are unordered.
- Cosmetic and derived members are left out, because they hold no decision logic:
  - ContextBuilder.ts: the convenience adders (`addSystemMessage`, `addUserMessage`, `addAssistantMessage`, `addHistory`) and `createContextBuilder`.
  - OrganizationQueue: `size`, `isEmpty`, `getAll`, `getConfig`, `getPending`, `getApproved` and `createOrganizationQueue`. The last three are `getByStatus` or the constructor.
  - LifecycleStateMachine.ts: `getAllTransitions`.
  - PermissionChecker.ts: `getPermissions`, which is `DefaultPermissions` itself, and the two summary texts.
  - authorization.service.ts: `getMaxSensitivity`, `getAllowedActions` and `getPermissionSummary`, which read fields of `GetPolicyForRole`.
- `requireSummaryForTransition` in the lifecycle configuration is never read by the source, so it is not modelled. An exception thrown by a lifecycle action is not modelled either.
- constants.ts is not part of this model. The permission table and the level hierarchy are taken from the expectations in packages/@sbf/privacy-engine/tests/constants.test.ts.
- MigrationManager.ts: `initialize` (table creation) and `createMigration` (a template) are left out. The text of a migration's `up` and `down` functions, which the checksum hashes, is a field of the migration. `localeCompare` is modelled as Unicode scalar-value order (see Common.StrLess below).
- MigrationManager.SortMigrations: the comparator mixes numeric and string order. Its sortedness is proved only when all versions are numeric or none is. A mixed list has no total order, so no single ordering property holds.
- FrontmatterParser.ts:
  - `inferTypeFromPath` is left out, because FOLDER_TO_TYPE (in the plugin's types file) is not part of this model.
  - `calculateChecksum` and `hasContentChanged` (SHA-256) are left out.
  - `extractBMOMFromContent` is left out: it is a case-insensitive regular-expression search over headings.
- FrontmatterParser.Slug: lower-casing and the removal of diacritics after NFD normalisation are modelled for ASCII only, and other characters count as separators.
- FrontmatterParser.Validate: a non-string uid is tested on its string form, and a confidence on its numeric coercion. Both coercions are parameters.
- FrontmatterParser.ParseSerialize: the round trip is proved for a YAML writer whose output ends in a newline and holds no "\n---" line, read back by a matching reader.
- DailyPlanning.ParseTime: `Number` is modelled on digit strings only (the empty piece is 0). Any other piece is `None` instead of a number or `NaN`.
- CreateDailyPlan: a start time that is not a number gives `None`. The source then plans blocks timed "NaN:NaN" that land in none of the three time-of-day lists. An end or lunch time that is not a number is modelled as the source behaves: lunch is never skipped, and the end of work never stops placement.
- PlanFor: a task is unscheduled when no block holds an equal task. The source's `includes` compares object references, so with two equal task records of which one is scheduled, the source lists the other as unscheduled and the model does not.
- DailyPlanning.SortForOptimalScheduling: `Array.prototype.sort` is modelled as an insertion sort, whose stability is not proved, and due dates are compared through a date-reading parameter. Both meet the same ordering contract.
- DailyPlanning.PlaceTasks: whole minutes are used; a fractional `estimated_hours` is outside the model. A block that starts before lunch may run into it, as in the source. Its own contract only bounds the number of blocks, because further clauses on this recursive function slow every proof that mentions it; the placement is stated by PlaceTasksWellPlaced, PlaceTasksAtCursor and PlaceTasksStops.
- DailyPlanning.Configure: the lunch duration and the buffer are whole, non-negative minutes. A fractional or negative value, which JavaScript accepts, is outside the model. The hour cap is a real number and may be fractional or negative.
- PersonalTask.ts is not part of this model; the task fields planning reads are modelled directly.
- SyncPlanning.BuildSyncPlan: `new Date(updatedAt)` is a date-reading parameter; an invalid date compares as `NaN` and leaves the file unchanged.
- types.ts and CronParser.ts of the scheduler are not part of this model. The next cron time and the calendar month step are parameters of Scheduler.NextRunTime.
- Scheduler.ScheduleJob: the id from `Date.now()` and `Math.random()` is supplied by the caller.
- Scheduler: start, stop and the interval timer are not modelled. Overlapping passes are modelled only through the set of running job ids a pass is given.
- MindMapUtils.AncestorsWithin: the source loop can run for ever, so the model takes a step budget and answers `None` when the budget runs out. CyclicChainNeverEnds shows that no budget suffices on a cycle.
- MindMapUtils.GetVisibleNodesWithin: a step budget, for the same reason. ExpandedCycleHangsVisibility shows the loop does not end on an expanded cycle. When it does end, its result is characterised exactly.
- DailyPlanning.GetTodaysFocus: `maxTasks` is an integer. A fractional count, which `slice` truncates, is outside the model.
- mind-map-utils.ts: `createMindMapNode`, `exportToJson`, `validateMindMapData` and the colour and size tables are left out. They are presentation and JSON shape checks.
- mind_map_generator.py: `generate_from_content`, `generate_from_text` and `_prepare_content` call the language model and assemble prompts. They are left out; the model starts from the decoded answer, and JSON decoding is a parameter.
- entity_extractor.py: `extract_from_content` and `extract_from_text` call the language model and are left out; the model starts from the decoded answer. The `properties` maps are not modelled, and confidence and importance are real numbers.
- mind_map_generator.py and entity_extractor.py (the `RawNode` and `RawEntity` entries): a key whose JSON value is `null` is read as absent, so it takes the default, where Python's `.get(k, d)` would give `None`. The node `metadata` field (mind_map_generator.py:313) is not modelled.
- EntityExtractor.KeyOf: the deduplication key lower-cases ASCII letters only. Python's `str.lower()` folds every script, so "ÉCOLE" and "école" of one type share a key in the source and not in the model.
- MergeGraphs: deduplicates on EntityExtractor.KeyOf, so it merges only names that differ in ASCII case.
- MergeGraphsShape: proves the deduplication for the ASCII-folded key of EntityExtractor.KeyOf, not for Python's full case folding.
- Common.StrLess: compares Unicode scalar values, which is Python's `<`. JavaScript's `<` compares UTF-16 code units, so it puts U+E000 to U+FFFF after the characters above U+FFFF, and the model puts them before. `localeCompare` and the database's `ORDER BY version` use a collation; both are modelled by this order.
- MigrationManager.Rollback: assumes the database returns the applied rows ordered by version in the order of Common.StrLess. A collation that orders versions differently (case-insensitive or locale-aware) is not modelled.
- RateLimit.LimitFor: states only that every window is 60 seconds and every limit positive. The per-category numbers (10, 30, 60, 20, 100) appear only in its body.

## Findings

| source | as written | input that shows it | evidently intended | confidence | as-written member | corrected member |
|---|---|---|---|---|---|---|
| packages/@sbf/db-migrations/src/MigrationManager.ts:171-191,213-231 | `down` rolls back the last applied row in the order the rows are read, which is by version string | Versions "9" and "10" both applied: `up` ran "10" last, but `down` rolls back "9" | Roll back the newest migration in the order `up` applies them (numeric when versions are numbers) | not executed | MigrationManager.RollbackUndoesWrongMigration | MigrationManager.RollbackNewestUndoesLastMigration |
| apps/web/src/lib/visualization/mind-map-utils.ts:200-223 | `getVisibleNodes` queues the children of every expanded visible node with no visited check | Root r with edges r→a and a→r, both expanded: the queue never empties | Visit each node once, as `getNodeDescendants` does | not executed | MindMapUtils.ExpandedCycleHangsVisibility | MindMapUtils.GetVisibleNodes |
| apps/web/src/lib/visualization/mind-map-utils.ts:98-114 | `getNodeAncestors` follows parent links with no visited check | Edges a→b and b→a: the loop from a never ends | Stop at a parent already passed | not executed | MindMapUtils.CyclicChainNeverEnds | MindMapUtils.GetNodeAncestors |
| apps/web/src/lib/visualization/mind-map-utils.ts:358-365 | When `findCycles` meets a node on the recursion stack it records the cycle and returns without popping the node from the path and the stack | Edges a→b, b→a, c→a: it reports [a, b] and also [a, b, c], and b→c is not an edge | Pop the path and the stack on every return, so only real cycles are reported | not executed | MindMapUtils.AsWrittenReportsNonCycle | MindMapUtils.CorrectedRejectsNonCycle |
| packages/@sbf/core/lifecycle-engine/src/scheduler/Scheduler.ts:144-160,175-182 | A one-off job that completes stays enabled with its old run time, and `checkJobs` does not skip completed jobs | A one-off job due at 0 runs in the pass at 0 and again in the pass at 60000 | A completed one-off job is not run again | not executed | Scheduler.OnceJobRunsTwice | Scheduler.OnceJobRunsOnce |
