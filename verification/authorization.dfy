/** Multi-tenant access control: a role-based check (which actions a role's
    policy lists) followed by attribute-based checks on the resource (its
    sensitivity against the policy's ceiling, and the policy's conditions). */
module Authorization {
  import opened Common

  datatype TenantRole =
    | TenantOwner | TenantAdmin | Member | Viewer
    | Subject | Guardian | CareTeam
    | BillingAdmin | OrgAdmin | Manager | Guest

  datatype TenantType = PersonalTenant | PseudoPersonalTenant | ProfessionalTenant

  datatype Action =
    | Read | Create | Update | Delete | Export | Share
    | ManageUsers | ManageSettings | ChangeSensitivity | ViewAuditLogs

  /** An entry of a policy's action list: the wildcard `'*'` or one action. */
  datatype PolicyAction = AnyAction | Only(action: Action)

  /** The attribute conditions a policy may carry; an absent flag is `false`. */
  datatype Conditions = Conditions(
    cannotChangeSensitivity: bool,
    cannotDeleteSubjectEntity: bool,
    ownerOnly: bool,
    requireMfa: bool)

  datatype Policy = Policy(actions: seq<PolicyAction>, maxSensitivity: string, conditions: Option<Conditions>)

  /** The attributes of a resource the checks read. The sensitivity is kept as
      the raw string, since callers may pass a label outside the known list. */
  datatype Resource = Resource(sensitivity: Option<string>, ownerId: Option<string>, isSubject: bool)

  /** Why `RequirePermission` refused. */
  datatype Denied = PermissionDenied(role: TenantRole, action: Action, resource: Option<Resource>)

  /** The service's sensitivity scale, least to most sensitive. */
  const SensitivityLevels: seq<string> := ["public", "internal", "personal", "confidential", "strictly_confidential"]

  /** Reference ranking of the known sensitivity labels, independent of list positions. */
  function LevelRank(level: string): Option<nat> {
    if level == "public" then Some(0)
    else if level == "internal" then Some(1)
    else if level == "personal" then Some(2)
    else if level == "confidential" then Some(3)
    else if level == "strictly_confidential" then Some(4)
    else None
  }

  /** `indexOf`: the first position of `x` in `s`, or -1. */
  function IndexOf(s: seq<string>, x: string): (r: int)
    ensures -1 <= r < |s|
    ensures r == -1 <==> x !in s
    ensures r >= 0 ==> s[r] == x && forall j :: 0 <= j < r ==> s[j] != x
    decreases |s|
  {
    if |s| == 0 then -1
    else if s[0] == x then 0
    else
      var k := IndexOf(s[1..], x);
      if k == -1 then -1 else k + 1
  }

  lemma KnownRanks()
    ensures LevelRank("public") == Some(0) && LevelRank("internal") == Some(1)
    ensures LevelRank("personal") == Some(2) && LevelRank("confidential") == Some(3)
    ensures LevelRank("strictly_confidential") == Some(4)
  {
  }

  /** The position of a label on the scale is its reference rank, and -1 for an unknown label. */
  lemma SensitivityIndexIsRank(level: string)
    ensures IndexOf(SensitivityLevels, level) == if LevelRank(level).Some? then LevelRank(level).value else -1
  {
    var s := SensitivityLevels;
    var r := IndexOf(s, level);
    RankOnScale(level);
    if LevelRank(level).Some? {
      LevelsDistinct(r, LevelRank(level).value);
    }
  }

  /** A known label sits on the scale at its rank; an unknown one is not on it. */
  lemma RankOnScale(level: string)
    ensures LevelRank(level).Some? ==> LevelRank(level).value < |SensitivityLevels|
                                       && SensitivityLevels[LevelRank(level).value] == level
    ensures LevelRank(level).None? ==> level !in SensitivityLevels
  {
    if level == "public" {
    } else if level == "internal" {
    } else if level == "personal" {
    } else if level == "confidential" {
    } else if level == "strictly_confidential" {
    } else {
      assert LevelRank(level).None?;
    }
  }

  /** Each label appears once on the scale. */
  lemma LevelsDistinct(i: nat, j: nat)
    requires i < |SensitivityLevels| && j < |SensitivityLevels|
    ensures SensitivityLevels[i] == SensitivityLevels[j] ==> i == j
  {
    var s := SensitivityLevels;
    assert s[0][0] == 'p' && s[1][0] == 'i' && s[2][0] == 'p' && s[3][0] == 'c' && s[4][0] == 's';
    assert |s[0]| == 6 && |s[2]| == 8;
  }

  /** Whether a resource of sensitivity `resourceSensitivity` is within a ceiling:
      both labels must be known, and the resource's rank must not exceed the ceiling's. */
  function CanAccessSensitivity(resourceSensitivity: string, maxSensitivity: string): (r: bool)
    ensures r <==> LevelRank(resourceSensitivity).Some? && LevelRank(maxSensitivity).Some?
                   && LevelRank(resourceSensitivity).value <= LevelRank(maxSensitivity).value
  {
    SensitivityIndexIsRank(resourceSensitivity);
    SensitivityIndexIsRank(maxSensitivity);
    var resourceLevel := IndexOf(SensitivityLevels, resourceSensitivity);
    var maxLevel := IndexOf(SensitivityLevels, maxSensitivity);
    if resourceLevel == -1 || maxLevel == -1 then false else resourceLevel <= maxLevel
  }

  /** One entry of a policy's action list covers an action: the wildcard covers all. */
  predicate Covers(grant: PolicyAction, action: Action) {
    match grant
    case AnyAction => true
    case Only(a) => a == action
  }

  /** Role check: the wildcard allows every action, otherwise the action must be listed. */
  function IsActionAllowed(policy: Policy, action: Action): (r: bool)
    ensures r <==> exists g :: g in policy.actions && Covers(g, action)
  {
    if AnyAction in policy.actions then true else Only(action) in policy.actions
  }

  /** A policy whose list covers at least the entries of another allows at least its actions. */
  lemma ActionsMonotone(p: Policy, q: Policy, action: Action)
    requires forall g :: g in p.actions ==> g in q.actions
    ensures IsActionAllowed(p, action) ==> IsActionAllowed(q, action)
  {
  }

  /** Attribute conditions. `requireMfa` is accepted but not enforced. */
  function CheckConditions(c: Conditions, resource: Resource, action: Action, userId: Option<string>): (r: bool)
    ensures c.cannotChangeSensitivity && action == ChangeSensitivity ==> !r
    ensures c.cannotDeleteSubjectEntity && action == Delete && resource.isSubject ==> !r
    ensures c.ownerOnly && resource.ownerId != userId ==> !r
    ensures r <==> !(c.cannotChangeSensitivity && action == ChangeSensitivity)
                   && !(c.cannotDeleteSubjectEntity && action == Delete && resource.isSubject)
                   && !(c.ownerOnly && resource.ownerId != userId)
  {
    if c.cannotChangeSensitivity && action == ChangeSensitivity then false
    else if c.cannotDeleteSubjectEntity && action == Delete && resource.isSubject then false
    else if c.ownerOnly && resource.ownerId != userId then false
    else true
  }

  /** The multi-factor flag has no influence on the outcome of the condition check. */
  lemma RequireMfaIsNotEnforced(c: Conditions, resource: Resource, action: Action, userId: Option<string>, mfa: bool)
    ensures CheckConditions(c.(requireMfa := mfa), resource, action, userId) == CheckConditions(c, resource, action, userId)
  {
  }

  const GuardianConditions: Conditions := Conditions(true, true, false, false)

  /** The policy table, per tenant type and role; `None` where the table has no entry. */
  function LookupPolicy(tenantType: TenantType, role: TenantRole): Option<Policy> {
    match tenantType
    case PersonalTenant =>
      if role == TenantOwner then Some(Policy([AnyAction], "strictly_confidential", None)) else None
    case PseudoPersonalTenant =>
      (match role
       case Subject => Some(Policy([Only(Read)], "personal", None))
       case Guardian => Some(Policy([Only(Read), Only(Create), Only(Update)], "confidential", Some(GuardianConditions)))
       case CareTeam => Some(Policy([Only(Read), Only(Create)], "internal", Some(GuardianConditions)))
       case TenantOwner => Some(Policy([AnyAction], "strictly_confidential", None))
       case TenantAdmin => Some(Policy([Only(Read), Only(Create), Only(Update), Only(Delete), Only(ManageUsers), Only(ViewAuditLogs)],
                                       "strictly_confidential", None))
       case _ => None)
    case ProfessionalTenant =>
      (match role
       case TenantOwner => Some(Policy([AnyAction], "strictly_confidential", None))
       case OrgAdmin => Some(Policy([Only(Read), Only(Create), Only(Update), Only(Delete), Only(ManageUsers), Only(ManageSettings), Only(ViewAuditLogs)],
                                    "confidential", None))
       case BillingAdmin => Some(Policy([Only(Read), Only(ManageSettings)], "internal", Some(Conditions(false, false, false, false))))
       case Manager => Some(Policy([Only(Read), Only(Create), Only(Update), Only(Delete)], "confidential", None))
       case Member => Some(Policy([Only(Read), Only(Create), Only(Update)], "internal", None))
       case Viewer => Some(Policy([Only(Read)], "internal", None))
       case Guest => Some(Policy([Only(Read)], "public", None))
       case _ => None)
  }

  /** The policy that applies when the table has no entry: nothing allowed. */
  const DenyAll: Policy := Policy([], "public", None)

  function GetPolicyForRole(role: TenantRole, tenantType: TenantType): (p: Policy)
    ensures LookupPolicy(tenantType, role).None? ==> p.actions == [] && p.maxSensitivity == "public" && p.conditions.None?
    ensures LookupPolicy(tenantType, role).Some? ==> p == LookupPolicy(tenantType, role).value
  {
    LookupPolicy(tenantType, role).GetOr(DenyAll)
  }

  /** A sensitivity label that takes part in the check: present and non-empty. */
  predicate HasSensitivity(resource: Resource) {
    resource.sensitivity.Some? && resource.sensitivity.value != ""
  }

  /** The decision: role check, then (for a resource) sensitivity ceiling, then conditions. */
  function CanPerform(role: TenantRole, action: Action, resource: Option<Resource>, tenantType: TenantType,
                      userId: Option<string>): (r: bool)
    ensures r ==> IsActionAllowed(GetPolicyForRole(role, tenantType), action)
    ensures r && resource.Some? && HasSensitivity(resource.value)
            ==> CanAccessSensitivity(resource.value.sensitivity.value, GetPolicyForRole(role, tenantType).maxSensitivity)
    ensures resource.None? ==> (r <==> IsActionAllowed(GetPolicyForRole(role, tenantType), action))
    ensures resource.Some? ==>
              (r <==> IsActionAllowed(GetPolicyForRole(role, tenantType), action)
                      && (HasSensitivity(resource.value) ==>
                            CanAccessSensitivity(resource.value.sensitivity.value, GetPolicyForRole(role, tenantType).maxSensitivity))
                      && (GetPolicyForRole(role, tenantType).conditions.Some? ==>
                            CheckConditions(GetPolicyForRole(role, tenantType).conditions.value, resource.value, action, userId)))
  {
    Decide(GetPolicyForRole(role, tenantType), action, resource, userId)
  }

  /** The checks of `CanPerform` under one policy. */
  function Decide(policy: Policy, action: Action, resource: Option<Resource>, userId: Option<string>): (r: bool)
    ensures r ==> IsActionAllowed(policy, action)
    ensures r && resource.Some? && HasSensitivity(resource.value)
            ==> CanAccessSensitivity(resource.value.sensitivity.value, policy.maxSensitivity)
    ensures resource.None? ==> (r <==> IsActionAllowed(policy, action))
    ensures resource.Some? ==>
              (r <==> IsActionAllowed(policy, action)
                      && (HasSensitivity(resource.value) ==> CanAccessSensitivity(resource.value.sensitivity.value, policy.maxSensitivity))
                      && (policy.conditions.Some? ==> CheckConditions(policy.conditions.value, resource.value, action, userId)))
  {
    if !IsActionAllowed(policy, action) then false
    else if resource.Some? then
      if HasSensitivity(resource.value)
         && !CanAccessSensitivity(resource.value.sensitivity.value, policy.maxSensitivity) then false
      else if policy.conditions.Some?
              && !CheckConditions(policy.conditions.value, resource.value, action, userId) then false
      else true
    else true
  }

  /** A role the table does not list for a tenant type can do nothing there. */
  lemma UnlistedRoleIsDenied(role: TenantRole, tenantType: TenantType)
    requires LookupPolicy(tenantType, role).None?
    ensures forall action, resource, userId :: !CanPerform(role, action, resource, tenantType, userId)
  {
  }

  /** The tenant owner may perform every action on every resource whose label is
      absent or known, in every tenant type. */
  lemma TenantOwnerHasFullControl(tenantType: TenantType, action: Action, resource: Option<Resource>, userId: Option<string>)
    requires resource.Some? && HasSensitivity(resource.value) ==> LevelRank(resource.value.sensitivity.value).Some?
    ensures CanPerform(TenantOwner, action, resource, tenantType, userId)
  {
    KnownRanks();
    assert GetPolicyForRole(TenantOwner, tenantType) == Policy([AnyAction], "strictly_confidential", None);
    FullPolicyAllows(GetPolicyForRole(TenantOwner, tenantType), action, resource, userId);
  }

  /** The wildcard, the top ceiling and no conditions let everything through
      but a resource with an unknown label. */
  lemma FullPolicyAllows(policy: Policy, action: Action, resource: Option<Resource>, userId: Option<string>)
    requires AnyAction in policy.actions && policy.conditions.None?
    requires LevelRank(policy.maxSensitivity) == Some(4)
    requires resource.Some? && HasSensitivity(resource.value) ==> LevelRank(resource.value.sensitivity.value).Some?
    ensures Decide(policy, action, resource, userId)
  {
    if resource.Some? && HasSensitivity(resource.value) {
      assert LevelRank(resource.value.sensitivity.value).value <= 4;
    }
  }

  /** A resource carrying a label outside the scale is refused to every role. */
  lemma UnknownSensitivityIsDenied(role: TenantRole, action: Action, resource: Resource, tenantType: TenantType,
                                   userId: Option<string>)
    requires HasSensitivity(resource) && LevelRank(resource.sensitivity.value).None?
    ensures !CanPerform(role, action, Some(resource), tenantType, userId)
  {
  }

  /** Lowering a resource's sensitivity never takes away access. */
  lemma LowerSensitivityKeepsAccess(role: TenantRole, action: Action, resource: Resource, tenantType: TenantType,
                                    userId: Option<string>, lower: string)
    requires CanPerform(role, action, Some(resource), tenantType, userId)
    requires HasSensitivity(resource) && LevelRank(lower).Some?
    requires LevelRank(lower).value <= LevelRank(resource.sensitivity.value).value
    ensures CanPerform(role, action, Some(resource.(sensitivity := Some(lower))), tenantType, userId)
  {
    LowerSensitivityDecided(GetPolicyForRole(role, tenantType), action, resource, userId, lower);
  }

  /** Under any one policy, a lower known label passes wherever the higher one does. */
  lemma LowerSensitivityDecided(policy: Policy, action: Action, resource: Resource, userId: Option<string>, lower: string)
    requires Decide(policy, action, Some(resource), userId)
    requires HasSensitivity(resource) && LevelRank(lower).Some?
    requires LevelRank(lower).value <= LevelRank(resource.sensitivity.value).value
    ensures Decide(policy, action, Some(resource.(sensitivity := Some(lower))), userId)
  {
    var lowered := resource.(sensitivity := Some(lower));
    if policy.conditions.Some? {
      assert CheckConditions(policy.conditions.value, lowered, action, userId)
          == CheckConditions(policy.conditions.value, resource, action, userId);
    }
  }

  /** Guardians and care-team members can neither change a sensitivity label
      nor delete the subject's own entity, whatever the resource. */
  lemma GuardianProtections(resource: Option<Resource>, userId: Option<string>)
    ensures !CanPerform(Guardian, ChangeSensitivity, resource, PseudoPersonalTenant, userId)
    ensures !CanPerform(CareTeam, ChangeSensitivity, resource, PseudoPersonalTenant, userId)
    ensures resource.Some? && resource.value.isSubject ==>
              !CanPerform(Guardian, Delete, resource, PseudoPersonalTenant, userId)
              && !CanPerform(CareTeam, Delete, resource, PseudoPersonalTenant, userId)
    ensures forall r: Resource :: !CheckConditions(GuardianConditions, r, ChangeSensitivity, userId)
                                    && (r.isSubject ==> !CheckConditions(GuardianConditions, r, Delete, userId))
  {
  }

  /** A role whose policy allows the action whenever another's does, has an
      equal or higher sensitivity ceiling and no conditions, may do whatever
      the other may do. */
  lemma PolicyInclusion(lower: TenantRole, higher: TenantRole, tenantType: TenantType, action: Action,
                        resource: Option<Resource>, userId: Option<string>)
    requires IsActionAllowed(GetPolicyForRole(lower, tenantType), action)
             ==> IsActionAllowed(GetPolicyForRole(higher, tenantType), action)
    requires LevelRank(GetPolicyForRole(lower, tenantType).maxSensitivity).Some?
    requires LevelRank(GetPolicyForRole(higher, tenantType).maxSensitivity).Some?
    requires LevelRank(GetPolicyForRole(lower, tenantType).maxSensitivity).value
             <= LevelRank(GetPolicyForRole(higher, tenantType).maxSensitivity).value
    requires GetPolicyForRole(higher, tenantType).conditions.None?
    ensures CanPerform(lower, action, resource, tenantType, userId) ==> CanPerform(higher, action, resource, tenantType, userId)
  {
  }

  /** In a professional tenant the roles form a chain: each role may do
      everything the role below it may do. */
  lemma ProfessionalRolesAreNested(action: Action, resource: Option<Resource>, userId: Option<string>)
    ensures CanPerform(Guest, action, resource, ProfessionalTenant, userId) ==> CanPerform(Viewer, action, resource, ProfessionalTenant, userId)
    ensures CanPerform(Viewer, action, resource, ProfessionalTenant, userId) ==> CanPerform(Member, action, resource, ProfessionalTenant, userId)
    ensures CanPerform(Member, action, resource, ProfessionalTenant, userId) ==> CanPerform(Manager, action, resource, ProfessionalTenant, userId)
    ensures CanPerform(Manager, action, resource, ProfessionalTenant, userId) ==> CanPerform(OrgAdmin, action, resource, ProfessionalTenant, userId)
    ensures CanPerform(OrgAdmin, action, resource, ProfessionalTenant, userId) ==> CanPerform(TenantOwner, action, resource, ProfessionalTenant, userId)
  {
    KnownRanks();
    var t := ProfessionalTenant;
    assert GetPolicyForRole(Guest, t).actions == [Only(Read)];
    assert GetPolicyForRole(Viewer, t).actions == [Only(Read)];
    assert GetPolicyForRole(Member, t).actions == [Only(Read), Only(Create), Only(Update)];
    assert GetPolicyForRole(Manager, t).actions == [Only(Read), Only(Create), Only(Update), Only(Delete)];
    assert GetPolicyForRole(OrgAdmin, t).actions
        == [Only(Read), Only(Create), Only(Update), Only(Delete), Only(ManageUsers), Only(ManageSettings), Only(ViewAuditLogs)];
    PolicyInclusion(Guest, Viewer, t, action, resource, userId);
    PolicyInclusion(Viewer, Member, t, action, resource, userId);
    PolicyInclusion(Member, Manager, t, action, resource, userId);
    PolicyInclusion(Manager, OrgAdmin, t, action, resource, userId);
    PolicyInclusion(OrgAdmin, TenantOwner, t, action, resource, userId);
  }

  /** The resource-free convenience checks consult the role table only. */
  function CanManageUsers(role: TenantRole, tenantType: TenantType): (r: bool)
    ensures r <==> AnyAction in GetPolicyForRole(role, tenantType).actions
                   || Only(ManageUsers) in GetPolicyForRole(role, tenantType).actions
  {
    CanPerform(role, ManageUsers, None, tenantType, None)
  }

  function CanViewAuditLogs(role: TenantRole, tenantType: TenantType): (r: bool)
    ensures r <==> AnyAction in GetPolicyForRole(role, tenantType).actions
                   || Only(ViewAuditLogs) in GetPolicyForRole(role, tenantType).actions
  {
    CanPerform(role, ViewAuditLogs, None, tenantType, None)
  }

  function CanManageSettings(role: TenantRole, tenantType: TenantType): (r: bool)
    ensures r <==> AnyAction in GetPolicyForRole(role, tenantType).actions
                   || Only(ManageSettings) in GetPolicyForRole(role, tenantType).actions
  {
    CanPerform(role, ManageSettings, None, tenantType, None)
  }

  /** Raises (returns `Err`) exactly when the decision is a refusal. */
  function RequirePermission(role: TenantRole, action: Action, resource: Option<Resource>, tenantType: TenantType,
                             userId: Option<string>): (r: Result<(), Denied>)
    ensures r.Ok? <==> CanPerform(role, action, resource, tenantType, userId)
    ensures r.Err? ==> r.error == PermissionDenied(role, action, resource)
  {
    if !CanPerform(role, action, resource, tenantType, userId) then Err(PermissionDenied(role, action, resource))
    else Ok(())
  }
}
