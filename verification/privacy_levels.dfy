/** The privacy engine's sensitivity levels, their restrictiveness order and the
    permissions each level grants by default. */
module PrivacyLevels {

  /** The four sensitivity levels, from least to most restrictive. */
  datatype SensitivityLevel = Public | Personal | Confidential | Secret

  /** Position in the hierarchy public < personal < confidential < secret. */
  function Rank(l: SensitivityLevel): (n: nat)
    ensures n < 4
  {
    match l
    case Public => 0
    case Personal => 1
    case Confidential => 2
    case Secret => 3
  }

  /** Distinct levels have distinct positions, so the hierarchy is a total order. */
  lemma RankInjective(a: SensitivityLevel, b: SensitivityLevel)
    ensures Rank(a) == Rank(b) <==> a == b
  {
  }

  /** `a` is strictly more restrictive than `b`. */
  predicate IsMoreRestrictive(a: SensitivityLevel, b: SensitivityLevel) {
    Rank(a) > Rank(b)
  }

  /** The more restrictive of two levels. */
  function MostRestrictive(a: SensitivityLevel, b: SensitivityLevel): (r: SensitivityLevel)
    ensures r == a || r == b
    ensures Rank(r) >= Rank(a) && Rank(r) >= Rank(b)
  {
    if IsMoreRestrictive(b, a) then b else a
  }

  /** The six context permissions a level grants or refuses. */
  datatype PermissionType = CloudAi | LocalAi | Export | Sync | Share | Index

  datatype ContextPermissions = ContextPermissions(
    cloudAiAllowed: bool,
    localAiAllowed: bool,
    exportAllowed: bool,
    syncAllowed: bool,
    shareAllowed: bool,
    indexAllowed: bool)

  /** Looks up one permission flag. */
  function Allows(p: ContextPermissions, t: PermissionType): bool {
    match t
    case CloudAi => p.cloudAiAllowed
    case LocalAi => p.localAiAllowed
    case Export => p.exportAllowed
    case Sync => p.syncAllowed
    case Share => p.shareAllowed
    case Index => p.indexAllowed
  }

  /** The default permission table. */
  function DefaultPermissions(level: SensitivityLevel): ContextPermissions {
    match level
    case Public => ContextPermissions(true, true, true, true, true, true)
    case Personal => ContextPermissions(false, true, true, true, false, true)
    case Confidential => ContextPermissions(false, true, false, false, false, true)
    case Secret => ContextPermissions(false, false, false, false, false, false)
  }

  /** A more restrictive level never grants a permission a less restrictive
      level refuses: the table is monotone along the hierarchy. */
  lemma RestrictionNeverGrants(a: SensitivityLevel, b: SensitivityLevel, t: PermissionType)
    requires Rank(a) >= Rank(b)
    requires Allows(DefaultPermissions(a), t)
    ensures Allows(DefaultPermissions(b), t)
  {
  }

  /** Secret content is never handed to any AI, and public content to every one. */
  lemma AiAccessByLevel(level: SensitivityLevel)
    ensures Allows(DefaultPermissions(level), LocalAi) <==> level != Secret
    ensures Allows(DefaultPermissions(level), CloudAi) <==> level == Public
  {
  }
}
