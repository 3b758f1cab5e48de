/** Permission decisions of the privacy engine: one permission for one level,
    the AI, export, share, sync and index shortcuts, bulk export/share
    requests, and downgrade detection. */
module PermissionChecker {
  import opened Common
  import opened PrivacyLevels

  /** The reasons a refusal can carry; `NotAllowed` is the generic message. */
  datatype BlockReason =
    | SecretAiBlocked
    | ConfidentialCloudBlocked
    | PersonalCloudBlocked
    | ExportBlocked
    | ShareBlocked
    | SyncBlocked
    | IndexBlocked
    | NotAllowed(permission: PermissionType, level: SensitivityLevel)

  datatype PermissionCheckResult = PermissionCheckResult(
    allowed: bool,
    reason: Option<BlockReason>,
    effectiveLevel: SensitivityLevel,
    effectivePermissions: ContextPermissions)

  /** The message chosen for a refused permission. */
  function GetBlockReason(level: SensitivityLevel, permission: PermissionType): BlockReason {
    match level
    case Secret =>
      (match permission
       case CloudAi => SecretAiBlocked
       case LocalAi => SecretAiBlocked
       case Export => ExportBlocked
       case Share => ShareBlocked
       case Sync => SyncBlocked
       case Index => IndexBlocked)
    case Confidential =>
      (match permission
       case CloudAi => ConfidentialCloudBlocked
       case Export => ExportBlocked
       case Share => ShareBlocked
       case Sync => SyncBlocked
       case _ => NotAllowed(permission, level))
    case Personal =>
      (match permission
       case CloudAi => PersonalCloudBlocked
       case Share => ShareBlocked
       case _ => NotAllowed(permission, level))
    case Public => NotAllowed(permission, level)
  }

  /** Looks the permission up in the default table; a refusal carries a reason, a grant none. */
  function CheckPermission(level: SensitivityLevel, permission: PermissionType): (r: PermissionCheckResult)
    ensures r.allowed == Allows(DefaultPermissions(level), permission)
    ensures r.reason.None? <==> r.allowed
    ensures r.effectiveLevel == level && r.effectivePermissions == DefaultPermissions(level)
  {
    var permissions := DefaultPermissions(level);
    var allowed := Allows(permissions, permission);
    PermissionCheckResult(allowed, if allowed then None else Some(GetBlockReason(level, permission)), level, permissions)
  }

  /** Every refusal the table can produce gets a specific message naming what was
      refused; the generic message is never reached from a table lookup. */
  lemma RefusalsHaveSpecificReasons(level: SensitivityLevel, permission: PermissionType)
    requires !CheckPermission(level, permission).allowed
    ensures !CheckPermission(level, permission).reason.value.NotAllowed?
    ensures permission == Export ==> CheckPermission(level, permission).reason == Some(ExportBlocked)
    ensures permission == Share ==> CheckPermission(level, permission).reason == Some(ShareBlocked)
    ensures permission == Sync ==> CheckPermission(level, permission).reason == Some(SyncBlocked)
    ensures permission == Index ==> CheckPermission(level, permission).reason == Some(IndexBlocked)
  {
  }

  /** AI access by provider kind: cloud providers only for public content,
      local providers for everything but secret content. */
  function CanAccessAi(level: SensitivityLevel, cloud: bool): (r: PermissionCheckResult)
    ensures cloud ==> (r.allowed <==> level == Public)
    ensures !cloud ==> (r.allowed <==> level != Secret)
    ensures r.effectiveLevel == level
  {
    AiAccessByLevel(level);
    if cloud then CheckPermission(level, CloudAi) else CheckPermission(level, LocalAi)
  }

  function CanExport(level: SensitivityLevel): (r: PermissionCheckResult)
    ensures r.allowed <==> level == Public || level == Personal
  {
    CheckPermission(level, Export)
  }

  function CanShare(level: SensitivityLevel): (r: PermissionCheckResult)
    ensures r.allowed <==> level == Public
  {
    CheckPermission(level, Share)
  }

  function CanSync(level: SensitivityLevel): (r: PermissionCheckResult)
    ensures r.allowed <==> level == Public || level == Personal
  {
    CheckPermission(level, Sync)
  }

  function CanIndex(level: SensitivityLevel): (r: PermissionCheckResult)
    ensures r.allowed <==> level != Secret
  {
    CheckPermission(level, Index)
  }

  /** An entity named in a bulk request. */
  datatype EntityRef = EntityRef(uid: string, sensitivity: SensitivityLevel)

  datatype Blocked = Blocked(uid: string, reason: BlockReason)

  datatype BulkResult = BulkResult(allowed: seq<string>, blocked: seq<Blocked>, canProceed: bool)

  predicate Permitted(e: EntityRef, permission: PermissionType) {
    Allows(DefaultPermissions(e.sensitivity), permission)
  }

  /** Reference definition: the uids of the permitted entities, in request order. */
  function AllowedUids(entities: seq<EntityRef>, permission: PermissionType): seq<string>
    decreases |entities|
  {
    if |entities| == 0 then []
    else
      var last := entities[|entities| - 1];
      AllowedUids(entities[..|entities| - 1], permission) + (if Permitted(last, permission) then [last.uid] else [])
  }

  /** Reference definition: the refused entities with the reason of their own level, in request order. */
  function BlockedEntries(entities: seq<EntityRef>, permission: PermissionType): seq<Blocked>
    decreases |entities|
  {
    if |entities| == 0 then []
    else
      var last := entities[|entities| - 1];
      BlockedEntries(entities[..|entities| - 1], permission)
        + (if Permitted(last, permission) then [] else [Blocked(last.uid, GetBlockReason(last.sensitivity, permission))])
  }

  /** The shared loop of `checkExportRequest` and `checkShareRequest`. */
  method CheckBulkRequest(entities: seq<EntityRef>, permission: PermissionType, fallback: BlockReason)
    returns (r: BulkResult)
    ensures r.allowed == AllowedUids(entities, permission)
    ensures r.blocked == BlockedEntries(entities, permission)
    ensures |r.allowed| + |r.blocked| == |entities|
    ensures r.canProceed <==> exists i :: 0 <= i < |entities| && Permitted(entities[i], permission)
  {
    var allowed: seq<string> := [];
    var blocked: seq<Blocked> := [];
    var i := 0;
    while i < |entities|
      invariant 0 <= i <= |entities|
      invariant allowed == AllowedUids(entities[..i], permission)
      invariant blocked == BlockedEntries(entities[..i], permission)
      invariant |allowed| + |blocked| == i
      invariant |allowed| > 0 <==> exists k :: 0 <= k < i && Permitted(entities[k], permission)
    {
      var e := entities[i];
      assert entities[..i + 1][..i] == entities[..i];
      var result := CheckPermission(e.sensitivity, permission);
      if result.allowed {
        allowed := allowed + [e.uid];
      } else {
        var reason := match result.reason case Some(m) => m case None => fallback;
        blocked := blocked + [Blocked(e.uid, reason)];
      }
      i := i + 1;
    }
    assert entities[..|entities|] == entities;
    r := BulkResult(allowed, blocked, |allowed| > 0);
  }

  method CheckExportRequest(entities: seq<EntityRef>) returns (r: BulkResult)
    ensures r.allowed == AllowedUids(entities, Export) && r.blocked == BlockedEntries(entities, Export)
    ensures r.canProceed <==> exists i :: 0 <= i < |entities| && entities[i].sensitivity in {Public, Personal}
  {
    r := CheckBulkRequest(entities, Export, ExportBlocked);
  }

  method CheckShareRequest(entities: seq<EntityRef>) returns (r: BulkResult)
    ensures r.allowed == AllowedUids(entities, Share) && r.blocked == BlockedEntries(entities, Share)
    ensures r.canProceed <==> exists i :: 0 <= i < |entities| && entities[i].sensitivity == Public
  {
    r := CheckBulkRequest(entities, Share, ShareBlocked);
  }

  /** Every entity of a bulk request is either allowed or blocked, never both:
      the reference lists split the request. */
  lemma {:induction false} BulkPartition(entities: seq<EntityRef>, permission: PermissionType)
    ensures |AllowedUids(entities, permission)| + |BlockedEntries(entities, permission)| == |entities|
    ensures forall b :: b in BlockedEntries(entities, permission) ==>
              exists e :: e in entities && e.uid == b.uid && !Permitted(e, permission)
                          && b.reason == GetBlockReason(e.sensitivity, permission)
    ensures forall u :: u in AllowedUids(entities, permission) ==>
              exists e :: e in entities && e.uid == u && Permitted(e, permission)
    decreases |entities|
  {
    if |entities| > 0 {
      var pre := entities[..|entities| - 1];
      BulkPartition(pre, permission);
      assert forall e :: e in pre ==> e in entities;
    }
  }

  /** `isDowngrade`: moving to a strictly less restrictive level. */
  function IsDowngrade(fromLevel: SensitivityLevel, toLevel: SensitivityLevel): (r: bool)
    ensures r <==> IsMoreRestrictive(fromLevel, toLevel)
  {
    var levels := [Public, Personal, Confidential, Secret];
    var fromIndex := IndexOfLevel(levels, fromLevel);
    var toIndex := IndexOfLevel(levels, toLevel);
    toIndex < fromIndex
  }

  function IndexOfLevel(levels: seq<SensitivityLevel>, l: SensitivityLevel): (r: int)
    requires levels == [Public, Personal, Confidential, Secret]
    ensures r == Rank(l)
  {
    if levels[0] == l then 0
    else if levels[1] == l then 1
    else if levels[2] == l then 2
    else 3
  }

  /** Downgrades are a strict order: never from a level to itself, never both ways,
      and a downgrade of a downgrade is a downgrade. */
  lemma DowngradeIsStrictOrder(a: SensitivityLevel, b: SensitivityLevel, c: SensitivityLevel)
    ensures !IsDowngrade(a, a)
    ensures IsDowngrade(a, b) ==> !IsDowngrade(b, a)
    ensures IsDowngrade(a, b) && IsDowngrade(b, c) ==> IsDowngrade(a, c)
    ensures a != b ==> IsDowngrade(a, b) || IsDowngrade(b, a)
  {
    RankInjective(a, b);
  }
}
