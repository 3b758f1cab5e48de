/** Planning a sync between the notes on disk and the entities on the server:
    each local file is uploaded, reported as a conflict or left alone, and
    every remote entity that no local file carries is downloaded. Times are
    milliseconds since the epoch. */
module SyncPlanning {
  import opened Common

  /** A Markdown file found on disk, with the uid its header carries. */
  datatype LocalFile = LocalFile(path: string, title: string, entityType: string, uid: Option<string>, modified: int)

  /** An entity as the server lists it. */
  datatype RemoteEntity = RemoteEntity(uid: string, title: string, entityType: string, updatedAt: string)

  /** A local file older than its remote copy. */
  datatype Conflict = Conflict(path: string, local: LocalFile, remote: RemoteEntity)

  datatype SyncPlan = SyncPlan(
    toUpload: seq<LocalFile>,
    toDownload: seq<RemoteEntity>,
    conflicts: seq<Conflict>,
    unchangedPaths: seq<string>)

  /** `new Date(s).getTime()`: the instant a timestamp names, `None` for an
      invalid date (`NaN`, which compares false with everything). */
  type DateReader = string -> Option<int>

  /** `remoteByUid.get(uid)`: a `Map` built from the list keeps the last
      entity listed under each uid. */
  function RemoteFor(remotes: seq<RemoteEntity>, uid: string): (r: Option<RemoteEntity>)
    ensures r.Some? ==> r.value in remotes && r.value.uid == uid
    ensures r.None? <==> forall e :: e in remotes ==> e.uid != uid
    decreases |remotes|
  {
    if |remotes| == 0 then None
    else
      var last := remotes[|remotes| - 1];
      assert remotes == remotes[..|remotes| - 1] + [last];
      if last.uid == uid then Some(last) else RemoteFor(remotes[..|remotes| - 1], uid)
  }

  /** The entity the map keeps for a uid is the last one listed under it. */
  lemma RemoteForIsLast(remotes: seq<RemoteEntity>, uid: string, i: nat)
    requires i < |remotes| && remotes[i].uid == uid
    requires forall j :: i < j < |remotes| ==> remotes[j].uid != uid
    ensures RemoteFor(remotes, uid) == Some(remotes[i])
    decreases |remotes|
  {
    if i < |remotes| - 1 {
      RemoteForIsLast(remotes[..|remotes| - 1], uid, i);
    }
  }

  /** What the plan does with one local file. */
  datatype Action = Upload | Conflicting(remote: RemoteEntity) | Unchanged

  /** The decision for one file: new or unknown remotely → upload; otherwise
      compare the modification time with the remote update time. */
  function Classify(f: LocalFile, remotes: seq<RemoteEntity>, readDate: DateReader): (a: Action)
    ensures a.Conflicting? ==> a.remote in remotes && f.uid == Some(a.remote.uid)
  {
    if !Truthy(f.uid) then Upload
    else match RemoteFor(remotes, f.uid.value)
      case None => Upload
      case Some(remote) =>
        match readDate(remote.updatedAt)
        case None => Unchanged
        case Some(t) =>
          if f.modified > t then Upload
          else if f.modified < t then Conflicting(remote)
          else Unchanged
  }

  /** The three outcomes follow the order of the two times: a file with a
      remote copy of valid date is uploaded when newer, a conflict when older,
      unchanged when equal; a file without a uid or remote copy is uploaded. */
  lemma ClassifyByTime(f: LocalFile, remotes: seq<RemoteEntity>, readDate: DateReader)
    ensures !Truthy(f.uid) ==> Classify(f, remotes, readDate) == Upload
    ensures Truthy(f.uid) && (forall e :: e in remotes ==> e.uid != f.uid.value) ==> Classify(f, remotes, readDate) == Upload
    ensures forall e, t :: e in remotes && Truthy(f.uid) && RemoteFor(remotes, f.uid.value) == Some(e) && readDate(e.updatedAt) == Some(t) ==>
              && (Classify(f, remotes, readDate) == Upload <==> f.modified > t)
              && (Classify(f, remotes, readDate) == Conflicting(e) <==> f.modified < t)
              && (Classify(f, remotes, readDate) == Unchanged <==> f.modified == t)
  {
  }

  predicate IsUpload(f: LocalFile, remotes: seq<RemoteEntity>, readDate: DateReader) {
    Classify(f, remotes, readDate) == Upload
  }

  predicate IsConflict(f: LocalFile, remotes: seq<RemoteEntity>, readDate: DateReader) {
    Classify(f, remotes, readDate).Conflicting?
  }

  predicate IsUnchanged(f: LocalFile, remotes: seq<RemoteEntity>, readDate: DateReader) {
    Classify(f, remotes, readDate) == Unchanged
  }

  /** Some local file carries `uid` in its header (`localByUid.has(uid)`):
      only truthy uids are entered in that map. */
  predicate HeldLocally(files: seq<LocalFile>, uid: string) {
    exists f :: f in files && Truthy(f.uid) && f.uid.value == uid
  }

  /** The files to upload, in the order of the files. */
  function Uploads(files: seq<LocalFile>, remotes: seq<RemoteEntity>, readDate: DateReader): (r: seq<LocalFile>)
    ensures forall f :: f in r <==> f in files && IsUpload(f, remotes, readDate)
    decreases |files|
  {
    if |files| == 0 then []
    else
      var init, last := files[..|files| - 1], files[|files| - 1];
      assert files == init + [last];
      if IsUpload(last, remotes, readDate) then Uploads(init, remotes, readDate) + [last]
      else Uploads(init, remotes, readDate)
  }

  /** The conflicts, one per file older than its remote copy, in the order of
      the files. */
  function Conflicts(files: seq<LocalFile>, remotes: seq<RemoteEntity>, readDate: DateReader): (r: seq<Conflict>)
    ensures forall c :: c in r ==> c.local in files && c.path == c.local.path && Classify(c.local, remotes, readDate) == Conflicting(c.remote)
    ensures forall f :: f in files && IsConflict(f, remotes, readDate) ==> exists c :: c in r && c.local == f
    decreases |files|
  {
    if |files| == 0 then []
    else
      var init, last := files[..|files| - 1], files[|files| - 1];
      assert files == init + [last];
      var a := Classify(last, remotes, readDate);
      if a.Conflicting? then
        var r := Conflicts(init, remotes, readDate) + [Conflict(last.path, last, a.remote)];
        assert r[|r| - 1].local == last;
        r
      else Conflicts(init, remotes, readDate)
  }

  /** The paths of the files left alone, in the order of the files. */
  function UnchangedPaths(files: seq<LocalFile>, remotes: seq<RemoteEntity>, readDate: DateReader): (r: seq<string>)
    ensures forall p :: p in r <==> exists f :: f in files && IsUnchanged(f, remotes, readDate) && f.path == p
    decreases |files|
  {
    if |files| == 0 then []
    else
      var init, last := files[..|files| - 1], files[|files| - 1];
      assert files == init + [last];
      if IsUnchanged(last, remotes, readDate) then UnchangedPaths(init, remotes, readDate) + [last.path]
      else UnchangedPaths(init, remotes, readDate)
  }

  /** Every file gets exactly one of the three outcomes, so the three lists
      together are as long as the list of files. */
  lemma {:induction false} OutcomesSplit(files: seq<LocalFile>, remotes: seq<RemoteEntity>, readDate: DateReader)
    ensures |Uploads(files, remotes, readDate)| + |Conflicts(files, remotes, readDate)|
          + |UnchangedPaths(files, remotes, readDate)| == |files|
    decreases |files|
  {
    if |files| > 0 {
      OutcomesSplit(files[..|files| - 1], remotes, readDate);
    }
  }

  /** A conflict pairs a local file with the remote entity of the same uid
      that the server updated strictly later, and that entity is the last one
      listed under the uid. */
  lemma ConflictRemoteNewer(files: seq<LocalFile>, remotes: seq<RemoteEntity>, readDate: DateReader, c: Conflict)
    requires c in Conflicts(files, remotes, readDate)
    ensures c.local in files && c.remote in remotes
    ensures c.local.uid == Some(c.remote.uid) && RemoteFor(remotes, c.remote.uid) == Some(c.remote)
    ensures readDate(c.remote.updatedAt).Some? && c.local.modified < readDate(c.remote.updatedAt).value
  {
    assert Classify(c.local, remotes, readDate) == Conflicting(c.remote);
  }

  /** The first loop of `buildSyncPlan`: every local file sorted into
      upload, conflict or unchanged. */
  method SortLocalFiles(files: seq<LocalFile>, remotes: seq<RemoteEntity>, readDate: DateReader)
    returns (up: seq<LocalFile>, conflicts: seq<Conflict>, same: seq<string>)
    ensures up == Uploads(files, remotes, readDate)
    ensures conflicts == Conflicts(files, remotes, readDate)
    ensures same == UnchangedPaths(files, remotes, readDate)
  {
    up, conflicts, same := [], [], [];
    var i := 0;
    while i < |files|
      invariant i <= |files|
      invariant up == Uploads(files[..i], remotes, readDate)
      invariant conflicts == Conflicts(files[..i], remotes, readDate)
      invariant same == UnchangedPaths(files[..i], remotes, readDate)
    {
      var f := files[i];
      assert files[..i + 1][..i] == files[..i] && files[..i + 1][i] == f;
      var a := Classify(f, remotes, readDate);
      if a == Upload {
        up := up + [f];
      } else if a.Conflicting? {
        conflicts := conflicts + [Conflict(f.path, f, a.remote)];
      } else {
        same := same + [f.path];
      }
      i := i + 1;
    }
    assert files[..i] == files;
  }

  /** The second loop of `buildSyncPlan`: the remote entities no local file
      carries, in the server's order. */
  method RemoteOnly(files: seq<LocalFile>, remotes: seq<RemoteEntity>) returns (down: seq<RemoteEntity>)
    ensures down == Filter(remotes, (e: RemoteEntity) => !HeldLocally(files, e.uid))
  {
    down := [];
    var j := 0;
    while j < |remotes|
      invariant j <= |remotes|
      invariant down == Filter(remotes[..j], (e: RemoteEntity) => !HeldLocally(files, e.uid))
    {
      assert remotes[..j + 1] == remotes[..j] + [remotes[j]];
      FilterAppend(remotes[..j], [remotes[j]], (e: RemoteEntity) => !HeldLocally(files, e.uid));
      if !HeldLocally(files, remotes[j].uid) {
        down := down + [remotes[j]];
      }
      j := j + 1;
    }
    assert remotes[..j] == remotes;
  }

  /** `buildSyncPlan`. */
  method BuildSyncPlan(files: seq<LocalFile>, remotes: seq<RemoteEntity>, readDate: DateReader) returns (plan: SyncPlan)
    ensures forall f :: f in plan.toUpload <==> f in files && IsUpload(f, remotes, readDate)
    ensures forall c :: c in plan.conflicts ==>
              c.local in files && c.path == c.local.path && Classify(c.local, remotes, readDate) == Conflicting(c.remote)
    ensures forall f :: f in files && IsConflict(f, remotes, readDate) ==> exists c :: c in plan.conflicts && c.local == f
    ensures forall p :: p in plan.unchangedPaths <==> exists f :: f in files && IsUnchanged(f, remotes, readDate) && f.path == p
    ensures |plan.toUpload| + |plan.conflicts| + |plan.unchangedPaths| == |files|
    ensures forall e :: e in plan.toDownload <==> e in remotes && !HeldLocally(files, e.uid)
  {
    var up, conflicts, same := SortLocalFiles(files, remotes, readDate);
    var down := RemoteOnly(files, remotes);
    plan := SyncPlan(up, down, conflicts, same);
    OutcomesSplit(files, remotes, readDate);
  }
}
